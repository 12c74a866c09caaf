/**
 Queries credited to devices, and the rollups of any selection of them.
 */
module Attribution {
  import opened Metrics

  datatype Credit = Credit(device: nat, entry: QueryLogEntry)

  // The rollup of the credits that satisfy p.
  ghost function TallyOf(cs: seq<Credit>, p: Credit -> bool): Counts
  {
    if cs == [] then ZERO
    else
      var front, last := TallyOf(cs[..|cs| - 1], p), cs[|cs| - 1];
      if p(last) then Merge(front, One(last.entry)) else front
  }

  function Entries(cs: seq<Credit>): seq<QueryLogEntry>
  {
    seq(|cs|, i requires 0 <= i < |cs| => cs[i].entry)
  }

  lemma {:induction false} TallyOfSnoc(cs: seq<Credit>, c: Credit, p: Credit -> bool)
    ensures TallyOf(cs + [c], p) == if p(c) then Merge(TallyOf(cs, p), One(c.entry)) else TallyOf(cs, p)
  {
    assert (cs + [c])[..|cs|] == cs;
  }

  lemma {:induction false} TallyOfAppend(cs: seq<Credit>, ds: seq<Credit>, p: Credit -> bool)
    ensures TallyOf(cs + ds, p) == Merge(TallyOf(cs, p), TallyOf(ds, p))
  {
    if ds == [] {
      assert cs + ds == cs;
      MergeZero(TallyOf(cs, p));
    } else {
      var front, last := ds[..|ds| - 1], ds[|ds| - 1];
      assert (cs + ds)[..|cs + ds| - 1] == cs + front;
      TallyOfAppend(cs, front, p);
      MergeAssociates(TallyOf(cs, p), TallyOf(front, p), One(last.entry));
    }
  }

  lemma {:induction false} TallyOfSame(cs: seq<Credit>, p: Credit -> bool, q: Credit -> bool)
    requires forall c | c in cs :: p(c) == q(c)
    ensures TallyOf(cs, p) == TallyOf(cs, q)
  {
    if cs != [] {
      TallyOfSame(cs[..|cs| - 1], p, q);
    }
  }

  lemma {:induction false} TallyOfNone(cs: seq<Credit>, p: Credit -> bool)
    requires forall c | c in cs :: !p(c)
    ensures TallyOf(cs, p) == ZERO
  {
    if cs != [] {
      TallyOfNone(cs[..|cs| - 1], p);
    }
  }

  lemma {:induction false} MergeSwap(a: Counts, b: Counts, one: Counts)
    ensures Merge(Merge(a, one), b) == Merge(Merge(a, b), one)
  {
    MergeAssociates(a, one, b);
    MergeAssociates(a, b, one);
    MergeCommutes(one, b);
  }

  // A selection split in two.
  lemma {:induction false} TallyOfSplit(cs: seq<Credit>, p: Credit -> bool, q: Credit -> bool, r: Credit -> bool)
    requires forall c | c in cs :: (p(c) <==> q(c) || r(c)) && !(q(c) && r(c))
    ensures TallyOf(cs, p) == Merge(TallyOf(cs, q), TallyOf(cs, r))
  {
    if cs == [] {
      MergeZero(ZERO);
    } else {
      var front, last := cs[..|cs| - 1], cs[|cs| - 1];
      TallyOfSplit(front, p, q, r);
      MergeSwap(TallyOf(front, q), TallyOf(front, r), One(last.entry));
      MergeAssociates(TallyOf(front, q), TallyOf(front, r), One(last.entry));
    }
  }

  // -------------------------------------------------------------------------- partitions

  function WithKey<K(!new, ==)>(p: Credit -> bool, key: Credit -> K, k: K): Credit -> bool
  {
    c => p(c) && key(c) == k
  }

  function WithKeyIn<K(!new, ==)>(p: Credit -> bool, key: Credit -> K, ks: seq<K>): Credit -> bool
  {
    c => p(c) && key(c) in ks
  }

  ghost function SumByKey<K(!new)>(cs: seq<Credit>, p: Credit -> bool, key: Credit -> K, ks: seq<K>): Counts
  {
    if ks == [] then ZERO
    else Merge(SumByKey(cs, p, key, ks[..|ks| - 1]), TallyOf(cs, WithKey(p, key, ks[|ks| - 1])))
  }

  ghost predicate Distinct<K(!new)>(ks: seq<K>)
  {
    forall i, j | 0 <= i < j < |ks| :: ks[i] != ks[j]
  }

  lemma {:induction false} SumByKeyIs<K(!new)>(cs: seq<Credit>, p: Credit -> bool, key: Credit -> K, ks: seq<K>)
    requires Distinct(ks)
    ensures SumByKey(cs, p, key, ks) == TallyOf(cs, WithKeyIn(p, key, ks))
  {
    if ks == [] {
      TallyOfNone(cs, WithKeyIn(p, key, ks));
    } else {
      var front, last := ks[..|ks| - 1], ks[|ks| - 1];
      SumByKeyIs(cs, p, key, front);
      LastKey(ks);
      TallyOfKeySplit(cs, p, key, front, last, ks);
    }
  }

  lemma {:induction false} LastKey<K(!new)>(ks: seq<K>)
    requires Distinct(ks) && ks != []
    ensures ks[|ks| - 1] !in ks[..|ks| - 1]
    ensures forall k :: k in ks <==> k in ks[..|ks| - 1] || k == ks[|ks| - 1]
  {
    assert ks == ks[..|ks| - 1] + [ks[|ks| - 1]];
  }

  lemma {:induction false} TallyOfKeySplit<K(!new)>(
    cs: seq<Credit>, p: Credit -> bool, key: Credit -> K, front: seq<K>, last: K, ks: seq<K>)
    requires last !in front
    requires forall k :: k in ks <==> k in front || k == last
    ensures TallyOf(cs, WithKeyIn(p, key, ks)) == Merge(TallyOf(cs, WithKeyIn(p, key, front)), TallyOf(cs, WithKey(p, key, last)))
  {
    TallyOfSplit(cs, WithKeyIn(p, key, ks), WithKeyIn(p, key, front), WithKey(p, key, last));
  }

  // A rollup is the sum of the rollups of its parts, however it is cut into parts.
  lemma {:induction false} Partition<K(!new)>(cs: seq<Credit>, p: Credit -> bool, key: Credit -> K, ks: seq<K>)
    requires Distinct(ks)
    requires forall c | c in cs && p(c) :: key(c) in ks
    ensures SumByKey(cs, p, key, ks) == TallyOf(cs, p)
  {
    SumByKeyIs(cs, p, key, ks);
    TallyOfSame(cs, p, WithKeyIn(p, key, ks));
  }
}
