// sorted() applied to a set: the one ascending sequence of its members.
module SortedSets {
  import opened Strings

  ghost predicate TotalOrder<T(!new)>(le: (T, T) -> bool)
  {
    && (forall x, y :: le(x, y) || le(y, x))
    && (forall x, y :: le(x, y) && le(y, x) ==> x == y)
    && (forall x, y, z :: le(x, y) && le(y, z) ==> le(x, z))
  }

  ghost predicate Ascending<T(!new)>(s: seq<T>, le: (T, T) -> bool)
  {
    forall i, j | 0 <= i < j < |s| :: le(s[i], s[j]) && s[i] != s[j]
  }

  predicate IsLeast<T(==)>(x: T, s: set<T>, le: (T, T) -> bool)
  {
    x in s && forall y | y in s :: le(x, y)
  }

  lemma {:induction false} LeastExists<T(!new)>(s: set<T>, le: (T, T) -> bool)
    requires TotalOrder(le)
    requires s != {}
    ensures exists x :: IsLeast(x, s, le)
    decreases |s|
  {
    var x :| x in s;
    if s == {x} {
      assert IsLeast(x, s, le);
    } else {
      LeastExists(s - {x}, le);
      var y :| IsLeast(y, s - {x}, le);
      assert s == (s - {x}) + {x};
      if le(x, y) {
        assert IsLeast(x, s, le);
      } else {
        assert IsLeast(y, s, le);
      }
    }
  }

  function Sorted<T(==, !new)>(s: set<T>, le: (T, T) -> bool): (r: seq<T>)
    requires TotalOrder(le)
    ensures |r| == |s|
    ensures forall x :: x in r <==> x in s
    ensures Ascending(r, le)
    decreases |s|
  {
    if s == {} then []
    else
      LeastExists(s, le);
      var x :| IsLeast(x, s, le);
      [x] + Sorted(s - {x}, le)
  }

  lemma {:induction false} StringOrder()
    ensures TotalOrder(StringLe)
  {
    forall x: string, y: string
      ensures StringLe(x, y) || StringLe(y, x)
    {
      StringLeTotal(x, y);
    }
    forall x: string, y: string | StringLe(x, y) && StringLe(y, x)
      ensures x == y
    {
      StringLeAntisymmetric(x, y);
    }
    forall x: string, y: string, z: string | StringLe(x, y) && StringLe(y, z)
      ensures StringLe(x, z)
    {
      StringLeTransitive(x, y, z);
    }
  }
}
