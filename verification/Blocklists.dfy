/**
 Blocklist processing (core/blocklists.py): parsing with normalization and deduplication, the
 protected-domain tripwire, artifact rendering and parsing, and the sanity verdict.
 */
module Blocklists {
  import opened Wrappers
  import opened Strings
  import opened Domains
  import opened SortedSets
  import opened Filtering

  datatype BlockEntry = BlockEntry(domain: string, includeSubdomains: bool)

  ghost predicate AllNormalized(entries: set<BlockEntry>)
  {
    forall e | e in entries :: Normalized(e.domain)
  }

  // Some entry of the set blocks the name.
  ghost predicate Blocks(entries: set<BlockEntry>, name: string)
  {
    exists e :: e in entries && Covers(e.domain, e.includeSubdomains, name)
  }

  // ------------------------------------------------------------------------- parsing

  datatype ListFormat = Adblock | Hosts | Domains

  const HOSTS_SINKS := {"0.0.0.0", "127.0.0.1", "::", "::1"}
  const HOSTS_IGNORED_NAMES :=
    {"localhost", "localhost.localdomain", "local", "broadcasthost", "ip6-localhost", "ip6-loopback", "0.0.0.0"}
  const MAX_ISSUE_SAMPLES := 20

  datatype LineKind =
    | Blank
    | Comment
    | Unsupported
    | InvalidDomain
    | Rule(entries: seq<BlockEntry>)

  datatype InvalidLine = InvalidLine(lineNumber: nat, kind: LineKind, text: string)

  datatype ParseResult = ParseResult(
    entries: set<BlockEntry>,
    totalLines: nat,
    commentLines: nat,
    blankLines: nat,
    ruleLines: nat,
    invalidCount: nat,
    duplicateCount: nat,
    invalidSamples: seq<InvalidLine>)
  {
    function InvalidRatio(): real
    {
      if ruleLines == 0 then 0.0 else invalidCount as real / ruleLines as real
    }
  }

  // The text between "||" and a final "^", when the line has that shape and nothing in between is
  // one of ^ | $ / *.
  function AdblockRule(line: string): Option<string>
  {
    if |line| >= 4 && line[..2] == "||" && line[|line| - 1] == '^'
       && forall i | 2 <= i < |line| - 1 :: line[i] !in {'^', '|', '$', '/', '*'}
    then Some(line[2..|line| - 1])
    else None
  }

  // Whitespace-separated words, as str.split().
  function Words(s: string, word: string): seq<string>
    decreases |s|
  {
    if s == "" then (if word == "" then [] else [word])
    else if IsSpace(s[0]) then (if word == "" then [] else [word]) + Words(s[1..], "")
    else Words(s[1..], word + [s[0]])
  }

  function HostNames(names: seq<string>): seq<(string, bool)>
  {
    if names == [] then []
    else (if Lower(names[0]) in HOSTS_IGNORED_NAMES then [] else [(names[0], false)]) + HostNames(names[1..])
  }

  // None for unsupported syntax.
  function Candidates(line: string, format: ListFormat): Option<seq<(string, bool)>>
  {
    if format.Adblock? then
      match AdblockRule(line)
      case Some(raw) => Some([(raw, true)])
      case None => None
    else
      var words := Words(Split(line, '#')[0], "");
      if format.Hosts? then
        if |words| < 2 || words[0] !in HOSTS_SINKS then None else Some(HostNames(words[1..]))
      else
        if |words| == 1 then Some([(words[0], false)]) else None
  }

  function NormalizeAll(candidates: seq<(string, bool)>): Option<seq<BlockEntry>>
  {
    if candidates == [] then Some([])
    else
      match NormalizeDomain(candidates[0].0)
      case None => None
      case Some(domain) =>
        match NormalizeAll(candidates[1..])
        case None => None
        case Some(rest) => Some([BlockEntry(domain, candidates[0].1)] + rest)
  }

  function Classify(raw: string, format: ListFormat): LineKind
  {
    var line := Strip(raw);
    if line == "" then Blank
    else if line[0] in {'!', '#', '['} then Comment
    else
      match Candidates(line, format)
      case None => Unsupported
      case Some(candidates) =>
        match NormalizeAll(candidates)
        case None => InvalidDomain
        case Some(entries) => Rule(entries)
  }

  predicate IsInvalid(kind: LineKind)
  {
    kind.Unsupported? || kind.InvalidDomain?
  }

  datatype Line = Line(raw: string, kind: LineKind)

  function Classifier(format: ListFormat): string -> LineKind
  {
    raw => Classify(raw, format)
  }

  function ClassifyAll(lines: seq<string>, classify: string -> LineKind): seq<Line>
  {
    seq(|lines|, i requires 0 <= i < |lines| => Line(lines[i], classify(lines[i])))
  }

  function CountBlank(lines: seq<Line>): nat
  {
    if lines == [] then 0
    else CountBlank(lines[..|lines| - 1]) + (if lines[|lines| - 1].kind.Blank? then 1 else 0)
  }

  function CountComments(lines: seq<Line>): nat
  {
    if lines == [] then 0
    else CountComments(lines[..|lines| - 1]) + (if lines[|lines| - 1].kind.Comment? then 1 else 0)
  }

  function CountRules(lines: seq<Line>): nat
  {
    if lines == [] then 0
    else CountRules(lines[..|lines| - 1]) + (if lines[|lines| - 1].kind.Rule? then 1 else 0)
  }

  // Every entry written on some line, in order and with repetitions.
  function EntriesWritten(lines: seq<Line>): seq<BlockEntry>
  {
    if lines == [] then []
    else EntriesWritten(lines[..|lines| - 1]) + EntriesOn(lines[|lines| - 1].kind)
  }

  function EntriesOn(kind: LineKind): seq<BlockEntry>
  {
    if kind.Rule? then kind.entries else []
  }

  function InvalidLines(lines: seq<Line>): seq<InvalidLine>
  {
    if lines == [] then []
    else InvalidLines(lines[..|lines| - 1]) + InvalidOn(|lines|, lines[|lines| - 1])
  }

  function InvalidOn(number: nat, line: Line): seq<InvalidLine>
  {
    if IsInvalid(line.kind) then [InvalidLine(number, line.kind, Truncate(line.raw, 200))] else []
  }

  function Truncate<T>(s: seq<T>, n: nat): seq<T>
  {
    if |s| <= n then s else s[..n]
  }

  // The entry set is what is written on the valid rule lines; every line and every written entry is
  // accounted for once.
  ghost predicate ParsedFrom(r: ParseResult, lines: seq<Line>)
  {
    && EntriesMatch(r, EntriesWritten(lines))
    && CountsMatch(r, |lines|, CountBlank(lines), CountComments(lines), CountRules(lines))
    && InvalidMatch(r, InvalidLines(lines))
  }

  ghost predicate EntriesMatch(r: ParseResult, written: seq<BlockEntry>)
  {
    && (forall e :: e in r.entries <==> e in written)
    && |r.entries| + r.duplicateCount == |written|
  }

  ghost predicate CountsMatch(r: ParseResult, total: nat, blank: nat, comments: nat, rules: nat)
  {
    && r.totalLines == total
    && total == r.blankLines + r.commentLines + r.ruleLines
    && r.blankLines == blank
    && r.commentLines == comments
    && r.ruleLines == r.invalidCount + rules
  }

  ghost predicate InvalidMatch(r: ParseResult, invalid: seq<InvalidLine>)
  {
    r.invalidCount == |invalid| && r.invalidSamples == (if |invalid| <= 20 then invalid else invalid[..20])
  }

  function AbsorbEntries(r: ParseResult, entries: seq<BlockEntry>): (q: ParseResult)
    ensures q.totalLines == r.totalLines
  {
    if entries == [] then r
    else
      var before := AbsorbEntries(r, entries[..|entries| - 1]);
      var e := entries[|entries| - 1];
      if e in before.entries then before.(duplicateCount := before.duplicateCount + 1)
      else before.(entries := before.entries + {e})
  }

  function AbsorbLine(before: ParseResult, line: Line): (q: ParseResult)
    ensures q.totalLines == before.totalLines + 1
  {
    var r := before.(totalLines := before.totalLines + 1);
    match line.kind
    case Blank => r.(blankLines := r.blankLines + 1)
    case Comment => r.(commentLines := r.commentLines + 1)
    case Rule(entries) => AbsorbEntries(r.(ruleLines := r.ruleLines + 1), entries)
    case _ =>
      r.(ruleLines := r.ruleLines + 1, invalidCount := r.invalidCount + 1,
         invalidSamples := if |r.invalidSamples| < MAX_ISSUE_SAMPLES
                           then r.invalidSamples + [InvalidLine(r.totalLines, line.kind, Truncate(line.raw, 200))]
                           else r.invalidSamples)
  }

  function AbsorbLines(lines: seq<Line>): (q: ParseResult)
    ensures q.totalLines == |lines|
  {
    if lines == [] then ParseResult({}, 0, 0, 0, 0, 0, 0, [])
    else AbsorbLine(AbsorbLines(lines[..|lines| - 1]), lines[|lines| - 1])
  }

  method ParseList(text: string, format: ListFormat) returns (r: ParseResult)
    ensures r == AbsorbLines(ClassifyAll(SplitLines(text), Classifier(format)))
  {
    r := ParseLines(SplitLines(text), Classifier(format));
  }

  method ParseLines(lines: seq<string>, classify: string -> LineKind) returns (r: ParseResult)
    ensures r == AbsorbLines(ClassifyAll(lines, classify))
  {
    ghost var classified := ClassifyAll(lines, classify);
    r := ParseResult({}, 0, 0, 0, 0, 0, 0, []);
    for i := 0 to |lines|
      invariant r == AbsorbLines(classified[..i])
    {
      assert classified[..i + 1][..i] == classified[..i];
      var raw := lines[i];
      var kind := classify(raw);
      r := r.(totalLines := i + 1);
      match kind {
        case Blank => r := r.(blankLines := r.blankLines + 1);
        case Comment => r := r.(commentLines := r.commentLines + 1);
        case Rule(entries) =>
          r := r.(ruleLines := r.ruleLines + 1);
          r := AddEntries(r, entries);
        case _ =>
          r := r.(ruleLines := r.ruleLines + 1, invalidCount := r.invalidCount + 1);
          if |r.invalidSamples| < MAX_ISSUE_SAMPLES {
            r := r.(invalidSamples := r.invalidSamples + [InvalidLine(i + 1, kind, Truncate(raw, 200))]);
          }
      }
    }
    assert classified[..|lines|] == classified;
  }

  method AddEntries(before: ParseResult, normalized: seq<BlockEntry>) returns (r: ParseResult)
    ensures r == AbsorbEntries(before, normalized)
  {
    r := before;
    for j := 0 to |normalized|
      invariant r == AbsorbEntries(before, normalized[..j])
    {
      assert normalized[..j + 1][..j] == normalized[..j];
      if normalized[j] in r.entries {
        r := r.(duplicateCount := r.duplicateCount + 1);
      } else {
        r := r.(entries := r.entries + {normalized[j]});
      }
    }
    assert normalized[..|normalized|] == normalized;
  }

  lemma {:induction false} AbsorbEntriesAdds(r: ParseResult, entries: seq<BlockEntry>)
    ensures var q := AbsorbEntries(r, entries);
            && (forall e :: e in q.entries <==> e in r.entries || e in entries)
            && |q.entries| + q.duplicateCount == |r.entries| + r.duplicateCount + |entries|
            && q.(entries := r.entries, duplicateCount := r.duplicateCount) == r
  {
    if entries != [] {
      AbsorbEntriesAdds(r, entries[..|entries| - 1]);
      assert entries == entries[..|entries| - 1] + [entries[|entries| - 1]];
    }
  }

  lemma {:induction false} AbsorbLineKeepsEntries(before: ParseResult, written: seq<BlockEntry>, line: Line)
    requires EntriesMatch(before, written)
    ensures EntriesMatch(AbsorbLine(before, line), written + EntriesOn(line.kind))
  {
    if line.kind.Rule? {
      AbsorbEntriesAdds(before.(totalLines := before.totalLines + 1, ruleLines := before.ruleLines + 1), line.kind.entries);
    }
  }

  lemma {:induction false} AbsorbLineKeepsCounts(before: ParseResult, done: seq<Line>, line: Line)
    requires CountsMatch(before, |done|, CountBlank(done), CountComments(done), CountRules(done))
    ensures var all := done + [line];
            CountsMatch(AbsorbLine(before, line), |all|, CountBlank(all), CountComments(all), CountRules(all))
  {
    assert (done + [line])[..|done|] == done;
    if line.kind.Rule? {
      AbsorbEntriesAdds(before.(totalLines := before.totalLines + 1, ruleLines := before.ruleLines + 1), line.kind.entries);
    }
  }

  lemma {:induction false} AbsorbLineKeepsInvalid(before: ParseResult, invalid: seq<InvalidLine>, line: Line)
    requires InvalidMatch(before, invalid)
    ensures InvalidMatch(AbsorbLine(before, line), invalid + InvalidOn(before.totalLines + 1, line))
  {
    if line.kind.Rule? {
      AbsorbEntriesAdds(before.(totalLines := before.totalLines + 1, ruleLines := before.ruleLines + 1), line.kind.entries);
    }
  }

  lemma {:induction false} AbsorbLineIsFaithful(before: ParseResult, done: seq<Line>, line: Line)
    requires ParsedFrom(before, done)
    ensures ParsedFrom(AbsorbLine(before, line), done + [line])
  {
    assert (done + [line])[..|done|] == done;
    AbsorbLineKeepsEntries(before, EntriesWritten(done), line);
    AbsorbLineKeepsCounts(before, done, line);
    AbsorbLineKeepsInvalid(before, InvalidLines(done), line);
  }

  // What the parse of a list says about its lines.
  lemma {:induction false} ParseIsFaithful(lines: seq<Line>)
    ensures ParsedFrom(AbsorbLines(lines), lines)
  {
    if lines != [] {
      var n := |lines| - 1;
      ParseIsFaithful(lines[..n]);
      AbsorbLineIsFaithful(AbsorbLines(lines[..n]), lines[..n], lines[n]);
      assert lines == lines[..n] + [lines[n]];
    }
  }

  lemma {:induction false} NormalizeAllIsNormalized(candidates: seq<(string, bool)>)
    ensures NormalizeAll(candidates).Some? ==>
              forall e | e in NormalizeAll(candidates).value :: Normalized(e.domain)
  {
    if candidates != [] {
      NormalizeIsIdempotent(candidates[0].0);
      NormalizeAllIsNormalized(candidates[1..]);
    }
  }

  // Whatever text is parsed, every entry is in normal form.
  lemma {:induction false} WrittenEntriesAreNormalized(lines: seq<string>, format: ListFormat)
    ensures forall e | e in EntriesWritten(ClassifyAll(lines, Classifier(format))) :: Normalized(e.domain)
  {
    if lines != [] {
      var n := |lines| - 1;
      WrittenEntriesAreNormalized(lines[..n], format);
      assert ClassifyAll(lines, Classifier(format))[..n] == ClassifyAll(lines[..n], Classifier(format));
      EntriesOnLineAreNormalized(lines[n], format);
    }
  }

  lemma {:induction false} EntriesOnLineAreNormalized(raw: string, format: ListFormat)
    ensures forall e | e in EntriesOn(Classify(raw, format)) :: Normalized(e.domain)
  {
    var candidates := Candidates(Strip(raw), format);
    if candidates.Some? {
      NormalizeAllIsNormalized(candidates.value);
    }
  }

  // ------------------------------------------------------------------------ tripwire

  datatype Relation = Exact | EntryCoversProtected | EntryInsideProtected

  datatype TripwireHit = TripwireHit(entry: BlockEntry, protectedDomain: string, relation: Relation)

  // The names above `domain` that still have two labels, nearest first.
  function Ancestors(domain: string): seq<string>
  {
    var n := |Labels(domain)|;
    if n < 2 then [] else seq(n - 2, i requires 0 <= i < n - 2 => Parent(domain, i + 1))
  }

  lemma {:induction false} AncestorIff(domain: string, a: string)
    ensures a in Ancestors(domain) <==> (Below(domain, a) && |Labels(a)| >= 2)
  {
    var n := |Labels(domain)|;
    if a in Ancestors(domain) {
      var i :| 0 <= i < n - 2 && Ancestors(domain)[i] == a;
      ParentIff(domain, a, i + 1);
    }
    if Below(domain, a) && |Labels(a)| >= 2 {
      var i := BelowHasIndex(domain, a);
      assert Ancestors(domain)[i - 1] == a;
    }
  }

  predicate IsProtectedName(name: string, protected: seq<ProtectedDomain>)
  {
    exists p :: p in protected && p.domain == name
  }

  predicate IsProtectedTree(name: string, protected: seq<ProtectedDomain>)
  {
    exists p :: p in protected && p.includeSubdomains && p.domain == name
  }

  // Why an entry is reported: the relation holds, relations are tried in a fixed order, and the
  // protected name is the nearest one above the entry or the first one below it.
  ghost predicate Describes(h: TripwireHit, protected: seq<ProtectedDomain>)
  {
    var d := h.entry.domain;
    match h.relation
    case Exact =>
      h.protectedDomain == d && IsProtectedName(d, protected)
    case EntryInsideProtected =>
      && !IsProtectedName(d, protected)
      && Below(d, h.protectedDomain) && IsProtectedTree(h.protectedDomain, protected)
      && (forall p | IsProtectedTree(p, protected) && Below(d, p) :: |Labels(p)| <= |Labels(h.protectedDomain)|)
    case EntryCoversProtected =>
      && !IsProtectedName(d, protected)
      && (forall p | IsProtectedTree(p, protected) :: !Below(d, p))
      && h.entry.includeSubdomains
      && Below(h.protectedDomain, d) && IsProtectedName(h.protectedDomain, protected)
      && (forall p | IsProtectedName(p, protected) && Below(p, d) :: StringLe(h.protectedDomain, p))
  }

  // The quadratic meaning of the tripwire.
  predicate TouchesAny(e: BlockEntry, protected: seq<ProtectedDomain>)
  {
    exists p :: p in protected && Touches(e.domain, e.includeSubdomains, p)
  }

  ghost predicate HasNoHits(entries: set<BlockEntry>, protected: seq<ProtectedDomain>)
  {
    forall e | e in entries :: !TouchesAny(e, protected)
  }

  // Hits are the touching entries, one hit each, in the order of the scan.
  ghost predicate ReportOf(hits: seq<TripwireHit>, entries: seq<BlockEntry>, protected: seq<ProtectedDomain>)
  {
    && (forall h | h in hits :: Describes(h, protected))
    && EntriesOf(hits) == TouchingEntries(entries, protected)
  }

  function EntriesOf(hits: seq<TripwireHit>): seq<BlockEntry>
  {
    seq(|hits|, i requires 0 <= i < |hits| => hits[i].entry)
  }

  function TouchingEntries(entries: seq<BlockEntry>, protected: seq<ProtectedDomain>): seq<BlockEntry>
  {
    if entries == [] then []
    else
      var e := entries[|entries| - 1];
      TouchingEntries(entries[..|entries| - 1], protected) + (if TouchesAny(e, protected) then [e] else [])
  }

  lemma {:induction false} TouchingEntriesMember(entries: seq<BlockEntry>, protected: seq<ProtectedDomain>, e: BlockEntry)
    ensures e in TouchingEntries(entries, protected) <==> e in entries && TouchesAny(e, protected)
  {
    if entries != [] {
      TouchingEntriesMember(entries[..|entries| - 1], protected, e);
      assert entries == entries[..|entries| - 1] + [entries[|entries| - 1]];
    }
  }

  // The index behind the scan: parent -> first protected name below it.
  ghost predicate IsBelowIndex(below: map<string, string>, names: set<string>)
  {
    && (forall parent :: parent in below <==> exists n :: n in names && parent in Ancestors(n))
    && (forall parent | parent in below ::
          && below[parent] in names && parent in Ancestors(below[parent])
          && forall n | n in names && parent in Ancestors(n) :: StringLe(below[parent], n))
  }

  method BuildBelowIndex(names: set<string>) returns (below: map<string, string>)
    ensures IsBelowIndex(below, names)
  {
    StringOrder();
    below := map[];
    var ordered := Sorted(names, StringLe);
    ghost var done: set<string> := {};
    for i := 0 to |ordered|
      invariant forall n :: n in done <==> n in ordered[..i]
      invariant IsBelowIndex(below, done)
    {
      var name := ordered[i];
      ghost var before := below;
      below := SetDefaults(below, Ancestors(name), name);
      IndexOneMore(before, below, done, name);
      done := done + {name};
    }
    assert done == names;
  }

  method SetDefaults(index: map<string, string>, parents: seq<string>, name: string)
    returns (below: map<string, string>)
    ensures forall parent :: parent in below <==> parent in index || parent in parents
    ensures forall parent | parent in below :: below[parent] == if parent in index then index[parent] else name
  {
    below := index;
    for j := 0 to |parents|
      invariant forall parent :: parent in below <==> parent in index || parent in parents[..j]
      invariant forall parent | parent in below :: below[parent] == if parent in index then index[parent] else name
    {
      if parents[j] !in below {
        below := below[parents[j] := name];
      }
    }
  }

  lemma {:induction false} IndexOneMore(
    before: map<string, string>, after: map<string, string>, names: set<string>, name: string)
    requires IsBelowIndex(before, names)
    requires forall n | n in names :: StringLe(n, name)
    requires forall parent :: parent in after <==> parent in before || parent in Ancestors(name)
    requires forall parent | parent in after :: after[parent] == if parent in before then before[parent] else name
    ensures IsBelowIndex(after, names + {name})
  {
    forall parent
      ensures parent in after <==> exists n :: n in names + {name} && parent in Ancestors(n)
    {
      IndexKeyOneMore(parent, names, name);
    }
    StringLeTotal(name, name);
    forall parent | parent in after
      ensures after[parent] in names + {name} && parent in Ancestors(after[parent])
      ensures forall n | n in names + {name} && parent in Ancestors(n) :: StringLe(after[parent], n)
    {
      if parent !in before {
        assert forall n | n in names :: parent !in Ancestors(n);
      }
    }
  }

  lemma {:induction false} IndexKeyOneMore(parent: string, names: set<string>, name: string)
    ensures (exists n :: n in names + {name} && parent in Ancestors(n)) <==>
            (parent in Ancestors(name) || exists n :: n in names && parent in Ancestors(n))
  {
    assert name in names + {name};
    if n :| n in names && parent in Ancestors(n) {
      assert n in names + {name};
    }
  }

  method NearestIn(ancestors: seq<string>, trees: set<string>) returns (found: Option<string>)
    ensures found.None? ==> forall a | a in ancestors :: a !in trees
    ensures found.Some? ==> exists i :: 0 <= i < |ancestors| && ancestors[i] == found.value && found.value in trees
                                        && forall j | 0 <= j < i :: ancestors[j] !in trees
  {
    for i := 0 to |ancestors|
      invariant forall j | 0 <= j < i :: ancestors[j] !in trees
    {
      if ancestors[i] in trees {
        return Some(ancestors[i]);
      }
    }
    return None;
  }

  lemma {:induction false} NearestIsLongest(domain: string, i: nat, trees: set<string>)
    requires i < |Ancestors(domain)|
    requires forall j | 0 <= j < i :: Ancestors(domain)[j] !in trees
    ensures Below(domain, Ancestors(domain)[i])
    ensures forall p | p in trees && Below(domain, p) :: |Labels(p)| <= |Labels(Ancestors(domain)[i])|
  {
    var n := |Labels(domain)|;
    ParentIff(domain, Ancestors(domain)[i], i + 1);
    forall p | p in trees && Below(domain, p)
      ensures |Labels(p)| <= n - (i + 1)
    {
      var k := BelowHasIndex(domain, p);
      assert k <= n - 2 ==> Ancestors(domain)[k - 1] == p;
    }
  }

  // The three look-ups for one entry.
  method CheckEntry(
    e: BlockEntry, exact: set<string>, trees: set<string>, below: map<string, string>,
    ghost protected: seq<ProtectedDomain>)
    returns (hit: Option<TripwireHit>)
    requires Normalized(e.domain)
    requires forall p | p in protected :: Normalized(p.domain)
    requires forall n :: n in exact <==> IsProtectedName(n, protected)
    requires forall n :: n in trees <==> IsProtectedTree(n, protected)
    requires IsBelowIndex(below, exact)
    ensures hit.Some? <==> TouchesAny(e, protected)
    ensures hit.Some? ==> hit.value.entry == e && Describes(hit.value, protected)
  {
    TouchesByLabels(e, protected);
    if e.domain in exact {
      return Some(TripwireHit(e, e.domain, Exact));
    }
    var ancestors := Ancestors(e.domain);
    var inside := NearestIn(ancestors, trees);
    if inside.Some? {
      ghost var k :| 0 <= k < |ancestors| && ancestors[k] == inside.value && inside.value in trees
                     && forall j | 0 <= j < k :: ancestors[j] !in trees;
      NearestIsLongest(e.domain, k, trees);
      return Some(TripwireHit(e, inside.value, EntryInsideProtected));
    }
    NothingAbove(e.domain, trees, protected);
    IndexIsBelow(e.domain, exact, below);
    if e.includeSubdomains && e.domain in below {
      return Some(TripwireHit(e, below[e.domain], EntryCoversProtected));
    }
    return None;
  }

  lemma {:induction false} NothingAbove(domain: string, trees: set<string>, protected: seq<ProtectedDomain>)
    requires forall p | p in protected :: Normalized(p.domain)
    requires forall n :: n in trees <==> IsProtectedTree(n, protected)
    requires forall a | a in Ancestors(domain) :: a !in trees
    ensures forall p | IsProtectedTree(p, protected) :: !Below(domain, p)
  {
    forall p | IsProtectedTree(p, protected)
      ensures !Below(domain, p)
    {
      NormalizedIff(p);
      AncestorIff(domain, p);
    }
  }

  lemma {:induction false} IndexIsBelow(domain: string, exact: set<string>, below: map<string, string>)
    requires Normalized(domain)
    requires IsBelowIndex(below, exact)
    ensures domain in below <==> exists n :: n in exact && Below(n, domain)
    ensures domain in below ==> below[domain] in exact && Below(below[domain], domain)
                                && forall n | n in exact && Below(n, domain) :: StringLe(below[domain], n)
  {
    NormalizedIff(domain);
    forall n
      ensures domain in Ancestors(n) <==> Below(n, domain)
    {
      AncestorIff(n, domain);
    }
  }

  method ProtectedNames(protected: seq<ProtectedDomain>) returns (exact: set<string>, trees: set<string>)
    ensures forall n :: n in exact <==> IsProtectedName(n, protected)
    ensures forall n :: n in trees <==> IsProtectedTree(n, protected)
  {
    exact := set p | p in protected :: p.domain;
    trees := set p | p in protected && p.includeSubdomains :: p.domain;
  }

  lemma {:induction false} OneMoreEntry(
    hits: seq<TripwireHit>, entries: seq<BlockEntry>, protected: seq<ProtectedDomain>, e: BlockEntry,
    hit: Option<TripwireHit>)
    requires ReportOf(hits, entries, protected)
    requires hit.Some? <==> TouchesAny(e, protected)
    requires hit.Some? ==> hit.value.entry == e && Describes(hit.value, protected)
    ensures ReportOf(if hit.Some? then hits + [hit.value] else hits, entries + [e], protected)
  {
    assert (entries + [e])[..|entries|] == entries;
    if hit.Some? {
      assert EntriesOf(hits + [hit.value]) == EntriesOf(hits) + [e];
    }
  }

  // The fast tripwire: O(labels) look-ups per entry, the same answer as the quadratic scan.
  method FindTripwireHits(entries: seq<BlockEntry>, protected: seq<ProtectedDomain>)
    returns (hits: seq<TripwireHit>)
    requires forall e | e in entries :: Normalized(e.domain)
    requires forall p | p in protected :: Normalized(p.domain)
    ensures ReportOf(hits, entries, protected)
  {
    var exact, trees := ProtectedNames(protected);
    var below := BuildBelowIndex(exact);
    hits := [];
    for i := 0 to |entries|
      invariant ReportOf(hits, entries[..i], protected)
    {
      assert entries[i] in entries;
      var hit := CheckEntry(entries[i], exact, trees, below, protected);
      OneMoreEntry(hits, entries[..i], protected, entries[i], hit);
      assert entries[..i + 1] == entries[..i] + [entries[i]];
      hits := if hit.Some? then hits + [hit.value] else hits;
    }
    assert entries[..|entries|] == entries;
  }

  // Touching, said with the three relations of a hit.
  lemma {:induction false} TouchesByLabels(e: BlockEntry, protected: seq<ProtectedDomain>)
    ensures TouchesAny(e, protected) <==>
            (|| IsProtectedName(e.domain, protected)
             || (exists p :: IsProtectedTree(p, protected) && Below(e.domain, p))
             || (e.includeSubdomains && exists p :: IsProtectedName(p, protected) && Below(p, e.domain)))
  {
    if TouchesAny(e, protected) {
      var p :| p in protected && Touches(e.domain, e.includeSubdomains, p);
      assert IsProtectedName(p.domain, protected);
      assert p.includeSubdomains ==> IsProtectedTree(p.domain, protected);
    }
    if IsProtectedName(e.domain, protected) {
      var p :| p in protected && p.domain == e.domain;
      assert Touches(e.domain, e.includeSubdomains, p);
    }
    if n :| IsProtectedTree(n, protected) && Below(e.domain, n) {
      var p :| p in protected && p.includeSubdomains && p.domain == n;
      assert Touches(e.domain, e.includeSubdomains, p);
    }
    if n :| IsProtectedName(n, protected) && e.includeSubdomains && Below(n, e.domain) {
      var p :| p in protected && p.domain == n;
      assert Touches(e.domain, e.includeSubdomains, p);
    }
  }

  // A list without hits blocks no protected name: not the protected domains themselves, and nothing
  // below the ones protected with their subdomains.
  lemma {:induction false} NoHitsMeansNothingProtectedIsBlocked(
    entries: set<BlockEntry>, protected: seq<ProtectedDomain>, name: string)
    requires HasNoHits(entries, protected)
    requires InProtectedScope(name, protected)
    ensures !Blocks(entries, name)
  {
    forall e | e in entries
      ensures !Covers(e.domain, e.includeSubdomains, name)
    {
      assert !TouchesAny(e, protected);
      UntouchedScopeIsSafe(e.domain, e.includeSubdomains, protected, name);
    }
  }

  // The converse, so that no entry is reported for nothing: every hit either blocks a protected
  // name, or blocks a name below a domain protected with its subdomains.
  lemma {:induction false} EveryTouchBlocksSomethingProtected(e: BlockEntry, protected: seq<ProtectedDomain>)
    requires TouchesAny(e, protected)
    ensures exists name :: InProtectedScope(name, protected) && Blocks({e}, name)
  {
    var p :| p in protected && Touches(e.domain, e.includeSubdomains, p);
    var name := if Covers(e.domain, e.includeSubdomains, p.domain) then p.domain else e.domain;
    assert Covers(p.domain, p.includeSubdomains, name);
    assert e in {e} && Covers(e.domain, e.includeSubdomains, name);
    assert InProtectedScope(name, protected) && Blocks({e}, name);
  }
}
