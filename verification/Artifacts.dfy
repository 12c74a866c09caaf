/**
 Artifact text and the sanity verdict (second half of core/blocklists.py): deterministic rendering,
 strict parsing, the difference of two versions and the limits on it.
 */
module Artifacts {
  import opened Wrappers
  import opened Strings
  import opened Domains
  import opened SortedSets
  import opened Blocklists

  const ARTIFACT_MAGIC := "! home-dns blocklist artifact v1"
  const SOURCE_PREFIX := "! source: "
  const COUNT_PREFIX := "! entries: "

  // ------------------------------------------------------------------------ rendering

  // (domain, include_subdomains), compared as a pair.
  predicate EntryLe(a: BlockEntry, b: BlockEntry)
  {
    if a.domain == b.domain then a.includeSubdomains ==> b.includeSubdomains
    else StringLe(a.domain, b.domain)
  }

  lemma {:induction false} EntryOrder()
    ensures TotalOrder(EntryLe)
  {
    StringOrder();
    forall x: BlockEntry, y: BlockEntry, z: BlockEntry | EntryLe(x, y) && EntryLe(y, z)
      ensures EntryLe(x, z)
    {
      assert StringLe(x.domain, x.domain) && StringLe(y.domain, y.domain);
      assert StringLe(x.domain, y.domain) && StringLe(y.domain, z.domain);
    }
  }

  function SortedEntries(entries: set<BlockEntry>): (r: seq<BlockEntry>)
    ensures |r| == |entries|
    ensures forall e :: e in r <==> e in entries
    ensures Ascending(r, EntryLe)
  {
    EntryOrder();
    Sorted(entries, EntryLe)
  }

  function EntryLine(e: BlockEntry): string
  {
    if e.includeSubdomains then "||" + e.domain + "^" else e.domain
  }

  function EntryLines(entries: seq<BlockEntry>): seq<string>
  {
    if entries == [] then [] else [EntryLine(entries[0])] + EntryLines(entries[1..])
  }

  function ArtifactLines(sourceId: string, entries: set<BlockEntry>): seq<string>
  {
    [ARTIFACT_MAGIC, SOURCE_PREFIX + sourceId, COUNT_PREFIX + Digits(|entries|)]
    + EntryLines(SortedEntries(entries))
  }

  function RenderArtifact(sourceId: string, entries: set<BlockEntry>): string
  {
    Unlines(ArtifactLines(sourceId, entries))
  }

  // -------------------------------------------------------------------------- parsing

  // ArtifactFormatError, or the ValueError of int() on the count line.
  datatype ArtifactResult = Parsed(entries: set<BlockEntry>) | FormatError | BadCount

  function ParseEntryLine(line: string): Option<BlockEntry>
  {
    var rule := AdblockRule(line);
    var raw := if rule.Some? then rule.value else line;
    if Normalized(raw) then Some(BlockEntry(raw, rule.Some?)) else None
  }

  predicate IsCountLine(line: string)
  {
    COUNT_PREFIX <= line
  }

  predicate IsRemark(line: string)
  {
    line != "" && line[0] == '!'
  }

  function CountValue(line: string): Option<int>
    requires IsCountLine(line)
  {
    ParseInt(line[|COUNT_PREFIX|..])
  }

  function ParseBody(lines: seq<string>, entries: set<BlockEntry>, declared: Option<int>): ArtifactResult
  {
    if lines == [] then
      if declared == Some(|entries|) then Parsed(entries) else FormatError
    else if IsCountLine(lines[0]) then
      match CountValue(lines[0])
      case None => BadCount
      case Some(n) => ParseBody(lines[1..], entries, Some(n))
    else if IsRemark(lines[0]) then ParseBody(lines[1..], entries, declared)
    else
      match ParseEntryLine(lines[0])
      case None => FormatError
      case Some(e) => ParseBody(lines[1..], entries + {e}, declared)
  }

  function ParsedArtifact(text: string): ArtifactResult
  {
    ParsedLines(SplitLines(text))
  }

  function ParsedLines(lines: seq<string>): ArtifactResult
  {
    if lines == [] || lines[0] != ARTIFACT_MAGIC then FormatError
    else ParseBody(lines[1..], {}, None)
  }

  method ParseArtifact(text: string) returns (r: ArtifactResult)
    ensures r == ParsedArtifact(text)
  {
    var lines := SplitLines(text);
    if lines == [] || lines[0] != ARTIFACT_MAGIC {
      return FormatError;
    }
    r := ParseArtifactBody(lines[1..]);
  }

  method ParseArtifactBody(lines: seq<string>) returns (r: ArtifactResult)
    ensures r == ParseBody(lines, {}, None)
  {
    var entries: set<BlockEntry> := {};
    var declared: Option<int> := None;
    for i := 0 to |lines|
      invariant ParseBody(lines, {}, None) == ParseBody(lines[i..], entries, declared)
    {
      var line := lines[i];
      assert lines[i..][0] == line && lines[i..][1..] == lines[i + 1..];
      if IsCountLine(line) {
        var n := CountValue(line);
        if n.None? {
          return BadCount;
        }
        declared := n;
        continue;
      }
      if IsRemark(line) {
        continue;
      }
      var e := ParseEntryLine(line);
      if e.None? {
        return FormatError;
      }
      entries := entries + {e.value};
    }
    if declared != Some(|entries|) {
      return FormatError;
    }
    return Parsed(entries);
  }

  // ---------------------------------------------------------------- printer and parser

  predicate OneLine(s: string)
  {
    forall c | c in s :: !IsLineBreak(c)
  }

  // How the body parser reads one line of the artifact of `entries`.
  ghost predicate IsEntryLineOf(l: string, e: BlockEntry)
  {
    OneLine(l) && !IsCountLine(l) && !IsRemark(l) && ParseEntryLine(l) == Some(e)
  }

  ghost predicate IsCountLineOf(l: string, n: nat)
  {
    OneLine(l) && IsCountLine(l) && CountValue(l) == Some(n)
  }

  ghost predicate IsRemarkLine(l: string)
  {
    OneLine(l) && !IsCountLine(l) && IsRemark(l)
  }

  lemma {:induction false} CountLineStart(l: string)
    requires IsCountLine(l)
    ensures IsRemark(l)
  {
    assert l[0] == COUNT_PREFIX[0];
  }

  lemma {:induction false} WildcardRuleParses(domain: string)
    requires IsDomainName(domain)
    ensures AdblockRule("||" + domain + "^") == Some(domain)
  {
    DomainNameChars(domain);
    var line := "||" + domain + "^";
    assert line[2..|line| - 1] == domain;
    forall i | 2 <= i < |line| - 1
      ensures line[i] !in {'^', '|', '$', '/', '*'}
    {
      assert line[i] == domain[i - 2] && domain[i - 2] in domain;
    }
  }

  lemma {:induction false} PlainNameIsNoRule(domain: string)
    requires IsDomainName(domain)
    ensures AdblockRule(domain) == None
  {
    DomainNameChars(domain);
    assert domain[0] in domain;
    if |domain| >= 2 {
      assert domain[..2][0] == domain[0];
    }
  }

  lemma {:induction false} EntryLineShape(e: BlockEntry)
    requires IsDomainName(e.domain)
    ensures OneLine(EntryLine(e)) && !IsRemark(EntryLine(e))
  {
    DomainNameChars(e.domain);
    assert e.domain[0] in e.domain;
  }

  lemma {:induction false} EntryLineParses(e: BlockEntry)
    requires Normalized(e.domain)
    ensures IsEntryLineOf(EntryLine(e), e)
  {
    NormalizedIff(e.domain);
    WildcardRuleParses(e.domain);
    PlainNameIsNoRule(e.domain);
    EntryLineShape(e);
    if IsCountLine(EntryLine(e)) {
      CountLineStart(EntryLine(e));
    }
  }

  lemma {:induction false} CountLineParses(n: nat)
    ensures IsCountLineOf(COUNT_PREFIX + Digits(n), n)
  {
    ParseDigits(n);
    DigitsRoundTrip(n);
    assert (COUNT_PREFIX + Digits(n))[|COUNT_PREFIX|..] == Digits(n);
  }

  lemma {:induction false} SourceLineIsRemark(sourceId: string)
    requires OneLine(sourceId)
    ensures IsRemarkLine(SOURCE_PREFIX + sourceId)
  {
    assert (SOURCE_PREFIX + sourceId)[2] == 's' && COUNT_PREFIX[2] == 'e';
  }

  lemma {:induction false} MagicLineIsRemark()
    ensures IsRemarkLine(ARTIFACT_MAGIC)
  {
    assert ARTIFACT_MAGIC[2] == 'h' && COUNT_PREFIX[2] == 'e';
    assert forall i | 0 <= i < |ARTIFACT_MAGIC| :: !IsLineBreak(ARTIFACT_MAGIC[i]);
  }

  ghost predicate IsLineOf(l: string, entries: set<BlockEntry>)
  {
    || IsRemarkLine(l)
    || IsCountLineOf(l, |entries|)
    || exists e :: e in entries && IsEntryLineOf(l, e)
  }

  lemma {:induction false} EntryLinesAreLines(es: seq<BlockEntry>, l: string)
    requires forall e | e in es :: Normalized(e.domain)
    requires l in EntryLines(es)
    ensures exists e :: e in es && IsEntryLineOf(l, e)
  {
    if l == EntryLine(es[0]) {
      EntryLineParses(es[0]);
    } else {
      EntryLinesAreLines(es[1..], l);
    }
  }

  lemma {:induction false} ArtifactLineKinds(sourceId: string, entries: set<BlockEntry>)
    requires OneLine(sourceId) && AllNormalized(entries)
    ensures forall l | l in ArtifactLines(sourceId, entries) :: IsLineOf(l, entries)
  {
    MagicLineIsRemark();
    SourceLineIsRemark(sourceId);
    CountLineParses(|entries|);
    forall l | l in EntryLines(SortedEntries(entries))
      ensures IsLineOf(l, entries)
    {
      EntryLinesAreLines(SortedEntries(entries), l);
    }
  }

  // Reading back joined lines of an artifact.
  lemma {:induction false} LinesSplit(lines: seq<string>, entries: set<BlockEntry>)
    requires |lines| >= 1 && forall l | l in lines :: IsLineOf(l, entries)
    ensures SplitLines(Unlines(lines)) == lines
  {
    forall l, c | l in lines && c in l
      ensures !IsLineBreak(c)
    {
      assert OneLine(l);
    }
    SplitUnlines(lines);
  }

  // Parsing the printed entries adds exactly those entries.
  lemma {:induction false} ParsePrintedEntries(
    es: seq<BlockEntry>, entries: set<BlockEntry>, declared: Option<int>, all: set<BlockEntry>)
    requires forall e | e in es :: Normalized(e.domain)
    requires forall e :: e in all <==> e in entries || e in es
    ensures ParseBody(EntryLines(es), entries, declared) == ParseBody([], all, declared)
  {
    if es == [] {
      assert entries == all;
    } else {
      EntryLineParses(es[0]);
      assert es == [es[0]] + es[1..];
      ParsePrintedEntries(es[1..], entries + {es[0]}, declared, all);
      assert EntryLines(es)[1..] == EntryLines(es[1..]);
    }
  }

  lemma {:induction false} ParsePrintedBody(source: string, count: string, entries: set<BlockEntry>)
    requires IsRemarkLine(source) && IsCountLineOf(count, |entries|)
    requires AllNormalized(entries)
    ensures ParseBody([source, count] + EntryLines(SortedEntries(entries)), {}, None) == Parsed(entries)
  {
    var es := SortedEntries(entries);
    ParseHead(source, count, |entries|, EntryLines(es));
    ParsePrintedEntries(es, {}, Some(|entries|), entries);
  }

  lemma {:induction false} ParseHead(source: string, count: string, n: nat, rest: seq<string>)
    requires IsRemarkLine(source) && IsCountLineOf(count, n)
    ensures ParseBody([source, count] + rest, {}, None) == ParseBody(rest, {}, Some(n))
  {
    var lines := [source, count] + rest;
    assert lines[1..] == [count] + rest;
    assert lines[1..][1..] == rest;
  }

  // parse_artifact(render_artifact(id, S)) == S, for every set of normalized entries.
  lemma {:induction false} RenderRoundTrip(sourceId: string, entries: set<BlockEntry>)
    requires OneLine(sourceId) && AllNormalized(entries)
    ensures ParsedArtifact(RenderArtifact(sourceId, entries)) == Parsed(entries)
  {
    ArtifactLineKinds(sourceId, entries);
    LinesSplit(ArtifactLines(sourceId, entries), entries);
    SourceLineIsRemark(sourceId);
    CountLineParses(|entries|);
    ParsePrintedBody(SOURCE_PREFIX + sourceId, COUNT_PREFIX + Digits(|entries|), entries);
    ArtifactLinesTail(sourceId, entries);
  }

  lemma {:induction false} ArtifactLinesTail(sourceId: string, entries: set<BlockEntry>)
    ensures ArtifactLines(sourceId, entries)[1..] ==
            [SOURCE_PREFIX + sourceId, COUNT_PREFIX + Digits(|entries|)] + EntryLines(SortedEntries(entries))
  {
  }

  // Different entry sets have different artifact texts.
  lemma {:induction false} RenderIsInjective(sourceId: string, a: set<BlockEntry>, b: set<BlockEntry>)
    requires OneLine(sourceId) && AllNormalized(a) && AllNormalized(b)
    ensures RenderArtifact(sourceId, a) == RenderArtifact(sourceId, b) <==> a == b
  {
    RenderRoundTrip(sourceId, a);
    RenderRoundTrip(sourceId, b);
  }

  // A body made of lines of one artifact, in any order, with lines missing or repeated, either is
  // refused or has exactly the entries of the artifact.
  lemma {:induction false} MixedLinesParse(
    lines: seq<string>, entries: set<BlockEntry>, got: set<BlockEntry>, declared: Option<int>)
    requires forall l | l in lines :: IsLineOf(l, entries)
    requires got <= entries
    requires declared.Some? ==> declared.value == |entries|
    ensures ParseBody(lines, got, declared).Parsed? ==> ParseBody(lines, got, declared).entries == entries
  {
    if lines == [] {
      if declared == Some(|got|) {
        SameSize(got, entries);
      }
    } else {
      assert lines[0] in lines;
      if IsCountLine(lines[0]) {
        CountLineStart(lines[0]);
        MixedLinesParse(lines[1..], entries, got, Some(|entries|));
      } else if IsRemark(lines[0]) {
        MixedLinesParse(lines[1..], entries, got, declared);
      } else {
        var e :| e in entries && IsEntryLineOf(lines[0], e);
        MixedLinesParse(lines[1..], entries, got + {e}, declared);
      }
    }
  }

  // Truncating, dropping, repeating or reordering lines of an artifact never yields another list.
  lemma {:induction false} DamagedArtifactIsRefused(sourceId: string, entries: set<BlockEntry>, lines: seq<string>)
    requires OneLine(sourceId) && AllNormalized(entries)
    requires |lines| >= 1 && forall l | l in lines :: l in ArtifactLines(sourceId, entries)
    ensures ParsedArtifact(Unlines(lines)).Parsed? ==> ParsedArtifact(Unlines(lines)).entries == entries
  {
    ArtifactLineKinds(sourceId, entries);
    LinesSplit(lines, entries);
    MixedLinesParse(lines[1..], entries, {}, None);
  }

  lemma {:induction false} SameSize<T>(a: set<T>, b: set<T>)
    requires a <= b && |a| == |b|
    ensures a == b
  {
    assert b == a + (b - a);
    assert |b| == |a| + |b - a|;
  }

  // --------------------------------------------------------------------------- sanity

  datatype Delta = Delta(previousEntries: nat, added: nat, removed: nat)
  {
    function AddedRatio(): real
    {
      if previousEntries == 0 then 0.0 else added as real / previousEntries as real
    }

    function RemovedRatio(): real
    {
      if previousEntries == 0 then 0.0 else removed as real / previousEntries as real
    }
  }

  function ComputeDelta(previous: set<BlockEntry>, current: set<BlockEntry>): Delta
  {
    Delta(|previous|, |current - previous|, |previous - current|)
  }

  // Adding and removing account for the change of size, and only equal sets have no change.
  lemma {:induction false} DeltaBalances(previous: set<BlockEntry>, current: set<BlockEntry>)
    ensures var d := ComputeDelta(previous, current);
            && d.previousEntries + d.added == |current| + d.removed
            && (d.added == 0 && d.removed == 0 <==> previous == current)
  {
    var both := previous * current;
    assert previous == both + (previous - current) && current == both + (current - previous);
    assert |previous| == |both| + |previous - current|;
    assert |current| == |both| + |current - previous|;
    if current - previous == {} && previous - current == {} {
      assert previous == both == current;
    }
  }

  datatype SanityLimits = SanityLimits(
    minEntries: Option<int>, maxEntries: Option<int>, maxAddedRatio: Option<real>, maxRemovedRatio: Option<real>)

  datatype Verdict = Pass | Anomaly | Fail

  function EvaluateSanity(count: nat, delta: Option<Delta>, limits: Option<SanityLimits>): Verdict
  {
    if count == 0 then Fail
    else if limits.None? then Pass
    else
      var l := limits.value;
      var tooFew := l.minEntries.Some? && count < l.minEntries.value;
      var tooMany := l.maxEntries.Some? && count > l.maxEntries.value;
      var grown := delta.Some? && delta.value.previousEntries != 0
                   && l.maxAddedRatio.Some? && delta.value.AddedRatio() > l.maxAddedRatio.value;
      var shrunk := delta.Some? && delta.value.previousEntries != 0
                    && l.maxRemovedRatio.Some? && delta.value.RemovedRatio() > l.maxRemovedRatio.value;
      if tooFew || tooMany || grown || shrunk then Anomaly else Pass
  }
}
