/**
 Which texts are artifacts, and of which entries (render_artifact and parse_artifact in core/blocklists.py):
 said line by line.
 */
module ArtifactTexts {
  import opened Wrappers
  import opened Strings
  import opened Domains
  import opened Blocklists
  import opened Artifacts

  // The line of an entry: with "||" before and "^" behind the name when its subdomains are meant.
  predicate IsTextOf(line: string, e: BlockEntry)
  {
    Normalized(e.domain) && line == (if e.includeSubdomains then "||" + e.domain + "^" else e.domain)
  }

  // A line that declares the number of entries.
  predicate Declares(line: string)
  {
    "! entries: " <= line
  }

  function Declared(line: string): Option<int>
    requires Declares(line)
  {
    ParseInt(line[11..])
  }

  // The last declaration counts.
  function LastDeclared(lines: seq<string>, before: Option<int>): Option<int>
  {
    if lines == [] then before
    else LastDeclared(lines[1..], if Declares(lines[0]) then Declared(lines[0]) else before)
  }

  // Every line declares a number, is another remark, or is the line of an entry.
  ghost predicate IsBodyLine(line: string)
  {
    if "!" <= line then Declares(line) ==> Declared(line).Some? else exists e :: IsTextOf(line, e)
  }

  ghost predicate AreBodyLines(lines: seq<string>)
  {
    forall l | l in lines :: IsBodyLine(l)
  }

  ghost predicate SomeLineIs(lines: seq<string>, e: BlockEntry)
  {
    exists l :: l in lines && IsTextOf(l, e)
  }

  // The artifact of some entries: the header, body lines, one of them for each entry and none for another, and
  // the right number declared last.
  ghost predicate IsArtifactOf(lines: seq<string>, entries: set<BlockEntry>)
  {
    && lines != [] && lines[0] == "! home-dns blocklist artifact v1"
    && AreBodyLines(lines[1..])
    && (forall e :: e in entries <==> SomeLineIs(lines[1..], e))
    && LastDeclared(lines[1..], None) == Some(|entries|)
  }

  lemma {:induction false} EntryLineIff(line: string, e: BlockEntry)
    ensures IsTextOf(line, e) <==> ParseEntryLine(line) == Some(e)
    ensures IsTextOf(line, e) ==> !("!" <= line)
  {
    if IsTextOf(line, e) {
      EntryLineParses(e);
      assert line == EntryLine(e);
    }
    if ParseEntryLine(line) == Some(e) && e.includeSubdomains {
      assert line == line[..2] + line[2..|line| - 1] + [line[|line| - 1]];
    }
  }

  lemma {:induction false} DeclarationIsRemark(line: string)
    requires Declares(line)
    ensures "!" <= line
  {
    assert line[0] == "! entries: "[0];
  }

  ghost predicate BodyHolds(lines: seq<string>, seen: set<BlockEntry>, declared: Option<int>, entries: set<BlockEntry>)
  {
    && AreBodyLines(lines)
    && (forall e :: e in entries <==> e in seen || SomeLineIs(lines, e))
    && LastDeclared(lines, declared) == Some(|entries|)
  }

  lemma {:induction false} BodyIff(lines: seq<string>, seen: set<BlockEntry>, declared: Option<int>, entries: set<BlockEntry>)
    ensures ParseBody(lines, seen, declared) == Parsed(entries) <==> BodyHolds(lines, seen, declared, entries)
  {
    if lines == [] {
      EmptyBodyIff(seen, declared, entries);
    } else {
      var line, rest := lines[0], lines[1..];
      assert lines == [line] + rest;
      var e := ParseEntryLine(line);
      if Declares(line) {
        DeclarationIsRemark(line);
        RemarkStep(line, rest, seen, declared, entries);
        if Declared(line).Some? {
          BodyIff(rest, seen, Declared(line), entries);
        }
      } else if "!" <= line {
        RemarkStep(line, rest, seen, declared, entries);
        BodyIff(rest, seen, declared, entries);
      } else if e.Some? {
        EntryStep(line, rest, seen, declared, entries, e.value);
        BodyIff(rest, seen + {e.value}, declared, entries);
      } else {
        NoEntryFirst(line, rest);
      }
    }
  }

  lemma {:induction false} RemarkStep(
    line: string, rest: seq<string>, seen: set<BlockEntry>, declared: Option<int>, entries: set<BlockEntry>)
    requires "!" <= line
    ensures BodyHolds([line] + rest, seen, declared, entries) <==>
            (Declares(line) ==> Declared(line).Some?)
            && BodyHolds(rest, seen, if Declares(line) then Declared(line) else declared, entries)
  {
    assert ([line] + rest)[1..] == rest;
    RemarkFirst(line, rest);
  }

  lemma {:induction false} EntryStep(
    line: string, rest: seq<string>, seen: set<BlockEntry>, declared: Option<int>, entries: set<BlockEntry>, e: BlockEntry)
    requires ParseEntryLine(line) == Some(e) && !Declares(line)
    ensures BodyHolds([line] + rest, seen, declared, entries) <==> BodyHolds(rest, seen + {e}, declared, entries)
  {
    assert ([line] + rest)[1..] == rest;
    EntryFirst(line, rest, e);
  }

  lemma {:induction false} EmptyBodyIff(seen: set<BlockEntry>, declared: Option<int>, entries: set<BlockEntry>)
    ensures ParseBody([], seen, declared) == Parsed(entries) <==> BodyHolds([], seen, declared, entries)
  {
    if BodyHolds([], seen, declared, entries) {
      assert entries == seen;
    }
  }

  lemma {:induction false} BodyLinesJoin(line: string, rest: seq<string>)
    ensures AreBodyLines([line] + rest) <==> IsBodyLine(line) && AreBodyLines(rest)
  {
    var lines := [line] + rest;
    assert line in lines;
    if AreBodyLines(lines) {
      forall l | l in rest
        ensures IsBodyLine(l)
      {
        assert l in lines;
      }
    }
  }

  lemma {:induction false} RemarkFirst(line: string, rest: seq<string>)
    requires "!" <= line
    ensures forall e :: SomeLineIs([line] + rest, e) <==> SomeLineIs(rest, e)
    ensures AreBodyLines([line] + rest) <==> (Declares(line) ==> Declared(line).Some?) && AreBodyLines(rest)
  {
    var lines := [line] + rest;
    assert line in lines && forall l :: l in lines <==> l == line || l in rest;
    assert IsBodyLine(line) <==> (Declares(line) ==> Declared(line).Some?);
    BodyLinesJoin(line, rest);
    forall e
      ensures SomeLineIs(lines, e) <==> SomeLineIs(rest, e)
    {
      EntryLineIff(line, e);
    }
  }

  lemma {:induction false} EntryFirst(line: string, rest: seq<string>, e: BlockEntry)
    requires ParseEntryLine(line) == Some(e)
    ensures forall f :: SomeLineIs([line] + rest, f) <==> f == e || SomeLineIs(rest, f)
    ensures AreBodyLines([line] + rest) <==> AreBodyLines(rest)
  {
    var lines := [line] + rest;
    EntryLineIff(line, e);
    BodyLinesJoin(line, rest);
    assert forall l :: l in lines <==> l == line || l in rest;
    forall f
      ensures SomeLineIs(lines, f) <==> f == e || SomeLineIs(rest, f)
    {
      EntryLineIff(line, f);
    }
  }

  lemma {:induction false} NoEntryFirst(line: string, rest: seq<string>)
    requires ParseEntryLine(line).None? && !("!" <= line)
    ensures !AreBodyLines([line] + rest)
  {
    forall e
      ensures !IsTextOf(line, e)
    {
      EntryLineIff(line, e);
    }
    assert line in [line] + rest;
  }

  // A text parses to a set of entries exactly when its lines are an artifact of it.
  lemma {:induction false} ParsedIff(text: string, entries: set<BlockEntry>)
    ensures ParsedArtifact(text) == Parsed(entries) <==> IsArtifactOf(SplitLines(text), entries)
  {
    var lines := SplitLines(text);
    if lines != [] {
      BodyIff(lines[1..], {}, None, entries);
    }
  }

  // Entries in ascending order of their names, character by character; of two with one name the exact one first.
  ghost predicate InOrder(entries: seq<BlockEntry>)
  {
    forall i, j | 0 <= i < j < |entries| :: ComesBefore(entries[i], entries[j])
  }

  ghost predicate ComesBefore(a: BlockEntry, b: BlockEntry)
  {
    if a.domain == b.domain then !a.includeSubdomains && b.includeSubdomains
    else
      || a.domain <= b.domain
      || exists k :: 0 <= k < |a.domain| && k < |b.domain| && a.domain[..k] == b.domain[..k] && a.domain[k] < b.domain[k]
  }

  lemma {:induction false} SortedInOrder(entries: set<BlockEntry>)
    ensures InOrder(SortedEntries(entries))
  {
    var s := SortedEntries(entries);
    forall i, j | 0 <= i < j < |s|
      ensures ComesBefore(s[i], s[j])
    {
      assert EntryLe(s[i], s[j]) && s[i] != s[j];
      StringLeIff(s[i].domain, s[j].domain);
    }
  }

  lemma {:induction false} EntryLinesAre(entries: seq<BlockEntry>)
    requires forall e | e in entries :: Normalized(e.domain)
    ensures |EntryLines(entries)| == |entries|
    ensures forall i | 0 <= i < |entries| :: IsTextOf(EntryLines(entries)[i], entries[i])
  {
    if entries != [] {
      EntryLinesAre(entries[1..]);
    }
  }

  // The rendered lines: the header, the source, the number of entries, and the line of each entry in order.
  lemma {:induction false} RenderedLines(sourceId: string, entries: set<BlockEntry>) returns (ordered: seq<BlockEntry>)
    requires AllNormalized(entries)
    ensures InOrder(ordered) && |ordered| == |entries| && forall e :: e in ordered <==> e in entries
    ensures var lines := ArtifactLines(sourceId, entries);
            && |lines| == |entries| + 3
            && lines[0] == "! home-dns blocklist artifact v1" && lines[1] == "! source: " + sourceId
            && lines[2] == "! entries: " + Digits(|entries|)
            && forall i | 0 <= i < |ordered| :: IsTextOf(lines[i + 3], ordered[i])
    ensures RenderArtifact(sourceId, entries) == Join(ArtifactLines(sourceId, entries), '\n') + "\n"
  {
    ordered := SortedEntries(entries);
    SortedInOrder(entries);
    EntryLinesAre(ordered);
    HeaderLines(sourceId, entries);
    BodyFollows(sourceId, entries, ordered);
  }

  lemma {:induction false} HeaderLines(sourceId: string, entries: set<BlockEntry>)
    ensures var lines := ArtifactLines(sourceId, entries);
            && |lines| >= 3
            && lines[0] == "! home-dns blocklist artifact v1" && lines[1] == "! source: " + sourceId
            && lines[2] == "! entries: " + Digits(|entries|)
  {
  }

  lemma {:induction false} BodyFollows(sourceId: string, entries: set<BlockEntry>, ordered: seq<BlockEntry>)
    requires ordered == SortedEntries(entries) && |EntryLines(ordered)| == |ordered|
    ensures |ArtifactLines(sourceId, entries)| == |ordered| + 3
    ensures forall i | 0 <= i < |ordered| :: ArtifactLines(sourceId, entries)[i + 3] == EntryLines(ordered)[i]
  {
  }
}
