/**
 The blocklist update pipeline (pipeline/blocklists.py): thirteen gates between a download and an
 activated artifact.
 */
module Pipeline {
  import opened Wrappers
  import opened Strings
  import opened Blocklists
  import opened Artifacts

  datatype Stage =
    | Download | HttpContent | Size | Format | Parse | Normalize | Deduplicate
    | Tripwire | Syntax | Sanity | TestDeployment | HealthCheck | Activation

  datatype Status = Passed | Warning | Failed | Skipped

  datatype StageResult = StageResult(stage: Stage, status: Status)

  datatype Outcome =
    | Activated | WouldActivate | Unchanged | HeldForReview | KeptPrevious | BlockedByTripwire | UpdateFailed

  datatype Options = Options(
    now: int, dryRun: bool, acceptAnomalies: bool, minBytes: int, maxBytes: int, maxInvalidRatio: real,
    maxClockSkew: int, healthSampleSize: nat)

  datatype Source = Source(id: string, format: ListFormat, maxAgeHours: Option<int>, limits: Option<SanityLimits>)

  // The header fields the gates look at, in seconds and entries.
  datatype Header = Header(lastModified: Option<int>, declaredEntries: Option<int>)

  // text: None where the body is not UTF-8.
  datatype Response =
    | FetchFailed
    | Response(status: int, contentType: string, looksLikeHtml: bool, text: Option<string>, size: int, header: Header)

  // ------------------------------------------------------------------- stages 1 to 7

  function FirstLine(lines: seq<string>): string
  {
    if lines == [] then "" else if Strip(lines[0]) != "" then Strip(lines[0]) else FirstLine(lines[1..])
  }

  predicate FormatOk(source: Source, text: string, header: Header, options: Options)
  {
    var first := FirstLine(SplitLines(text));
    && (source.format.Adblock? ==> "[Adblock" <= first || "!" <= first)
    && (source.maxAgeHours.Some? ==>
          && header.lastModified.Some?
          && -options.maxClockSkew <= options.now - header.lastModified.value <= 3600 * source.maxAgeHours.value)
  }

  function ParsedListOf(source: Source, text: string): ParseResult
  {
    AbsorbLines(ClassifyAll(SplitLines(text), Classifier(source.format)))
  }

  // -------------------------------------------------------------------- gate reports

  function Gate(stage: Stage, open: bool): StageResult
  {
    StageResult(stage, if open then Passed else Failed)
  }

  // A report shows the verdicts in order, up to and including the first failure.
  function UpToFailure(verdicts: seq<StageResult>): seq<StageResult>
  {
    if verdicts == [] then []
    else if verdicts[0].status == Failed then [verdicts[0]]
    else [verdicts[0]] + UpToFailure(verdicts[1..])
  }

  predicate NoneFailed(verdicts: seq<StageResult>)
  {
    forall v | v in verdicts :: v.status != Failed
  }

  lemma {:induction false} UpToFailureShape(verdicts: seq<StageResult>)
    ensures UpToFailure(verdicts) <= verdicts
    ensures NoneFailed(verdicts) <==> NoneFailed(UpToFailure(verdicts))
    ensures NoneFailed(verdicts) ==> UpToFailure(verdicts) == verdicts
    ensures !NoneFailed(verdicts) ==>
              UpToFailure(verdicts) != [] && UpToFailure(verdicts)[|UpToFailure(verdicts)| - 1].status == Failed
    ensures forall i | 0 <= i < |UpToFailure(verdicts)| - 1 :: UpToFailure(verdicts)[i].status != Failed
  {
    if verdicts != [] {
      assert verdicts == [verdicts[0]] + verdicts[1..];
      UpToFailureShape(verdicts[1..]);
    }
  }

  lemma {:induction false} UpToFailureJoin(a: seq<StageResult>, b: seq<StageResult>)
    ensures UpToFailure(a + b) == if NoneFailed(a) then a + UpToFailure(b) else UpToFailure(a)
    ensures NoneFailed(a + b) <==> NoneFailed(a) && NoneFailed(b)
  {
    NoneFailedJoin(a, b);
    if a == [] {
      assert a + b == b;
    } else {
      var first, rest := a[0], a[1..];
      assert a == [first] + rest;
      assert a + b == [first] + (rest + b);
      UpToFailureFirst(first, rest);
      UpToFailureFirst(first, rest + b);
      UpToFailureJoin(rest, b);
      assert [first] + (rest + UpToFailure(b)) == a + UpToFailure(b);
    }
  }

  lemma {:induction false} UpToFailureFirst(first: StageResult, rest: seq<StageResult>)
    ensures UpToFailure([first] + rest) == if first.status == Failed then [first] else [first] + UpToFailure(rest)
    ensures NoneFailed([first] + rest) <==> first.status != Failed && NoneFailed(rest)
  {
    assert ([first] + rest)[1..] == rest;
    NoneFailedJoin([first], rest);
    assert first in [first];
  }

  lemma {:induction false} NoneFailedJoin(a: seq<StageResult>, b: seq<StageResult>)
    ensures NoneFailed(a + b) <==> NoneFailed(a) && NoneFailed(b)
  {
    assert forall v :: v in a + b <==> v in a || v in b;
  }

  lemma {:induction false} StopsAt(verdicts: seq<StageResult>, k: nat)
    requires k < |verdicts| && verdicts[k].status == Failed
    requires forall i | 0 <= i < k :: verdicts[i].status != Failed
    ensures UpToFailure(verdicts) == verdicts[..k + 1]
    ensures !NoneFailed(verdicts)
  {
    assert verdicts[k] in verdicts;
    if k > 0 {
      StopsAt(verdicts[1..], k - 1);
      assert [verdicts[0]] + verdicts[1..][..k] == verdicts[..k + 1];
    }
  }

  // What each download gate says about a response.
  function EarlyVerdicts(r: Response, options: Options): seq<StageResult>
  {
    if r.FetchFailed? then [StageResult(Download, Failed)]
    else
      [StageResult(Download, Passed),
       Gate(HttpContent, r.status == 200 && r.contentType == "text/plain" && !r.looksLikeHtml && r.text.Some?),
       Gate(Size, options.minBytes <= r.size <= options.maxBytes)]
  }

  function ListVerdicts(formatOk: bool, parsed: ParseResult, header: Header, options: Options): seq<StageResult>
  {
    [Gate(Format, formatOk),
     Gate(Parse, parsed.ruleLines != 0),
     StageResult(Normalize, if parsed.InvalidRatio() > options.maxInvalidRatio then Failed
                            else if parsed.invalidCount > 0 then Warning else Passed),
     Gate(Deduplicate, header.declaredEntries.Some? ==> header.declaredEntries.value == parsed.ruleLines)]
  }

  function AttemptVerdicts(source: Source, r: Response, options: Options): seq<StageResult>
  {
    EarlyVerdicts(r, options)
    + (if r.FetchFailed? || r.text.None? then []
       else ListVerdicts(FormatOk(source, r.text.value, r.header, options),
                         ParsedListOf(source, r.text.value), r.header, options))
  }

  predicate Accepts(source: Source, r: Response, options: Options)
  {
    r.Response? && r.text.Some? && NoneFailed(AttemptVerdicts(source, r, options))
  }

  method EarlyStages(r: Response, options: Options) returns (stages: seq<StageResult>, ok: bool)
    ensures stages == UpToFailure(EarlyVerdicts(r, options))
    ensures ok <==> NoneFailed(EarlyVerdicts(r, options))
    ensures ok ==> r.Response? && r.text.Some?
  {
    ghost var verdicts := EarlyVerdicts(r, options);
    if r.FetchFailed? {
      StopsAt(verdicts, 0);
      return [StageResult(Download, Failed)], false;
    }
    stages := [StageResult(Download, Passed)];
    if r.status != 200 || r.contentType != "text/plain" || r.looksLikeHtml || r.text.None? {
      StopsAt(verdicts, 1);
      return stages + [StageResult(HttpContent, Failed)], false;
    }
    stages := stages + [StageResult(HttpContent, Passed)];
    if r.size < options.minBytes || r.size > options.maxBytes {
      StopsAt(verdicts, 2);
      return stages + [StageResult(Size, Failed)], false;
    }
    UpToFailureShape(verdicts);
    return stages + [StageResult(Size, Passed)], true;
  }

  method ListStages(formatOk: bool, parsed: ParseResult, header: Header, options: Options)
    returns (stages: seq<StageResult>, ok: bool)
    ensures stages == UpToFailure(ListVerdicts(formatOk, parsed, header, options))
    ensures ok <==> NoneFailed(ListVerdicts(formatOk, parsed, header, options))
  {
    ghost var verdicts := ListVerdicts(formatOk, parsed, header, options);
    if !formatOk {
      StopsAt(verdicts, 0);
      return [StageResult(Format, Failed)], false;
    }
    stages := [StageResult(Format, Passed)];
    if parsed.ruleLines == 0 {
      StopsAt(verdicts, 1);
      return stages + [StageResult(Parse, Failed)], false;
    }
    stages := stages + [StageResult(Parse, Passed)];
    if parsed.InvalidRatio() > options.maxInvalidRatio {
      StopsAt(verdicts, 2);
      return stages + [StageResult(Normalize, Failed)], false;
    }
    stages := stages + [StageResult(Normalize, if parsed.invalidCount > 0 then Warning else Passed)];
    if header.declaredEntries.Some? && header.declaredEntries.value != parsed.ruleLines {
      StopsAt(verdicts, 3);
      return stages + [StageResult(Deduplicate, Failed)], false;
    }
    UpToFailureShape(verdicts);
    return stages + [StageResult(Deduplicate, Passed)], true;
  }

  // Stages 1 to 7 of one mirror.
  method Attempt(source: Source, r: Response, options: Options)
    returns (stages: seq<StageResult>, accepted: Option<ParseResult>)
    ensures stages == UpToFailure(AttemptVerdicts(source, r, options))
    ensures accepted == if Accepts(source, r, options) then Some(ParsedListOf(source, r.text.value)) else None
  {
    var ok;
    stages, ok := EarlyStages(r, options);
    if !ok {
      JoinEarly(source, r, options);
      return stages, None;
    }
    var formatOk := FormatOk(source, r.text.value, r.header, options);
    var parsed := ParseList(r.text.value, source.format);
    var late;
    late, ok := ListStages(formatOk, parsed, r.header, options);
    JoinEarly(source, r, options);
    stages := stages + late;
    accepted := if ok then Some(parsed) else None;
  }

  lemma {:induction false} JoinEarly(source: Source, r: Response, options: Options)
    ensures !NoneFailed(EarlyVerdicts(r, options)) ==>
              UpToFailure(AttemptVerdicts(source, r, options)) == UpToFailure(EarlyVerdicts(r, options))
              && !NoneFailed(AttemptVerdicts(source, r, options))
    ensures NoneFailed(EarlyVerdicts(r, options)) && r.Response? && r.text.Some? ==>
              var late := ListVerdicts(FormatOk(source, r.text.value, r.header, options),
                                       ParsedListOf(source, r.text.value), r.header, options);
              && UpToFailure(AttemptVerdicts(source, r, options)) ==
                 UpToFailure(EarlyVerdicts(r, options)) + UpToFailure(late)
              && (NoneFailed(AttemptVerdicts(source, r, options)) <==> NoneFailed(late))
  {
    var early := EarlyVerdicts(r, options);
    UpToFailureShape(early);
    UpToFailureJoin(early, AttemptVerdicts(source, r, options)[|early|..]);
    assert AttemptVerdicts(source, r, options) == early + AttemptVerdicts(source, r, options)[|early|..];
  }

  // The first acceptable mirror decides.
  function FirstAccepted(source: Source, responses: seq<Response>, options: Options): Option<ParseResult>
  {
    if responses == [] then None
    else if Accepts(source, responses[0], options) then Some(ParsedListOf(source, responses[0].text.value))
    else FirstAccepted(source, responses[1..], options)
  }

  lemma {:induction false} AcceptedListIsNormalized(source: Source, responses: seq<Response>, options: Options)
    ensures FirstAccepted(source, responses, options).Some? ==>
              AllNormalized(FirstAccepted(source, responses, options).value.entries)
  {
    if responses != [] {
      if Accepts(source, responses[0], options) {
        ParsedListIsNormalized(source, responses[0].text.value);
      } else {
        AcceptedListIsNormalized(source, responses[1..], options);
      }
    }
  }

  lemma {:induction false} ParsedListIsNormalized(source: Source, text: string)
    ensures AllNormalized(ParsedListOf(source, text).entries)
  {
    var lines := ClassifyAll(SplitLines(text), Classifier(source.format));
    ParseIsFaithful(lines);
    WrittenEntriesAreNormalized(SplitLines(text), source.format);
  }

  // What makes a download acceptable: the answer and its size, the first line and the age of the list, some rule
  // in it, not too many invalid ones, and as many as it declares.
  ghost predicate IsAcceptable(source: Source, r: Response, options: Options)
  {
    && IsTextAnswer(r, options) && IsCurrentFormat(source, r, options)
    && HasEnoughRules(ParsedListOf(source, r.text.value), r.header, options)
  }

  predicate IsTextAnswer(r: Response, options: Options)
  {
    && r.Response? && r.status == 200 && r.contentType == "text/plain" && !r.looksLikeHtml && r.text.Some?
    && options.minBytes <= r.size <= options.maxBytes
  }

  predicate IsCurrentFormat(source: Source, r: Response, options: Options)
    requires r.Response? && r.text.Some?
  {
    var first := FirstLine(SplitLines(r.text.value));
    && (source.format.Adblock? ==> "[Adblock" <= first || "!" <= first)
    && (source.maxAgeHours.Some? ==>
          && r.header.lastModified.Some?
          && r.header.lastModified.value <= options.now + options.maxClockSkew
          && options.now <= r.header.lastModified.value + 3600 * source.maxAgeHours.value)
  }

  predicate HasEnoughRules(parsed: ParseResult, header: Header, options: Options)
  {
    && parsed.ruleLines > 0
    && parsed.invalidCount as real <= options.maxInvalidRatio * parsed.ruleLines as real
    && (header.declaredEntries.Some? ==> header.declaredEntries.value == parsed.ruleLines)
  }

  lemma {:induction false} RatioIff(part: nat, whole: nat, limit: real)
    requires whole > 0
    ensures part as real / whole as real > limit <==> part as real > limit * whole as real
  {
    var ratio := part as real / whole as real;
    assert ratio * whole as real == part as real;
  }

  lemma {:induction false} EarlyOkIff(r: Response, options: Options)
    ensures r.Response? ==> (NoneFailed(EarlyVerdicts(r, options)) <==> IsTextAnswer(r, options))
  {
    var early := EarlyVerdicts(r, options);
    if r.Response? {
      assert early[0] in early && early[1] in early && early[2] in early;
    }
  }

  lemma {:induction false} FormatOkIff(source: Source, r: Response, options: Options)
    requires r.Response? && r.text.Some?
    ensures FormatOk(source, r.text.value, r.header, options) <==> IsCurrentFormat(source, r, options)
  {
  }

  lemma {:induction false} LateOkIff(formatOk: bool, parsed: ParseResult, header: Header, options: Options)
    ensures NoneFailed(ListVerdicts(formatOk, parsed, header, options)) <==> formatOk && HasEnoughRules(parsed, header, options)
  {
    var late := ListVerdicts(formatOk, parsed, header, options);
    assert late[0] in late && late[1] in late && late[2] in late && late[3] in late;
    if parsed.ruleLines > 0 {
      RatioIff(parsed.invalidCount, parsed.ruleLines, options.maxInvalidRatio);
    }
  }

  lemma {:induction false} AcceptsIff(source: Source, r: Response, options: Options)
    ensures Accepts(source, r, options) <==> IsAcceptable(source, r, options)
  {
    EarlyOkIff(r, options);
    if r.Response? && r.text.Some? {
      var parsed, formatOk := ParsedListOf(source, r.text.value), FormatOk(source, r.text.value, r.header, options);
      FormatOkIff(source, r, options);
      UpToFailureJoin(EarlyVerdicts(r, options), ListVerdicts(formatOk, parsed, r.header, options));
      LateOkIff(formatOk, parsed, r.header, options);
    }
  }

  // The first line that is not blank, without the white space around it.
  lemma {:induction false} FirstLineIs(lines: seq<string>, k: nat)
    requires k <= |lines| && forall i | 0 <= i < k :: AllSpace(lines[i])
    ensures k == |lines| ==> FirstLine(lines) == ""
    ensures k < |lines| && !AllSpace(lines[k]) ==>
              FirstLine(lines) == Strip(lines[k]) && Strip(lines[k]) != ""
  {
    if lines != [] {
      var a, b := StripLeaves(lines[0]);
      if AllSpace(lines[0]) {
        assert lines[0] + "" + "" == lines[0];
        StripOf(lines[0], "", "");
      }
      if k > 0 {
        FirstLineIs(lines[1..], k - 1);
      }
    }
  }

  // The verdicts on an answer, stage by stage: three on how it came, and four on the text when it is one.
  lemma {:induction false} EarlyVerdictsAre(r: Response, options: Options)
    ensures var v := EarlyVerdicts(r, options);
            if r.FetchFailed? then v == [StageResult(Download, Failed)]
            else
              && |v| == 3 && v[0] == StageResult(Download, Passed)
              && v[1] == StageResult(HttpContent,
                           if r.status == 200 && r.contentType == "text/plain" && !r.looksLikeHtml && r.text.Some? then Passed
                           else Failed)
              && v[2] == StageResult(Size, if options.minBytes <= r.size <= options.maxBytes then Passed else Failed)
  {
  }

  lemma {:induction false} VerdictsAre(source: Source, r: Response, options: Options)
    requires r.Response? && r.text.Some?
    ensures AttemptVerdicts(source, r, options) ==
            EarlyVerdicts(r, options)
            + ListVerdicts(IsCurrentFormat(source, r, options), ParsedListOf(source, r.text.value), r.header, options)
  {
    FormatOkIff(source, r, options);
  }

  lemma {:induction false} LateVerdictsAre(formatOk: bool, parsed: ParseResult, header: Header, options: Options)
    ensures var v := ListVerdicts(formatOk, parsed, header, options);
            && |v| == 4 && v[0] == StageResult(Format, if formatOk then Passed else Failed)
            && v[1] == StageResult(Parse, if parsed.ruleLines > 0 then Passed else Failed)
            && v[2].stage == Normalize && v[3].stage == Deduplicate
            && (parsed.ruleLines > 0 ==>
                  v[2].status == if parsed.invalidCount as real > options.maxInvalidRatio * parsed.ruleLines as real then Failed
                                 else if parsed.invalidCount > 0 then Warning else Passed)
            && v[3].status == if header.declaredEntries in {None, Some(parsed.ruleLines)} then Passed else Failed
  {
    if parsed.ruleLines > 0 {
      RatioIff(parsed.invalidCount, parsed.ruleLines, options.maxInvalidRatio);
    }
  }

  // The mirrors are tried up to the first acceptable one, whose list is taken.
  lemma {:induction false} FirstAcceptedIff(source: Source, responses: seq<Response>, options: Options, k: nat)
    requires k < |responses| && forall i | 0 <= i < k :: !IsAcceptable(source, responses[i], options)
    ensures IsAcceptable(source, responses[k], options) ==>
              FirstAccepted(source, responses, options) == Some(ParsedListOf(source, responses[k].text.value))
    ensures k == |responses| - 1 && !IsAcceptable(source, responses[k], options) ==>
              FirstAccepted(source, responses, options) == None
  {
    AcceptsIff(source, responses[0], options);
    if k > 0 {
      FirstAcceptedIff(source, responses[1..], options, k - 1);
    }
  }

  // --------------------------------------------------------------------- health sample

  function SampleIndex(i: nat, count: nat, size: nat): (k: int)
    requires size > 0
  {
    (i as real * (count as real / size as real)).Floor
  }

  lemma {:induction false} SampleIndexGrows(i: nat, j: nat, count: nat, size: nat)
    requires 0 < size < count && i < j < size
    ensures 0 <= SampleIndex(i, count, size) < SampleIndex(j, count, size) < count
  {
    var step := count as real / size as real;
    assert step * size as real == count as real;
    assert step <= 1.0 ==> step * size as real <= size as real;
    var a, b := i as real * step, j as real * step;
    assert b == a + (j - i) as real * step;
    assert (j - i) as real * step >= step;
    assert a >= 0.0;
    assert (size - j) as real * step > 0.0;
    assert b == count as real - (size - j) as real * step;
  }

  // None where the division by a zero sample size raises.
  function HealthSample(entries: set<BlockEntry>, size: nat): Option<seq<BlockEntry>>
  {
    var ordered := SortedEntries(entries);
    if |ordered| <= size then Some(ordered)
    else if size == 0 then None
    else
      assert forall i | 0 <= i < size :: 0 <= SampleIndex(i, |ordered|, size) < |ordered| by {
        SampleInRange(|ordered|, size);
      }
      Some(seq(size, i requires 0 <= i < size => ordered[SampleIndex(i, |ordered|, size)]))
  }

  lemma {:induction false} SampleInRange(count: nat, size: nat)
    requires 0 < size < count
    ensures forall i | 0 <= i < size :: 0 <= SampleIndex(i, count, size) < count
  {
    forall i | 0 <= i < size
      ensures 0 <= SampleIndex(i, count, size) < count
    {
      if i + 1 < size {
        SampleIndexGrows(i, i + 1, count, size);
      } else if i > 0 {
        SampleIndexGrows(i - 1, i, count, size);
      }
    }
  }

  // A sample of a positive size always has min(size, n) different members of the list.
  lemma {:induction false} HealthSampleIsDistinct(entries: set<BlockEntry>, size: nat)
    requires size > 0
    ensures HealthSample(entries, size).Some?
    ensures var sample := HealthSample(entries, size).value;
            && |sample| == (if |entries| <= size then |entries| else size)
            && (forall e | e in sample :: e in entries)
            && (forall i, j | 0 <= i < j < |sample| :: sample[i] != sample[j])
  {
    var ordered := SortedEntries(entries);
    if |ordered| > size {
      SampleInRange(|ordered|, size);
      forall i, j | 0 <= i < j < size
        ensures SampleIndex(i, |ordered|, size) < SampleIndex(j, |ordered|, size)
      {
        SampleIndexGrows(i, j, |ordered|, size);
      }
    }
  }
}
