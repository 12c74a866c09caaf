/**
 What a line of a blocklist means in each format (core/blocklists.py, parse_list), said by the shape of the
 line and not by the way it is taken apart.
 */
module Lines {
  import opened Wrappers
  import opened Strings
  import opened Domains
  import opened Blocklists

  // -------------------------------------------------------------------------------- words

  predicate IsWord(w: string)
  {
    w != "" && forall i | 0 <= i < |w| :: !IsSpace(w[i])
  }

  // White space, a word, white space, ..., white space.
  function Spaced(words: seq<string>, gaps: seq<string>): string
    requires |gaps| == |words| + 1
  {
    if words == [] then gaps[0] else gaps[0] + words[0] + Spaced(words[1..], gaps[1..])
  }

  // The words of a text: nothing but white space around them, and some of it between any two.
  ghost predicate AreWordsOf(words: seq<string>, gaps: seq<string>, s: string)
  {
    && |gaps| == |words| + 1 && s == Spaced(words, gaps)
    && (forall w | w in words :: IsWord(w))
    && (forall i | 0 <= i < |gaps| :: AllSpace(gaps[i]) && (0 < i < |words| ==> gaps[i] != ""))
  }

  lemma {:induction false} WordsAfterGap(pad: string, s: string)
    requires AllSpace(pad)
    ensures Words(pad + s, "") == Words(s, "")
  {
    if pad == "" {
      assert pad + s == s;
    } else {
      assert (pad + s)[1..] == pad[1..] + s;
      WordsAfterGap(pad[1..], s);
    }
  }

  lemma {:induction false} WordsInWord(read: string, w: string, s: string)
    requires forall i | 0 <= i < |w| :: !IsSpace(w[i])
    ensures Words(w + s, read) == Words(s, read + w)
    decreases |w|
  {
    if w == "" {
      assert w + s == s && read + w == read;
    } else {
      assert (w + s)[1..] == w[1..] + s && read + [w[0]] + w[1..] == read + w;
      WordsInWord(read + [w[0]], w[1..], s);
    }
  }

  lemma {:induction false} WordsEndWord(w: string, s: string)
    requires w != "" && (s != "" ==> IsSpace(s[0]))
    ensures Words(s, w) == [w] + Words(s, "")
  {
  }

  // split() gives exactly the words.
  lemma {:induction false} WordsOf(words: seq<string>, gaps: seq<string>, s: string)
    requires AreWordsOf(words, gaps, s)
    ensures Words(s, "") == words
  {
    if words == [] {
      WordsAfterGap(gaps[0], "");
      assert gaps[0] + "" == gaps[0];
    } else {
      var w, rest := words[0], Spaced(words[1..], gaps[1..]);
      assert s == gaps[0] + (w + rest);
      assert w in words && IsWord(w) && "" + w == w;
      WordsAfterGap(gaps[0], w + rest);
      WordsInWord("", w, rest);
      RestIsSpaced(words, gaps, s);
      WordsEndWord(w, rest);
      WordsOf(words[1..], gaps[1..], rest);
    }
  }

  lemma {:induction false} RestIsSpaced(words: seq<string>, gaps: seq<string>, s: string)
    requires AreWordsOf(words, gaps, s) && words != []
    ensures var rest := Spaced(words[1..], gaps[1..]);
            AreWordsOf(words[1..], gaps[1..], rest) && (rest != "" ==> IsSpace(rest[0]))
  {
    var later := gaps[1..];
    forall i | 0 <= i < |later|
      ensures AllSpace(later[i]) && (0 < i < |words| - 1 ==> later[i] != "")
    {
      assert later[i] == gaps[i + 1];
    }
    assert AllSpace(later[0]);
    if |words| > 1 {
      assert later[0] != "";
      assert Spaced(words[1..], later)[0] == later[0][0];
    }
  }

  lemma {:induction false} WordsExist(s: string) returns (gaps: seq<string>)
    ensures AreWordsOf(Words(s, ""), gaps, s)
    decreases |s|
  {
    if s == "" {
      gaps := [""];
      assert Words(s, "") == [] && Spaced([], gaps) == "";
    } else if IsSpace(s[0]) {
      gaps := WordsExist(s[1..]);
      WiderGap(Words(s[1..], ""), gaps, s[1..], s[0]);
      assert s == [s[0]] + s[1..] && Words(s, "") == Words(s[1..], "");
      gaps := [[s[0]] + gaps[0]] + gaps[1..];
    } else {
      var w, rest := FirstWord(s);
      gaps := WordsExist(rest);
      WordsInWord("", w, rest);
      assert "" + w == w;
      WordsEndWord(w, rest);
      LeadingWord(w, Words(rest, ""), gaps, rest);
      gaps := [""] + gaps;
    }
  }

  lemma {:induction false} FirstWord(s: string) returns (w: string, rest: string)
    requires s != "" && !IsSpace(s[0])
    ensures IsWord(w) && s == w + rest && (rest != "" ==> IsSpace(rest[0]))
  {
    if |s| == 1 || IsSpace(s[1]) {
      w, rest := s[..1], s[1..];
    } else {
      w, rest := FirstWord(s[1..]);
      assert s == [s[0]] + s[1..];
      w := [s[0]] + w;
    }
  }

  lemma {:induction false} WiderGap(words: seq<string>, gaps: seq<string>, s: string, c: char)
    requires AreWordsOf(words, gaps, s) && IsSpace(c)
    ensures AreWordsOf(words, [[c] + gaps[0]] + gaps[1..], [c] + s)
  {
    var wider := [[c] + gaps[0]] + gaps[1..];
    assert wider[1..] == gaps[1..];
    if words != [] {
      var rest := Spaced(words[1..], gaps[1..]);
      assert [c] + (gaps[0] + words[0] + rest) == ([c] + gaps[0]) + words[0] + rest;
    }
  }

  lemma {:induction false} LeadingWord(w: string, words: seq<string>, gaps: seq<string>, rest: string)
    requires AreWordsOf(words, gaps, rest) && IsWord(w) && (rest != "" ==> IsSpace(rest[0]))
    ensures AreWordsOf([w] + words, [""] + gaps, w + rest)
  {
    var more, all := [""] + gaps, [w] + words;
    assert more[1..] == gaps && all[1..] == words;
    assert "" + w + rest == w + rest;
    if words != [] {
      assert words[0] in words && rest == gaps[0] + words[0] + Spaced(words[1..], gaps[1..]);
      assert rest[|gaps[0]|] == words[0][0];
    }
  }

  // ------------------------------------------------------------------------------- remarks

  // A text up to a remark: no '#' before it, and nothing or a '#' behind it.
  predicate IsCut(text: string, remark: string)
  {
    '#' !in text && (remark == "" || remark[0] == '#')
  }

  function BeforeRemark(s: string): string
  {
    Split(s, '#')[0]
  }

  lemma {:induction false} CutOf(text: string, remark: string)
    requires IsCut(text, remark)
    ensures BeforeRemark(text + remark) == text
  {
    SplitWhole(text, '#');
    if remark == "" {
      assert text + remark == text;
    } else {
      assert text + remark == text + ['#'] + remark[1..];
      SplitConcat(text, remark[1..], '#');
    }
  }

  lemma {:induction false} CutExists(s: string) returns (remark: string)
    ensures IsCut(BeforeRemark(s), remark) && s == BeforeRemark(s) + remark
  {
    if s == "" {
      remark := "";
    } else if s[0] == '#' {
      remark := s;
    } else {
      remark := CutExists(s[1..]);
      assert s == [s[0]] + s[1..];
      assert BeforeRemark(s) == [s[0]] + BeforeRemark(s[1..]);
    }
  }

  // The words before a remark do not depend on the white space around the line.
  lemma {:induction false} WordsOfStripped(a: string, line: string, b: string)
    requires AllSpace(a) && AllSpace(b)
    ensures Words(BeforeRemark(a + line + b), "") == Words(BeforeRemark(line), "")
  {
    var remark := CutExists(line);
    var text := BeforeRemark(line);
    NoHashInSpace(a);
    NoHashInSpace(b);
    if remark == "" {
      assert a + line + b == a + text + b && text == line;
      CutOf(a + text + b, "");
      assert a + text + b + "" == a + text + b;
      assert a + text + b == a + (text + b);
      WordsAfterGap(a, text + b);
      WordsBeforeGap(text, b, "");
    } else {
      assert a + line + b == (a + text) + (remark + b);
      CutOf(a + text, remark + b);
      WordsAfterGap(a, text);
    }
  }

  lemma {:induction false} NoHashInSpace(pad: string)
    requires AllSpace(pad)
    ensures '#' !in pad
  {
  }

  lemma {:induction false} WordsBeforeGap(s: string, pad: string, read: string)
    requires AllSpace(pad)
    ensures Words(s + pad, read) == Words(s, read)
    decreases |s|
  {
    if s == "" {
      assert s + pad == pad;
      if pad != "" {
        WordsAfterGap(pad[1..], "");
        assert pad[1..] + "" == pad[1..];
      }
    } else {
      assert (s + pad)[1..] == s[1..] + pad;
      if IsSpace(s[0]) {
        WordsBeforeGap(s[1..], pad, "");
      } else {
        WordsBeforeGap(s[1..], pad, read + [s[0]]);
      }
    }
  }

  // -------------------------------------------------------------------------------- shapes

  // "||" name "^" with white space around it; the name holds none of ^ | $ / *.
  ghost predicate AdblockShape(raw: string, name: string)
  {
    exists a, b ::
      && AllSpace(a) && AllSpace(b) && raw == a + ("||" + name + "^") + b
      && name != "" && forall i | 0 <= i < |name| :: name[i] !in {'^', '|', '$', '/', '*'}
  }

  // Words, with a remark behind them or without one.
  ghost predicate WordsShape(raw: string, words: seq<string>)
  {
    exists text, gaps, remark :: raw == text + remark && IsCut(text, remark) && AreWordsOf(words, gaps, text)
  }

  predicate IsSink(word: string)
  {
    word == "0.0.0.0" || word == "127.0.0.1" || word == "::" || word == "::1"
  }

  // Names of the machine itself, in any case.
  predicate IsOwnName(name: string)
  {
    var lower := Lower(name);
    || lower == "localhost" || lower == "localhost.localdomain" || lower == "local" || lower == "broadcasthost"
    || lower == "ip6-localhost" || lower == "ip6-loopback" || lower == "0.0.0.0"
  }

  function Others(names: seq<string>): seq<string>
  {
    if names == [] then [] else (if IsOwnName(names[0]) then [] else [names[0]]) + Others(names[1..])
  }

  // A line that blocks names: which ones, as they are written.
  ghost predicate Lists(raw: string, format: ListFormat, names: seq<string>)
  {
    match format
    case Adblock => |names| == 1 && AdblockShape(raw, names[0])
    case Hosts =>
      exists words :: WordsShape(raw, words) && |words| >= 2 && IsSink(words[0]) && names == Others(words[1..])
    case Domains => WordsShape(raw, names) && |names| == 1 && !("!" <= names[0]) && !("[" <= names[0])
  }

  ghost predicate IsBlankLine(raw: string)
  {
    AllSpace(raw)
  }

  ghost predicate IsCommentLine(raw: string)
  {
    exists i :: 0 <= i < |raw| && AllSpace(raw[..i]) && (raw[i] == '!' || raw[i] == '#' || raw[i] == '[')
  }

  lemma {:induction false} WordsShapeIff(raw: string, words: seq<string>)
    ensures WordsShape(raw, words) <==> Words(BeforeRemark(raw), "") == words
    ensures WordsShape(raw, words) ==> forall w | w in words :: IsWord(w)
  {
    if text, gaps, remark :| raw == text + remark && IsCut(text, remark) && AreWordsOf(words, gaps, text) {
      CutOf(text, remark);
      WordsOf(words, gaps, text);
    }
    if Words(BeforeRemark(raw), "") == words {
      var remark := CutExists(raw);
      var gaps := WordsExist(BeforeRemark(raw));
      assert AreWordsOf(words, gaps, BeforeRemark(raw));
    }
  }

  lemma {:induction false} ShapeIsRule(raw: string, name: string)
    requires AdblockShape(raw, name)
    ensures AdblockRule(Strip(raw)) == Some(name)
  {
    var a, b :| AllSpace(a) && AllSpace(b) && raw == a + ("||" + name + "^") + b;
    var line := "||" + name + "^";
    StripOf(a, line, b);
    assert line[..2] == "||" && line[2..|line| - 1] == name;
  }

  lemma {:induction false} RuleHasShape(raw: string, name: string)
    requires AdblockRule(Strip(raw)) == Some(name)
    ensures AdblockShape(raw, name)
  {
    var a, b := StripLeaves(raw);
    var line := Strip(raw);
    assert line == line[..2] + line[2..|line| - 1] + [line[|line| - 1]];
    assert line == "||" + name + "^";
    assert raw == a + ("||" + name + "^") + b;
  }

  lemma {:induction false} AdblockShapeIff(raw: string, name: string)
    ensures AdblockShape(raw, name) <==> AdblockRule(Strip(raw)) == Some(name)
  {
    if AdblockShape(raw, name) {
      ShapeIsRule(raw, name);
    }
    if AdblockRule(Strip(raw)) == Some(name) {
      RuleHasShape(raw, name);
    }
  }

  // ---------------------------------------------------------------------- what a line means

  function Pairs(names: seq<string>, includeSubdomains: bool): seq<(string, bool)>
  {
    seq(|names|, i requires 0 <= i < |names| => (names[i], includeSubdomains))
  }

  lemma {:induction false} HostNamesAre(names: seq<string>)
    ensures HostNames(names) == Pairs(Others(names), false)
  {
    if names != [] {
      HostNamesAre(names[1..]);
    }
  }

  // The first character that is not white space.
  lemma {:induction false} FirstOfStripped(raw: string)
    ensures Strip(raw) == "" <==> IsBlankLine(raw)
    ensures Strip(raw) != "" && Strip(raw)[0] in {'!', '#', '['} <==> IsCommentLine(raw)
  {
    var a, b := StripLeaves(raw);
    if IsBlankLine(raw) {
      assert raw + "" + "" == raw;
      StripOf(raw, "", "");
    }
    var line := Strip(raw);
    if line != "" {
      assert raw[..|a|] == a && raw[|a|] == line[0];
      if i :| 0 <= i < |raw| && AllSpace(raw[..i]) && (raw[i] == '!' || raw[i] == '#' || raw[i] == '[') {
        OnlyOneFirst(raw, i, |a|);
      }
    }
  }

  lemma {:induction false} OnlyOneFirst(s: string, i: nat, j: nat)
    requires i < |s| && AllSpace(s[..i]) && !IsSpace(s[i])
    requires j < |s| && AllSpace(s[..j]) && !IsSpace(s[j])
    ensures i == j
  {
    assert forall k | 0 <= k < i :: s[..i][k] == s[k];
    assert forall k | 0 <= k < j :: s[..j][k] == s[k];
  }

  // Words are read the same from the line with and without the white space around it, and the first word
  // begins where the line does, unless a remark does.
  lemma {:induction false} WordsOfLine(raw: string)
    ensures Words(BeforeRemark(Strip(raw)), "") == Words(BeforeRemark(raw), "")
    ensures Strip(raw) == "" || Strip(raw)[0] == '#' ==> Words(BeforeRemark(raw), "") == []
    ensures Strip(raw) != "" && Strip(raw)[0] != '#' ==>
              Words(BeforeRemark(raw), "") != [] && Words(BeforeRemark(raw), "")[0] != ""
              && Words(BeforeRemark(raw), "")[0][0] == Strip(raw)[0]
  {
    var a, b := StripLeaves(raw);
    var line := Strip(raw);
    WordsOfStripped(a, line, b);
    if line != "" && line[0] != '#' {
      assert BeforeRemark(line) == [line[0]] + BeforeRemark(line[1..]);
      FirstWordBegins(BeforeRemark(line));
    }
  }

  lemma {:induction false} FirstWordBegins(s: string)
    requires s != "" && !IsSpace(s[0])
    ensures Words(s, "") != [] && Words(s, "")[0] != "" && Words(s, "")[0][0] == s[0]
  {
    var w, rest := FirstWord(s);
    WordsInWord("", w, rest);
    assert "" + w == w;
    WordsEndWord(w, rest);
  }

  // A line lists names exactly when, being neither blank nor a comment, it has candidates, and then those.
  lemma {:induction false} ListsIff(raw: string, format: ListFormat, names: seq<string>)
    ensures Lists(raw, format, names) <==>
            && !IsBlankLine(raw) && !IsCommentLine(raw)
            && Candidates(Strip(raw), format) == Some(Pairs(names, format.Adblock?))
  {
    FirstOfStripped(raw);
    match format
    case Adblock => AdblockListsIff(raw, names);
    case Hosts => HostsListsIff(raw, names);
    case Domains => DomainsListsIff(raw, names);
  }

  lemma {:induction false} AdblockListsIff(raw: string, names: seq<string>)
    ensures Lists(raw, Adblock, names) <==> Candidates(Strip(raw), Adblock) == Some(Pairs(names, true))
    ensures Lists(raw, Adblock, names) ==> Strip(raw) != "" && Strip(raw)[0] == '|'
  {
    if |names| == 1 {
      AdblockShapeIff(raw, names[0]);
    }
    var rule := AdblockRule(Strip(raw));
    if rule.Some? {
      assert Strip(raw)[..2][0] == '|';
      assert Pairs(names, true) == [(rule.value, true)] <==> names == [rule.value] by {
        assert names == [rule.value] ==> Pairs(names, true)[0] == (rule.value, true);
        assert Pairs(names, true) == [(rule.value, true)] ==> |names| == 1 && Pairs(names, true)[0] == (names[0], true);
      }
    }
  }

  lemma {:induction false} HostsListsIff(raw: string, names: seq<string>)
    ensures Lists(raw, Hosts, names) <==>
            Strip(raw) != "" && Strip(raw)[0] !in {'!', '#', '['} && Candidates(Strip(raw), Hosts) == Some(Pairs(names, false))
  {
    var words := Words(BeforeRemark(raw), "");
    WordsOfLine(raw);
    HostsListsWords(raw, words, names);
    HostsCandidates(Strip(raw), words, names);
    if |words| >= 2 && IsSink(words[0]) {
      assert words[0][0] == '0' || words[0][0] == '1' || words[0][0] == ':';
    }
  }

  lemma {:induction false} HostsListsWords(raw: string, words: seq<string>, names: seq<string>)
    requires words == Words(BeforeRemark(raw), "")
    ensures Lists(raw, Hosts, names) <==> |words| >= 2 && IsSink(words[0]) && names == Others(words[1..])
  {
    WordsShapeIff(raw, words);
    if Lists(raw, Hosts, names) {
      var w :| WordsShape(raw, w) && |w| >= 2 && IsSink(w[0]) && names == Others(w[1..]);
      WordsShapeIff(raw, w);
    }
  }

  lemma {:induction false} HostsCandidates(line: string, words: seq<string>, names: seq<string>)
    requires words == Words(BeforeRemark(line), "")
    ensures Candidates(line, Hosts) == Some(Pairs(names, false)) <==>
            |words| >= 2 && IsSink(words[0]) && names == Others(words[1..])
  {
    if |words| >= 2 {
      HostNamesAre(words[1..]);
      SamePairs(names, Others(words[1..]), false);
    }
  }

  lemma {:induction false} DomainsListsIff(raw: string, names: seq<string>)
    ensures Lists(raw, Domains, names) <==>
            Strip(raw) != "" && Strip(raw)[0] !in {'!', '#', '['} && Candidates(Strip(raw), Domains) == Some(Pairs(names, false))
  {
    WordsOfLine(raw);
    WordsShapeIff(raw, names);
    var words := Words(BeforeRemark(raw), "");
    if |words| == 1 {
      assert Pairs(words, false) == [(words[0], false)];
      SamePairs(names, words, false);
    }
  }

  lemma {:induction false} SamePairs(a: seq<string>, b: seq<string>, includeSubdomains: bool)
    ensures Pairs(a, includeSubdomains) == Pairs(b, includeSubdomains) <==> a == b
  {
    var p, q := Pairs(a, includeSubdomains), Pairs(b, includeSubdomains);
    if p == q {
      assert |a| == |p| && |b| == |q|;
      assert forall i | 0 <= i < |a| :: p[i].0 == a[i] && q[i].0 == b[i];
    }
  }

  ghost predicate AreDomains(names: seq<string>)
  {
    forall i | 0 <= i < |names| :: NormalizeDomain(names[i]).Some?
  }

  // The entries of the names, in order: with their subdomains in an Adblock list only.
  ghost predicate AreEntriesOf(entries: seq<BlockEntry>, names: seq<string>, format: ListFormat)
  {
    && |entries| == |names|
    && forall i | 0 <= i < |names| ::
         && NormalizeDomain(names[i]) == Some(entries[i].domain)
         && (entries[i].includeSubdomains <==> format.Adblock?)
  }

  lemma {:induction false} NormalizeAllIs(names: seq<string>, format: ListFormat)
    ensures var r := NormalizeAll(Pairs(names, format.Adblock?));
            if AreDomains(names) then r.Some? && AreEntriesOf(r.value, names, format) else r.None?
  {
    var pairs := Pairs(names, format.Adblock?);
    if names != [] {
      assert pairs[1..] == Pairs(names[1..], format.Adblock?);
      NormalizeAllIs(names[1..], format);
      DomainsJoin(names);
      var first, rest := NormalizeDomain(names[0]), NormalizeAll(pairs[1..]);
      if first.Some? && rest.Some? {
        EntriesJoin(BlockEntry(first.value, format.Adblock?), rest.value, names, format);
      }
    }
  }

  lemma {:induction false} DomainsJoin(names: seq<string>)
    requires names != []
    ensures AreDomains(names) <==> NormalizeDomain(names[0]).Some? && AreDomains(names[1..])
  {
    assert forall i | 0 <= i < |names| - 1 :: names[1..][i] == names[i + 1];
    assert forall i | 1 <= i < |names| :: names[i] == names[1..][i - 1];
  }

  lemma {:induction false} EntriesJoin(e: BlockEntry, rest: seq<BlockEntry>, names: seq<string>, format: ListFormat)
    requires names != [] && NormalizeDomain(names[0]) == Some(e.domain) && (e.includeSubdomains <==> format.Adblock?)
    requires AreEntriesOf(rest, names[1..], format)
    ensures AreEntriesOf([e] + rest, names, format)
  {
    assert forall i | 1 <= i < |names| :: names[i] == names[1..][i - 1] && ([e] + rest)[i] == rest[i - 1];
  }

  // A line that lists names holds their entries, or is invalid when one of them is no domain.
  lemma {:induction false} ListingLine(raw: string, format: ListFormat, names: seq<string>)
    requires Lists(raw, format, names)
    ensures var kind := Classify(raw, format);
            if AreDomains(names) then kind.Rule? && AreEntriesOf(kind.entries, names, format) else kind.InvalidDomain?
  {
    ListsIff(raw, format, names);
    FirstOfStripped(raw);
    NormalizeAllIs(names, format);
  }

  // Every other line is blank, a comment or unsupported, and this by its first characters alone.
  lemma {:induction false} OtherLine(raw: string, format: ListFormat)
    requires forall names :: !Lists(raw, format, names)
    ensures var kind := Classify(raw, format);
            if IsBlankLine(raw) then kind.Blank? else if IsCommentLine(raw) then kind.Comment? else kind.Unsupported?
  {
    FirstOfStripped(raw);
    var candidates := Candidates(Strip(raw), format);
    if Strip(raw) != "" && candidates.Some? {
      var names := seq(|candidates.value|, i requires 0 <= i < |candidates.value| => candidates.value[i].0);
      CandidatesArePairs(Strip(raw), format, names);
      ListsIff(raw, format, names);
    }
  }

  lemma {:induction false} CandidatesArePairs(line: string, format: ListFormat, names: seq<string>)
    requires Candidates(line, format).Some? && |names| == |Candidates(line, format).value|
    requires forall i | 0 <= i < |names| :: names[i] == Candidates(line, format).value[i].0
    ensures Candidates(line, format).value == Pairs(names, format.Adblock?)
  {
    var words := Words(BeforeRemark(line), "");
    if format.Hosts? && |words| >= 2 {
      HostNamesAre(words[1..]);
    }
  }

  // ------------------------------------------------------------------------- whole texts

  // The line writes the entry: all the names it lists are domains, and one of them is this one.
  ghost predicate Writes(raw: string, format: ListFormat, e: BlockEntry)
  {
    exists names, k ::
      && Lists(raw, format, names) && AreDomains(names)
      && 0 <= k < |names| && NormalizeDomain(names[k]) == Some(e.domain)
      && (e.includeSubdomains <==> format.Adblock?)
  }

  lemma {:induction false} WritesIff(raw: string, format: ListFormat, e: BlockEntry)
    ensures e in EntriesOn(Classify(raw, format)) <==> Writes(raw, format, e)
  {
    if names :| Lists(raw, format, names) {
      ListingLine(raw, format, names);
      OneListing(raw, format, names);
      if AreDomains(names) {
        EntryIff(Classify(raw, format).entries, names, format, e);
      }
    } else {
      OtherLine(raw, format);
    }
  }

  lemma {:induction false} EntryIff(entries: seq<BlockEntry>, names: seq<string>, format: ListFormat, e: BlockEntry)
    requires AreEntriesOf(entries, names, format)
    ensures e in entries <==>
            && (e.includeSubdomains <==> format.Adblock?)
            && exists k :: 0 <= k < |names| && NormalizeDomain(names[k]) == Some(e.domain)
  {
    if e in entries {
      var k :| 0 <= k < |entries| && entries[k] == e;
      assert NormalizeDomain(names[k]) == Some(e.domain);
    }
    if k :| 0 <= k < |names| && NormalizeDomain(names[k]) == Some(e.domain) {
      assert entries[k].domain == e.domain;
    }
  }

  // A line lists its names in one way only.
  lemma {:induction false} OneListing(raw: string, format: ListFormat, names: seq<string>)
    requires Lists(raw, format, names)
    ensures forall other | Lists(raw, format, other) :: other == names
  {
    ListsIff(raw, format, names);
    forall other | Lists(raw, format, other)
      ensures other == names
    {
      ListsIff(raw, format, other);
      SamePairs(names, other, format.Adblock?);
    }
  }

  ghost predicate SomeLineWrites(lines: seq<string>, format: ListFormat, e: BlockEntry)
  {
    exists i :: 0 <= i < |lines| && Writes(lines[i], format, e)
  }

  lemma {:induction false} WrittenIsOnALine(lines: seq<Line>, e: BlockEntry)
    ensures e in EntriesWritten(lines) <==> exists i :: 0 <= i < |lines| && e in EntriesOn(lines[i].kind)
  {
    if lines != [] {
      var front := lines[..|lines| - 1];
      WrittenIsOnALine(front, e);
      assert forall i | 0 <= i < |front| :: front[i] == lines[i];
    }
  }

  lemma {:induction false} WrittenOnSomeLine(lines: seq<string>, format: ListFormat, e: BlockEntry)
    ensures e in EntriesWritten(ClassifyAll(lines, Classifier(format))) <==> SomeLineWrites(lines, format, e)
  {
    var classified := ClassifyAll(lines, Classifier(format));
    WrittenIsOnALine(classified, e);
    forall i | 0 <= i < |lines|
      ensures e in EntriesOn(classified[i].kind) <==> Writes(lines[i], format, e)
    {
      WritesIff(lines[i], format, e);
    }
  }

  // The entries of a parsed text are exactly those that some line of it writes.
  lemma {:induction false} ParsedIffWritten(text: string, format: ListFormat, e: BlockEntry)
    ensures e in AbsorbLines(ClassifyAll(SplitLines(text), Classifier(format))).entries <==>
            SomeLineWrites(SplitLines(text), format, e)
  {
    ParseIsFaithful(ClassifyAll(SplitLines(text), Classifier(format)));
    WrittenOnSomeLine(SplitLines(text), format, e);
  }

  // ----------------------------------------------------------------------------- examples

  // For a domain name: an Adblock rule, a hosts line and a plain line, as lists write them.
  lemma {:induction false} CommonLines(d: string, remark: string)
    requires Normalized(d) && (remark == "" || remark[0] == '#')
    ensures Classify("||" + d + "^", Adblock) == Rule([BlockEntry(d, true)])
    ensures !IsOwnName(d) ==> Classify("0.0.0.0 " + d + remark, Hosts) == Rule([BlockEntry(d, false)])
    ensures Classify(d + remark, Domains) == Rule([BlockEntry(d, false)])
  {
    NormalizedIff(d);
    DomainNameChars(d);
    AdblockCommon(d);
    DomainsCommon(d, remark);
    if !IsOwnName(d) {
      HostsCommon(d, remark);
    }
  }

  lemma {:induction false} NameIsWord(d: string)
    requires IsDomainName(d)
    ensures IsWord(d) && '#' !in d && d != "" && d[0] != '!' && d[0] != '['
    ensures forall i | 0 <= i < |d| :: d[i] !in {'^', '|', '$', '/', '*'}
  {
    DomainNameChars(d);
    forall i | 0 <= i < |d|
      ensures IsLabelChar(d[i]) || d[i] == '.'
    {
      assert d[i] in d;
    }
  }

  lemma {:induction false} OneEntry(entries: seq<BlockEntry>, d: string, format: ListFormat)
    requires AreEntriesOf(entries, [d], format) && Normalized(d)
    ensures entries == [BlockEntry(d, format.Adblock?)]
  {
    assert [d][0] == d && entries[0] == BlockEntry(d, format.Adblock?);
  }

  lemma {:induction false} AdblockCommon(d: string)
    requires Normalized(d) && IsDomainName(d)
    ensures Classify("||" + d + "^", Adblock) == Rule([BlockEntry(d, true)])
  {
    var raw := "||" + d + "^";
    NameIsWord(d);
    assert AllSpace("") && raw == "" + ("||" + d + "^") + "";
    assert AdblockShape(raw, [d][0]);
    ListingLine(raw, Adblock, [d]);
    OneEntry(Classify(raw, Adblock).entries, d, Adblock);
  }

  lemma {:induction false} DomainsCommon(d: string, remark: string)
    requires Normalized(d) && IsDomainName(d) && (remark == "" || remark[0] == '#')
    ensures Classify(d + remark, Domains) == Rule([BlockEntry(d, false)])
  {
    NameIsWord(d);
    OneWordListed(d, remark);
    ListingLine(d + remark, Domains, [d]);
    OneEntry(Classify(d + remark, Domains).entries, d, Domains);
  }

  lemma {:induction false} OneWordListed(w: string, remark: string)
    requires IsWord(w) && IsCut(w, remark) && w[0] != '!' && w[0] != '['
    ensures Lists(w + remark, Domains, [w])
  {
    OneWord(w);
    ShapeOf([w], ["", ""], w, remark);
    assert [w][0] == w;
  }

  lemma {:induction false} ShapeOf(words: seq<string>, gaps: seq<string>, text: string, remark: string)
    requires AreWordsOf(words, gaps, text) && IsCut(text, remark)
    ensures WordsShape(text + remark, words)
  {
  }

  lemma {:induction false} OneWord(w: string)
    requires IsWord(w)
    ensures AreWordsOf([w], ["", ""], w)
  {
    var gaps := ["", ""];
    assert [w][1..] == [] && gaps[1..] == [""];
    assert Spaced([], [""]) == "" && Spaced([w], gaps) == "" + w + "";
  }

  lemma {:induction false} HostsCommon(d: string, remark: string)
    requires Normalized(d) && IsDomainName(d) && !IsOwnName(d) && (remark == "" || remark[0] == '#')
    ensures Classify("0.0.0.0 " + d + remark, Hosts) == Rule([BlockEntry(d, false)])
  {
    NameIsWord(d);
    var raw := "0.0.0.0 " + d + remark;
    assert raw == ("0.0.0.0" + " " + d) + remark;
    TwoWordsListed("0.0.0.0", d, remark);
    ListingLine(raw, Hosts, [d]);
    OneEntry(Classify(raw, Hosts).entries, d, Hosts);
  }

  lemma {:induction false} TwoWordsListed(v: string, w: string, remark: string)
    requires IsWord(v) && IsWord(w) && '#' !in v && '#' !in w && (remark == "" || remark[0] == '#')
    requires IsSink(v) && !IsOwnName(w)
    ensures Lists((v + " " + w) + remark, Hosts, [w])
  {
    var words := [v, w];
    TwoWords(v, w);
    ShapeOf(words, ["", " ", ""], v + " " + w, remark);
    assert words[1..] == [w] && Others([w]) == [w] + Others([]);
  }

  lemma {:induction false} TwoWords(v: string, w: string)
    requires IsWord(v) && IsWord(w) && '#' !in v && '#' !in w
    ensures AreWordsOf([v, w], ["", " ", ""], v + " " + w) && '#' !in v + " " + w
  {
    var gaps := ["", " ", ""];
    assert [v, w][1..] == [w] && [w][1..] == [] && gaps[1..] == [" ", ""] && gaps[1..][1..] == [""];
    assert Spaced([], [""]) == "" && Spaced([w], [" ", ""]) == " " + w + "";
    assert Spaced([v, w], gaps) == "" + v + (" " + w + "");
  }
}
