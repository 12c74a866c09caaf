/**
 The string operations the program leans on (split, join, endswith, splitlines, str(int), int(str))
 and the lemmas that connect them.
 */
module Strings {
  import opened Wrappers

  // ------------------------------------------------------------------ split and join

  function Split(s: string, sep: char): (parts: seq<string>)
    ensures |parts| >= 1
  {
    if s == "" then [""]
    else
      var rest := Split(s[1..], sep);
      if s[0] == sep then [""] + rest else [[s[0]] + rest[0]] + rest[1..]
  }

  function Join(parts: seq<string>, sep: char): string
  {
    if |parts| == 0 then ""
    else if |parts| == 1 then parts[0]
    else parts[0] + [sep] + Join(parts[1..], sep)
  }

  lemma {:induction false} SplitWhole(s: string, sep: char)
    requires sep !in s
    ensures Split(s, sep) == [s]
  {
    if s != "" {
      SplitWhole(s[1..], sep);
      assert [s[0]] + s[1..] == s;
    }
  }

  lemma {:induction false} SplitConcat(a: string, b: string, sep: char)
    ensures Split(a + [sep] + b, sep) == Split(a, sep) + Split(b, sep)
  {
    var s := a + [sep] + b;
    if a == "" {
      assert s[1..] == b;
    } else {
      assert s[1..] == a[1..] + [sep] + b;
      SplitConcat(a[1..], b, sep);
    }
  }

  lemma {:induction false} JoinCons(part: string, parts: seq<string>, sep: char)
    requires |parts| >= 1
    ensures Join([part] + parts, sep) == part + [sep] + Join(parts, sep)
  {
    assert ([part] + parts)[1..] == parts;
  }

  lemma {:induction false} JoinConcat(a: seq<string>, b: seq<string>, sep: char)
    requires |a| >= 1 && |b| >= 1
    ensures Join(a + b, sep) == Join(a, sep) + [sep] + Join(b, sep)
  {
    if |a| == 1 {
      assert a == [a[0]];
      JoinCons(a[0], b, sep);
    } else {
      assert a + b == [a[0]] + (a[1..] + b);
      JoinCons(a[0], a[1..] + b, sep);
      JoinConcat(a[1..], b, sep);
      assert a[0] + [sep] + (Join(a[1..], sep) + [sep] + Join(b, sep))
          == (a[0] + [sep] + Join(a[1..], sep)) + [sep] + Join(b, sep);
    }
  }

  lemma {:induction false} JoinSplit(s: string, sep: char)
    ensures Join(Split(s, sep), sep) == s
  {
    if s != "" {
      var rest := Split(s[1..], sep);
      JoinSplit(s[1..], sep);
      if s[0] == sep {
        JoinCons("", rest, sep);
        assert "" + [sep] + s[1..] == s;
      } else {
        JoinHead(s[0], rest, sep);
      }
    }
  }

  lemma {:induction false} JoinHead(c: char, parts: seq<string>, sep: char)
    requires |parts| >= 1
    ensures Join([[c] + parts[0]] + parts[1..], sep) == [c] + Join(parts, sep)
  {
    if |parts| > 1 {
      JoinCons([c] + parts[0], parts[1..], sep);
      assert [c] + parts[0] + [sep] + Join(parts[1..], sep) == [c] + (parts[0] + [sep] + Join(parts[1..], sep));
    }
  }

  lemma {:induction false} SplitJoin(parts: seq<string>, sep: char)
    requires |parts| >= 1
    requires forall p | p in parts :: sep !in p
    ensures Split(Join(parts, sep), sep) == parts
  {
    if |parts| == 1 {
      SplitWhole(parts[0], sep);
    } else {
      var rest := parts[1..];
      assert forall p | p in rest :: p in parts;
      SplitConcat(parts[0], Join(rest, sep), sep);
      SplitWhole(parts[0], sep);
      SplitJoin(rest, sep);
      assert [parts[0]] + rest == parts;
    }
  }

  lemma {:induction false} SplitParts(s: string, sep: char)
    ensures forall p | p in Split(s, sep) :: sep !in p
    ensures forall p, c | p in Split(s, sep) && c in p :: c in s
  {
    if s != "" {
      SplitParts(s[1..], sep);
    }
  }

  lemma {:induction false} CharsOfJoin(parts: seq<string>, sep: char, c: char)
    requires c in Join(parts, sep)
    ensures c == sep || exists p :: p in parts && c in p
  {
    if |parts| > 1 {
      if c in parts[0] {
      } else if c != sep {
        CharsOfJoin(parts[1..], sep, c);
      }
    }
  }

  // ---------------------------------------------------------------------- endswith

  predicate EndsWith(s: string, t: string)
  {
    |t| <= |s| && s[|s| - |t|..] == t
  }

  // `s` ends with `sep + t` exactly when the parts of `t` are a proper suffix of the parts of `s`.
  lemma {:induction false} EndsWithIsPartSuffix(s: string, t: string, sep: char)
    ensures EndsWith(s, [sep] + t) <==>
            (|Split(t, sep)| < |Split(s, sep)|
             && Split(s, sep)[|Split(s, sep)| - |Split(t, sep)|..] == Split(t, sep))
  {
    var ps, pt := Split(s, sep), Split(t, sep);
    if EndsWith(s, [sep] + t) {
      var a := s[..|s| - |t| - 1];
      assert s == a + [sep] + t;
      SplitConcat(a, t, sep);
    }
    if |pt| < |ps| && ps[|ps| - |pt|..] == pt {
      JoinSplit(s, sep);
      JoinSplit(t, sep);
      JoinedSuffix(ps, pt, sep);
    }
  }

  lemma {:induction false} JoinedSuffix(ps: seq<string>, pt: seq<string>, sep: char)
    requires pt != [] && |pt| < |ps| && ps[|ps| - |pt|..] == pt
    ensures EndsWith(Join(ps, sep), [sep] + Join(pt, sep))
  {
    var front := ps[..|ps| - |pt|];
    assert ps == front + pt;
    JoinConcat(front, pt, sep);
    var head, tail := Join(front, sep), [sep] + Join(pt, sep);
    assert Join(ps, sep) == head + tail;
    assert (head + tail)[|head|..] == tail;
  }

  // ------------------------------------------------------------ lexicographic order

  predicate StringLe(a: string, b: string)
  {
    a == "" || (b != "" && (a[0] < b[0] || (a[0] == b[0] && StringLe(a[1..], b[1..]))))
  }

  // One text is a beginning of the other, or has the smaller character where they first differ.
  lemma {:induction false} StringLeIff(a: string, b: string)
    ensures StringLe(a, b) <==>
            a <= b || exists k :: 0 <= k < |a| && k < |b| && a[..k] == b[..k] && a[k] < b[k]
  {
    if a != "" && b != "" && a[0] == b[0] {
      StringLeIff(a[1..], b[1..]);
      if a <= b {
        assert b[1..][..|a| - 1] == a[1..];
      }
      if k :| 0 <= k < |a| && k < |b| && a[..k] == b[..k] && a[k] < b[k] {
        assert a[1..][..k - 1] == a[..k][1..] && b[1..][..k - 1] == b[..k][1..];
        assert a[1..][k - 1] < b[1..][k - 1];
      }
      if a[1..] <= b[1..] {
        assert a == [a[0]] + a[1..] && b == [b[0]] + b[1..];
      }
      if k :| 0 <= k < |a| - 1 && k < |b| - 1 && a[1..][..k] == b[1..][..k] && a[1..][k] < b[1..][k] {
        assert a[..k + 1] == [a[0]] + a[1..][..k] && b[..k + 1] == [b[0]] + b[1..][..k];
      }
    } else if a != "" && b != "" {
      assert a[..0] == b[..0];
    }
  }

  lemma {:induction false} StringLeAntisymmetric(a: string, b: string)
    requires StringLe(a, b) && StringLe(b, a)
    ensures a == b
  {
    if a != "" && b != "" {
      StringLeAntisymmetric(a[1..], b[1..]);
      assert [a[0]] + a[1..] == a && [b[0]] + b[1..] == b;
    }
  }

  lemma {:induction false} StringLeTransitive(a: string, b: string, c: string)
    requires StringLe(a, b) && StringLe(b, c)
    ensures StringLe(a, c)
  {
    if a != "" && a[0] == b[0] && b[0] == c[0] {
      StringLeTransitive(a[1..], b[1..], c[1..]);
    }
  }

  lemma {:induction false} StringLeTotal(a: string, b: string)
    ensures StringLe(a, b) || StringLe(b, a)
  {
    if a != "" && b != "" {
      StringLeTotal(a[1..], b[1..]);
    }
  }

  // --------------------------------------------------------------- decimal numerals

  predicate IsDigit(c: char)
  {
    '0' <= c <= '9'
  }

  function Digits(n: nat): (s: string)
  {
    if n < 10 then [('0' as int + n) as char] else Digits(n / 10) + [('0' as int + n % 10) as char]
  }

  function DigitsValue(s: string): (n: nat)
    requires forall c | c in s :: IsDigit(c)
  {
    if s == "" then 0
    else
      assert s[|s| - 1] in s && IsDigit(s[|s| - 1]);
      var digit: nat := s[|s| - 1] as int - '0' as int;
      10 * DigitsValue(s[..|s| - 1]) + digit
  }

  lemma {:induction false} DigitsRoundTrip(n: nat)
    ensures |Digits(n)| >= 1
    ensures forall c | c in Digits(n) :: IsDigit(c)
    ensures DigitsValue(Digits(n)) == n
  {
    if n >= 10 {
      DigitsRoundTrip(n / 10);
      assert Digits(n)[..|Digits(n)| - 1] == Digits(n / 10);
    } else {
      assert Digits(n)[..0] == "";
    }
  }

  predicate IsSpace(c: char)
  {
    || c == ' ' || '\t' <= c <= '\r' || 0x1c as char <= c <= 0x1f as char
    || c == 0x85 as char || c == 0xa0 as char || c == 0x1680 as char || 0x2000 as char <= c <= 0x200a as char
    || c == 0x2028 as char || c == 0x2029 as char || c == 0x202f as char || c == 0x205f as char || c == 0x3000 as char
  }

  function StripLeft(s: string): string
  {
    if s != "" && IsSpace(s[0]) then StripLeft(s[1..]) else s
  }

  function StripRight(s: string): string
  {
    if s != "" && IsSpace(s[|s| - 1]) then StripRight(s[..|s| - 1]) else s
  }

  function Strip(s: string): string
  {
    StripRight(StripLeft(s))
  }

  // White space around a text.
  predicate AllSpace(s: string)
  {
    forall i | 0 <= i < |s| :: IsSpace(s[i])
  }

  // Text that strip() leaves alone.
  predicate IsTrim(s: string)
  {
    s != "" ==> !IsSpace(s[0]) && !IsSpace(s[|s| - 1])
  }

  lemma {:induction false} StripLeftOf(pad: string, s: string)
    requires AllSpace(pad) && (s != "" ==> !IsSpace(s[0]))
    ensures StripLeft(pad + s) == s
  {
    if pad == "" {
      assert pad + s == s;
    } else {
      assert (pad + s)[1..] == pad[1..] + s;
      StripLeftOf(pad[1..], s);
    }
  }

  lemma {:induction false} StripRightOf(s: string, pad: string)
    requires AllSpace(pad) && (s != "" ==> !IsSpace(s[|s| - 1]))
    ensures StripRight(s + pad) == s
  {
    if pad == "" {
      assert s + pad == s;
    } else {
      var n := |pad| - 1;
      assert (s + pad)[..|s + pad| - 1] == s + pad[..n];
      StripRightOf(s, pad[..n]);
    }
  }

  lemma {:induction false} StripOf(a: string, s: string, b: string)
    requires AllSpace(a) && AllSpace(b) && IsTrim(s)
    ensures Strip(a + s + b) == s
  {
    if s == "" {
      assert AllSpace(a + b) && a + s + b == a + b + "";
      StripLeftOf(a + b, "");
    } else {
      assert a + s + b == a + (s + b);
      StripLeftOf(a, s + b);
      StripRightOf(s, b);
    }
  }

  lemma {:induction false} StripLeftLeaves(s: string) returns (pad: string)
    ensures AllSpace(pad) && s == pad + StripLeft(s) && (StripLeft(s) != "" ==> !IsSpace(StripLeft(s)[0]))
  {
    pad := "";
    if s != "" && IsSpace(s[0]) {
      pad := StripLeftLeaves(s[1..]);
      assert s == [s[0]] + s[1..];
      pad := [s[0]] + pad;
    }
  }

  lemma {:induction false} StripRightLeaves(s: string) returns (pad: string)
    ensures AllSpace(pad) && s == StripRight(s) + pad && (StripRight(s) != "" ==> !IsSpace(StripRight(s)[|StripRight(s)| - 1]))
  {
    pad := "";
    if s != "" && IsSpace(s[|s| - 1]) {
      var n := |s| - 1;
      pad := StripRightLeaves(s[..n]);
      assert s == s[..n] + [s[n]];
      pad := pad + [s[n]];
    }
  }

  // strip() takes off exactly the white space around a text.
  lemma {:induction false} StripLeaves(s: string) returns (a: string, b: string)
    ensures AllSpace(a) && AllSpace(b) && IsTrim(Strip(s)) && s == a + Strip(s) + b
  {
    a := StripLeftLeaves(s);
    b := StripRightLeaves(StripLeft(s));
  }

  // Digit groups, a single underscore allowed between two digits.
  predicate IsIntBody(s: string)
  {
    && s != ""
    && IsDigit(s[0]) && IsDigit(s[|s| - 1])
    && (forall c | c in s :: IsDigit(c) || c == '_')
    && (forall i | 0 <= i < |s| - 1 :: s[i] == '_' ==> s[i + 1] != '_')
  }

  function WithoutUnderscores(s: string): (t: string)
    requires forall c | c in s :: IsDigit(c) || c == '_'
    ensures forall c | c in t :: IsDigit(c)
  {
    if s == "" then ""
    else if s[0] == '_' then WithoutUnderscores(s[1..])
    else [s[0]] + WithoutUnderscores(s[1..])
  }

  // int(s) on ASCII text; None where int() raises ValueError.
  function ParseInt(s: string): Option<int>
  {
    var t := Strip(s);
    if t != "" && (t[0] == '+' || t[0] == '-') && IsIntBody(t[1..]) then
      var n: int := DigitsValue(WithoutUnderscores(t[1..]));
      Some(if t[0] == '-' then -n else n)
    else if IsIntBody(t) then Some(DigitsValue(WithoutUnderscores(t)))
    else None
  }

  lemma {:induction false} NoUnderscores(s: string)
    requires forall c | c in s :: IsDigit(c)
    ensures WithoutUnderscores(s) == s
  {
    if s != "" {
      assert s[0] in s;
      NoUnderscores(s[1..]);
    }
  }

  lemma {:induction false} ParseDigits(n: nat)
    ensures ParseInt(Digits(n)) == Some(n)
  {
    DigitsRoundTrip(n);
    NoUnderscores(Digits(n));
    DigitsAreIntBody(Digits(n));
  }

  lemma {:induction false} DigitsAreIntBody(s: string)
    requires s != "" && forall c | c in s :: IsDigit(c)
    ensures IsIntBody(s) && Strip(s) == s && s[0] != '+' && s[0] != '-'
  {
    forall i | 0 <= i < |s|
      ensures IsDigit(s[i])
    {
      assert s[i] in s;
    }
    assert StripLeft(s) == s && StripRight(s) == s;
  }

  // ------------------------------------------------------------------- splitlines

  predicate IsLineBreak(c: char)
  {
    || '\n' <= c <= '\r'
    || 0x1c as char <= c <= 0x1e as char
    || c == 0x85 as char || c == 0x2028 as char || c == 0x2029 as char
  }

  // str.splitlines() on `line + s`, where `line` is the current line read so far.
  function LinesFrom(s: string, line: string): seq<string>
    decreases |s|
  {
    if s == "" then (if line == "" then [] else [line])
    else if s[0] == '\r' && |s| > 1 && s[1] == '\n' then [line] + LinesFrom(s[2..], "")
    else if IsLineBreak(s[0]) then [line] + LinesFrom(s[1..], "")
    else LinesFrom(s[1..], line + [s[0]])
  }

  function SplitLines(s: string): seq<string>
  {
    LinesFrom(s, "")
  }

  // "\n".join(lines) + "\n"
  function Unlines(lines: seq<string>): string
  {
    Join(lines, '\n') + "\n"
  }

  lemma {:induction false} LinesOfPrefix(line: string, rest: string, read: string)
    requires forall c | c in line :: !IsLineBreak(c)
    ensures LinesFrom(line + "\n" + rest, read) == [read + line] + LinesFrom(rest, "")
    decreases |line|
  {
    var s := line + "\n" + rest;
    if line == "" {
      assert s[1..] == rest;
      assert read + line == read;
    } else {
      assert s[0] == line[0] && line[0] in line;
      assert s[1..] == line[1..] + "\n" + rest;
      LinesOfPrefix(line[1..], rest, read + [line[0]]);
      assert read + [line[0]] + line[1..] == read + line;
    }
  }

  lemma {:induction false} SplitUnlines(lines: seq<string>)
    requires |lines| >= 1
    requires forall l, c | l in lines && c in l :: !IsLineBreak(c)
    ensures SplitLines(Unlines(lines)) == lines
  {
    if |lines| == 1 {
      assert lines[0] + "\n" + "" == Unlines(lines);
      LinesOfPrefix(lines[0], "", "");
    } else {
      SplitUnlines(lines[1..]);
      assert Unlines(lines) == lines[0] + "\n" + Unlines(lines[1..]);
      LinesOfPrefix(lines[0], Unlines(lines[1..]), "");
      assert "" + lines[0] == lines[0];
    }
  }
}
