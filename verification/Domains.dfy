/**
 Domain names (core/domains.py): normalization of ASCII names and the scope test every rule uses.
 */
module Domains {
  import opened Wrappers
  import opened Strings

  const MAX_DOMAIN_LENGTH := 253

  function Labels(domain: string): seq<string>
  {
    Split(domain, '.')
  }

  // ------------------------------------------------------------------ normalization

  predicate IsAscii(s: string)
  {
    forall c | c in s :: c < 128 as char
  }

  predicate IsLabelChar(c: char)
  {
    'a' <= c <= 'z' || IsDigit(c) || c == '_' || c == '-'
  }

  predicate IsLabel(l: string)
  {
    && 1 <= |l| <= 63
    && (forall c | c in l :: IsLabelChar(c))
    && l[0] != '-' && l[|l| - 1] != '-'
  }

  predicate AllDigits(s: string)
  {
    forall c | c in s :: IsDigit(c)
  }

  function StripDots(s: string): string
  {
    if s != "" && s[|s| - 1] == '.' then StripDots(s[..|s| - 1]) else s
  }

  function LowerChar(c: char): char
  {
    if 'A' <= c <= 'Z' then (c as int + 32) as char else c
  }

  function Lower(s: string): (t: string)
    ensures |t| == |s| && forall i | 0 <= i < |s| :: t[i] == LowerChar(s[i])
  {
    seq(|s|, i requires 0 <= i < |s| => LowerChar(s[i]))
  }

  // Every IPv6 literal holds a colon, and a name with a colon is refused as an address or for its
  // labels; both are the same exception.
  predicate IsIpLiteral(s: string)
  {
    || ':' in s
    || (var parts := Labels(s); |parts| == 4 && forall p | p in parts :: IsOctet(p))
  }

  predicate IsOctet(s: string)
  {
    && 1 <= |s| <= 3 && AllDigits(s)
    && (|s| > 1 ==> s[0] != '0')
    && DigitsValue(s) <= 255
  }

  // None where normalize_domain raises InvalidDomainError.
  function NormalizeDomain(value: string): Option<string>
  {
    var candidate := Lower(StripDots(Strip(value)));
    if candidate == "" then None
    else if '*' in candidate then None
    else if IsIpLiteral(candidate) then None
    else if !IsAscii(candidate) then None
    else
      var labels := Labels(candidate);
      if |labels| < 2 then None
      else if |candidate| > MAX_DOMAIN_LENGTH then None
      else if exists l :: l in labels && !IsLabel(l) then None
      else if AllDigits(labels[|labels| - 1]) then None
      else Some(candidate)
  }

  predicate Normalized(domain: string)
  {
    NormalizeDomain(domain) == Some(domain)
  }

  // What the result of normalization looks like (section 2.3.4 of RFC 1035 for the sizes).
  predicate IsDomainName(d: string)
  {
    var labels := Labels(d);
    && |labels| >= 2
    && |d| <= MAX_DOMAIN_LENGTH
    && (forall l | l in labels :: IsLabel(l))
    && !AllDigits(labels[|labels| - 1])
  }

  lemma {:induction false} DomainNameChars(d: string)
    requires IsDomainName(d)
    ensures d != "" && forall c | c in d :: IsLabelChar(c) || c == '.'
    ensures d[0] != '.' && d[|d| - 1] != '.'
  {
    var labels := Labels(d);
    JoinSplit(d, '.');
    forall c | c in d
      ensures IsLabelChar(c) || c == '.'
    {
      CharsOfJoin(labels, '.', c);
    }
    assert labels[0] in labels && labels[|labels| - 1] in labels;
    assert d[0] == labels[0][0] && IsLabelChar(labels[0][0]);
    assert labels == labels[..|labels| - 1] + [labels[|labels| - 1]];
    JoinConcat(labels[..|labels| - 1], [labels[|labels| - 1]], '.');
    var last := labels[|labels| - 1];
    assert d[|d| - 1] == last[|last| - 1];
    assert last[|last| - 1] in last;
  }

  // Normalization accepts a name unchanged exactly when it is a well-formed lower-case name.
  lemma {:induction false} NormalizedIff(d: string)
    ensures Normalized(d) <==> IsDomainName(d)
  {
    if IsDomainName(d) {
      DomainNameChars(d);
      assert d[0] in d && d[|d| - 1] in d;
      assert Strip(d) == d && StripDots(d) == d;
      forall i | 0 <= i < |d|
        ensures LowerChar(d[i]) == d[i]
      {
        assert d[i] in d;
      }
      assert Lower(d) == d;
      var labels := Labels(d);
      assert labels[|labels| - 1] in labels;
      assert !IsIpLiteral(d);
    }
  }

  // Every result of normalization is a fixed point of it, whatever text it was given.
  lemma {:induction false} NormalizeIsIdempotent(value: string)
    ensures NormalizeDomain(value).Some? ==> Normalized(NormalizeDomain(value).value)
  {
    if NormalizeDomain(value).Some? {
      NormalizedIff(NormalizeDomain(value).value);
    }
  }

  predicate AllDots(s: string)
  {
    forall i | 0 <= i < |s| :: s[i] == '.'
  }

  lemma {:induction false} StripDotsOf(s: string, dots: string)
    requires AllDots(dots) && (s != "" ==> s[|s| - 1] != '.')
    ensures StripDots(s + dots) == s
  {
    if dots == "" {
      assert s + dots == s;
    } else {
      var n := |dots| - 1;
      assert (s + dots)[..|s + dots| - 1] == s + dots[..n];
      StripDotsOf(s, dots[..n]);
    }
  }

  lemma {:induction false} StripDotsLeaves(s: string) returns (dots: string)
    ensures AllDots(dots) && s == StripDots(s) + dots
  {
    dots := "";
    if s != "" && s[|s| - 1] == '.' {
      var n := |s| - 1;
      dots := StripDotsLeaves(s[..n]);
      assert s == s[..n] + [s[n]];
      dots := dots + ".";
    }
  }

  // A text that names a domain: the name in any case, dots behind it, white space around.
  ghost predicate IsWrittenAs(d: string, value: string)
  {
    exists a, body, dots, b ::
      && value == a + (body + dots) + b && AllSpace(a) && AllSpace(b) && AllDots(dots)
      && |body| == |d| && forall i | 0 <= i < |d| :: LowerChar(body[i]) == d[i]
  }

  // Normalization accepts exactly the ways to write a domain name, and gives the name.
  lemma {:induction false} NormalizeIff(value: string, d: string)
    ensures NormalizeDomain(value) == Some(d) <==> IsDomainName(d) && IsWrittenAs(d, value)
  {
    if NormalizeDomain(value) == Some(d) {
      NormalizeIsIdempotent(value);
      NormalizedIff(d);
      var a, b := StripLeaves(value);
      var dots := StripDotsLeaves(Strip(value));
      assert value == a + (StripDots(Strip(value)) + dots) + b;
    }
    if IsDomainName(d) && IsWrittenAs(d, value) {
      WrittenNormalizes(value, d);
    }
  }

  lemma {:induction false} WrittenNormalizes(value: string, d: string)
    requires IsDomainName(d) && IsWrittenAs(d, value)
    ensures NormalizeDomain(value) == Some(d)
  {
    var a, body, dots, b :|
      && value == a + (body + dots) + b && AllSpace(a) && AllSpace(b) && AllDots(dots)
      && |body| == |d| && forall i | 0 <= i < |d| :: LowerChar(body[i]) == d[i];
    NormalizedIff(d);
    BodyIsTrim(d, body, dots);
    StripOf(a, body + dots, b);
    StripDotsOf(body, dots);
    assert Lower(body) == d;
    SameCandidate(value, d);
  }

  lemma {:induction false} BodyIsTrim(d: string, body: string, dots: string)
    requires IsDomainName(d) && AllDots(dots)
    requires |body| == |d| && forall i | 0 <= i < |d| :: LowerChar(body[i]) == d[i]
    ensures body != "" && body[|body| - 1] != '.' && IsTrim(body + dots)
  {
    DomainNameChars(d);
    var n := |d| - 1;
    assert d[0] in d && d[n] in d;
    assert LowerChar(body[0]) == d[0] && LowerChar(body[n]) == d[n];
    LowerSpares(body[0]);
    LowerSpares(body[n]);
    assert (body + dots)[0] == body[0];
  }

  // Lowering makes no letter out of white space or a dot.
  lemma {:induction false} LowerSpares(c: char)
    ensures IsLabelChar(LowerChar(c)) ==> !IsSpace(c) && c != '.'
    ensures LowerChar(c) == '.' <==> c == '.'
  {
  }

  lemma {:induction false} SameCandidate(value: string, d: string)
    requires Normalized(d) && Lower(StripDots(Strip(value))) == d
    ensures NormalizeDomain(value) == Some(d)
  {
    assert NormalizeDomain(d).Some?;
    assert Lower(StripDots(Strip(d))) == d;
  }

  // ------------------------------------------------------------------------- scopes

  predicate Covers(scope: string, includeSubdomains: bool, name: string)
  {
    name == scope || (includeSubdomains && EndsWith(name, "." + scope))
  }

  // `name` lies strictly below `scope`.
  predicate Below(name: string, scope: string)
  {
    EndsWith(name, "." + scope)
  }

  function Parent(domain: string, i: nat): string
    requires i < |Labels(domain)|
  {
    Join(Labels(domain)[i..], '.')
  }

  lemma {:induction false} ParentLabels(domain: string, i: nat)
    requires i < |Labels(domain)|
    ensures Labels(Parent(domain, i)) == Labels(domain)[i..]
  {
    SplitParts(domain, '.');
    SplitJoin(Labels(domain)[i..], '.');
  }

  lemma {:induction false} ParentZero(domain: string)
    ensures Parent(domain, 0) == domain
  {
    JoinSplit(domain, '.');
  }

  // Dropping i leading labels gives the names above `domain`, one per number of labels.
  lemma {:induction false} ParentIff(domain: string, a: string, i: nat)
    requires 1 <= i < |Labels(domain)|
    ensures a == Parent(domain, i) <==> (Below(domain, a) && |Labels(a)| == |Labels(domain)| - i)
  {
    EndsWithIsPartSuffix(domain, a, '.');
    ParentLabels(domain, i);
    JoinSplit(a, '.');
  }

  lemma {:induction false} BelowHasIndex(domain: string, a: string) returns (i: nat)
    requires Below(domain, a)
    ensures 1 <= i < |Labels(domain)| && a == Parent(domain, i) && |Labels(a)| == |Labels(domain)| - i
  {
    EndsWithIsPartSuffix(domain, a, '.');
    i := |Labels(domain)| - |Labels(a)|;
    ParentIff(domain, a, i);
  }

  // Two names that both stand at or above one name are equal, or one stands above the other.
  lemma {:induction false} ScopesAreComparable(name: string, a: string, b: string)
    requires name == a || Below(name, a)
    requires name == b || Below(name, b)
    ensures a == b || Below(a, b) || Below(b, a)
    ensures Below(a, b) ==> name != b
    ensures Below(b, a) ==> name != a
  {
    if name != a && name != b {
      assert a == ("." + a)[1..] && b == ("." + b)[1..];
      if |a| == |b| {
      } else if |a| < |b| {
        assert b[|b| - |"." + a|..] == "." + a;
      } else {
        assert a[|a| - |"." + b|..] == "." + b;
      }
    }
  }

  // A rule covers a name exactly when the name is the scope, or drops to it after some labels.
  lemma {:induction false} CoversByLabels(scope: string, includeSubdomains: bool, name: string)
    ensures Covers(scope, includeSubdomains, name) <==>
            exists i :: 0 <= i < |Labels(name)| && (i == 0 || includeSubdomains) && Parent(name, i) == scope
  {
    ParentZero(name);
    if includeSubdomains && Below(name, scope) {
      var i := BelowHasIndex(name, scope);
    }
    forall i | 1 <= i < |Labels(name)| && Parent(name, i) == scope
      ensures Below(name, scope)
    {
      ParentIff(name, scope, i);
    }
  }
}
