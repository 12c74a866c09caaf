/**
 The scanner of portable regular expressions (core/regex.py): one pass from left to right with a depth
 counter and the kind of the previous item. Compiling the pattern and searching the empty string,
 which follow the scan, are not part of this model.
 */
module RegexScanner {
  import opened Wrappers

  // The character tables of the host language: upper case, and the value of a decimal digit (negative
  // for every other character).
  datatype Alphabet = Alphabet(isUpper: char -> bool, digit: char -> int)

  ghost predicate IsAlphabet(al: Alphabet)
  {
    && (forall c | '0' <= c <= '9' :: al.digit(c) == c as int - '0' as int)
    && al.digit(',') < 0 && al.digit('}') < 0
  }

  datatype Previous = AtStart | Atom | Anchor | Quantifier | Open | Alt

  const MAX_INTERVAL := 255

  predicate IsEscapable(c: char)
  {
    c in ".^$|()[]{}*+?\\/-"
  }

  predicate IsRepeat(c: char)
  {
    c == '*' || c == '+' || c == '?'
  }

  predicate IsAnchor(c: char)
  {
    c == '^' || c == '$'
  }

  // -------------------------------------------------------------------------- brackets

  predicate StartsClass(pattern: string, i: nat)
    requires i < |pattern|
  {
    pattern[i] == '[' && i + 1 < |pattern| && pattern[i + 1] in ":=."
  }

  // The closing bracket at or after i.
  function BracketClose(pattern: string, i: nat): Option<nat>
    decreases |pattern| - i
  {
    if i >= |pattern| then None
    else if pattern[i] == '\\' || StartsClass(pattern, i) then None
    else if pattern[i] == ']' then Some(i)
    else BracketClose(pattern, i + 1)
  }

  function CaretEnd(pattern: string, start: nat): nat
  {
    if start + 1 < |pattern| && pattern[start + 1] == '^' then start + 2 else start + 1
  }

  // A leading ']' is a literal.
  function BracketFirst(pattern: string, start: nat): nat
  {
    var i := CaretEnd(pattern, start);
    if i < |pattern| && pattern[i] == ']' then i + 1 else i
  }

  function BracketEnd(pattern: string, start: nat): (r: Option<nat>)
    ensures r.Some? ==> start < r.value < |pattern|
  {
    BracketCloseBounds(pattern, BracketFirst(pattern, start));
    BracketClose(pattern, BracketFirst(pattern, start))
  }

  lemma {:induction false} BracketCloseBounds(pattern: string, i: nat)
    ensures BracketClose(pattern, i).Some? ==> i <= BracketClose(pattern, i).value < |pattern|
    decreases |pattern| - i
  {
    if i < |pattern| {
      BracketCloseBounds(pattern, i + 1);
    }
  }

  // The branch of the source that reports an empty bracket expression is never taken.
  method FindBracketEnd(pattern: string, start: nat) returns (r: Option<nat>)
    requires start < |pattern|
    ensures r == BracketEnd(pattern, start)
  {
    var i := start + 1;
    if i < |pattern| && pattern[i] == '^' {
      i := i + 1;
    }
    if i < |pattern| && pattern[i] == ']' {
      i := i + 1;
    }
    while i < |pattern|
      invariant BracketFirst(pattern, start) <= i
      invariant BracketEnd(pattern, start) == BracketClose(pattern, i)
    {
      if pattern[i] == '\\' || StartsClass(pattern, i) {
        return None;
      }
      if pattern[i] == ']' {
        assert !(i == start + 1 || (i == start + 2 && pattern[start + 1] == '^'));
        return Some(i);
      }
      i := i + 1;
    }
    return None;
  }

  // -------------------------------------------------------------------------- intervals

  predicate AllDigits(al: Alphabet, s: string)
  {
    forall k | 0 <= k < |s| :: al.digit(s[k]) >= 0
  }

  function Number(al: Alphabet, s: string): int
  {
    if s == "" then 0 else 10 * Number(al, s[..|s| - 1]) + al.digit(s[|s| - 1])
  }

  function DigitsEnd(al: Alphabet, pattern: string, i: nat): (j: nat)
    requires i <= |pattern|
    ensures i <= j <= |pattern|
    ensures AllDigits(al, pattern[i..j])
    ensures j < |pattern| ==> al.digit(pattern[j]) < 0
    decreases |pattern| - i
  {
    if i < |pattern| && al.digit(pattern[i]) >= 0 then
      var j := DigitsEnd(al, pattern, i + 1);
      assert forall k | 0 < k < j - i :: pattern[i..j][k] == pattern[i + 1..j][k - 1];
      j
    else i
  }

  // high is None without a comma, and empty for an open interval.
  datatype IntervalMatch = IntervalMatch(low: string, high: Option<string>, end: nat)

  function MatchInterval(al: Alphabet, pattern: string, i: nat): (m: Option<IntervalMatch>)
    requires i < |pattern| && pattern[i] == '{'
    ensures m.Some? ==> i < m.value.end <= |pattern|
  {
    var j := DigitsEnd(al, pattern, i + 1);
    if j == i + 1 || j == |pattern| then None
    else if pattern[j] == '}' then Some(IntervalMatch(pattern[i + 1..j], None, j + 1))
    else if pattern[j] == ',' then
      var k := DigitsEnd(al, pattern, j + 1);
      if k < |pattern| && pattern[k] == '}' then
        Some(IntervalMatch(pattern[i + 1..j], Some(pattern[j + 1..k]), k + 1))
      else None
    else None
  }

  predicate BoundsAreValid(al: Alphabet, low: string, high: Option<string>)
  {
    && Number(al, low) <= MAX_INTERVAL
    && (high.Some? && high.value != "" ==> Number(al, low) <= Number(al, high.value) <= MAX_INTERVAL)
  }

  // -------------------------------------------------------------------------- the scan

  datatype Position = Position(i: nat, depth: nat, previous: Previous)

  // One item of the pattern; None rejects it.
  function Step(al: Alphabet, pattern: string, p: Position): (q: Option<Position>)
    requires p.i < |pattern|
    ensures q.Some? ==> p.i < q.value.i <= |pattern|
  {
    var i, c := p.i, pattern[p.i];
    if c == '\\' then
      if i + 1 < |pattern| && IsEscapable(pattern[i + 1]) then Some(Position(i + 2, p.depth, Atom)) else None
    else if c == '[' then
      var e := BracketEnd(pattern, i);
      if e.Some? then Some(Position(e.value + 1, p.depth, Atom)) else None
    else if c == '(' then
      if i + 1 < |pattern| && pattern[i + 1] == '?' then None else Some(Position(i + 1, p.depth + 1, Open))
    else if c == ')' then
      if p.depth == 0 || p.previous == Open || p.previous == Alt then None
      else Some(Position(i + 1, p.depth - 1, Atom))
    else if c == '|' then
      if p.previous == AtStart || p.previous == Open || p.previous == Alt then None
      else Some(Position(i + 1, p.depth, Alt))
    else if IsRepeat(c) then
      if p.previous == Atom then Some(Position(i + 1, p.depth, Quantifier)) else None
    else if c == '{' then
      var m := MatchInterval(al, pattern, i);
      if p.previous == Atom && m.Some? && BoundsAreValid(al, m.value.low, m.value.high)
      then Some(Position(m.value.end, p.depth, Quantifier)) else None
    else if c == '}' then None
    else Some(Position(i + 1, p.depth, if IsAnchor(c) then Anchor else Atom))
  }

  predicate Scan(al: Alphabet, pattern: string, p: Position)
    requires p.i <= |pattern|
    decreases |pattern| - p.i
  {
    if p.i == |pattern| then p.depth == 0 && p.previous != Alt
    else
      var q := Step(al, pattern, p);
      q.Some? && Scan(al, pattern, q.value)
  }

  predicate HasUpper(al: Alphabet, pattern: string)
  {
    exists k :: 0 <= k < |pattern| && al.isUpper(pattern[k])
  }

  predicate Accepts(al: Alphabet, pattern: string)
  {
    pattern != "" && !HasUpper(al, pattern) && Scan(al, pattern, Position(0, 0, AtStart))
  }

  method Validate(al: Alphabet, pattern: string) returns (accepted: bool)
    ensures accepted == Accepts(al, pattern)
  {
    if pattern == "" || HasUpper(al, pattern) {
      return false;
    }
    var p := Position(0, 0, AtStart);
    while p.i < |pattern|
      invariant p.i <= |pattern|
      invariant Scan(al, pattern, p) == Scan(al, pattern, Position(0, 0, AtStart))
      decreases |pattern| - p.i
    {
      var next := ScanItem(al, pattern, p);
      if next.None? {
        return false;
      }
      p := next.value;
    }
    return p.depth == 0 && p.previous != Alt;
  }

  // The body of the loop.
  method ScanItem(al: Alphabet, pattern: string, p: Position) returns (next: Option<Position>)
    requires p.i < |pattern|
    ensures next == Step(al, pattern, p)
  {
    var i, depth, previous := p.i, p.depth, p.previous;
    var c := pattern[i];
    if c == '\\' {
      if i + 1 >= |pattern| || !IsEscapable(pattern[i + 1]) {
        return None;
      }
      previous, i := Atom, i + 2;
    } else if c == '[' {
      var end := FindBracketEnd(pattern, i);
      if end.None? {
        return None;
      }
      i, previous := end.value + 1, Atom;
    } else if c == '(' {
      if i + 1 < |pattern| && pattern[i + 1] == '?' {
        return None;
      }
      depth, previous, i := depth + 1, Open, i + 1;
    } else if c == ')' {
      if depth == 0 || previous == Open || previous == Alt {
        return None;
      }
      depth, previous, i := depth - 1, Atom, i + 1;
    } else if c == '|' {
      if previous == AtStart || previous == Open || previous == Alt {
        return None;
      }
      previous, i := Alt, i + 1;
    } else if IsRepeat(c) || c == '{' {
      if previous != Atom {
        return None;
      }
      if c == '{' {
        var m := MatchInterval(al, pattern, i);
        if m.None? || !BoundsAreValid(al, m.value.low, m.value.high) {
          return None;
        }
        i := m.value.end;
      } else {
        i := i + 1;
      }
      previous := Quantifier;
    } else if c == '}' {
      return None;
    } else {
      previous, i := if IsAnchor(c) then Anchor else Atom, i + 1;
    }
    return Some(Position(i, depth, previous));
  }
}
