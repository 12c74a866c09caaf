/**
 The grammar behind the scanner: a subset of the extended regular expressions of section 9.4 of
 IEEE Std 1003.1-2017 (grammar in section 9.5.3), as syntax trees that print to patterns. A pattern
 passes the scan exactly when it is the printed form of a valid tree. The order of a range is left to the
 compilation after the scan: "[z-a]" passes (RegexLanguage.ReversedRangeIsAccepted).
 */
module RegexGrammar {
  import opened Wrappers
  import opened RegexScanner

  // Alternatives and pieces are never empty lists.
  datatype Regex = Only(branch: Branch) | Or(front: Regex, branch: Branch)
  datatype Branch = One(piece: Piece) | Then(before: Branch, piece: Piece)
  datatype Piece = Anchored(c: char) | Quantified(item: Item, quantity: Quantity)
  datatype Item = Literal(c: char) | Escaped(c: char) | Bracket(negated: bool, items: string) | Group(inner: Regex)
  datatype Quantity = Once | Repeat(c: char) | Interval(low: string, high: Option<string>)

  // -------------------------------------------------------------------------- printing

  function PrintRegex(r: Regex): string
  {
    match r
    case Only(b) => PrintBranch(b)
    case Or(front, b) => PrintRegex(front) + "|" + PrintBranch(b)
  }

  function PrintBranch(b: Branch): string
  {
    match b
    case One(p) => PrintPiece(p)
    case Then(before, p) => PrintBranch(before) + PrintPiece(p)
  }

  function PrintPiece(p: Piece): string
  {
    match p
    case Anchored(c) => [c]
    case Quantified(item, quantity) => PrintItem(item) + PrintQuantity(quantity)
  }

  function PrintItem(item: Item): string
  {
    match item
    case Literal(c) => [c]
    case Escaped(c) => ['\\', c]
    case Bracket(negated, items) => (if negated then "[^" else "[") + items + "]"
    case Group(inner) => "(" + PrintRegex(inner) + ")"
  }

  function PrintQuantity(q: Quantity): string
  {
    match q
    case Once => ""
    case Repeat(c) => [c]
    case Interval(low, high) => "{" + (low + IntervalTail(high))
  }

  function IntervalTail(high: Option<string>): string
  {
    if high.Some? then "," + (high.value + "}") else "}"
  }

  // -------------------------------------------------------------------------- validity

  predicate IsLiteral(c: char)
  {
    c !in {'*', '+', '?', '^', '$', '\\', '[', '(', ')', '|', '{', '}'}
  }

  predicate ValidItems(negated: bool, items: string)
  {
    && items != "" && (!negated ==> items[0] != '^')
    && (forall k | 0 < k < |items| :: items[k] != ']')
    && (forall k | 0 <= k < |items| :: items[k] != '\\' && !StartsClass(items, k))
  }

  predicate ValidQuantity(al: Alphabet, q: Quantity)
  {
    match q
    case Once => true
    case Repeat(c) => c in {'*', '+', '?'}
    case Interval(low, high) =>
      && low != "" && AllDigits(al, low) && (high.Some? ==> AllDigits(al, high.value))
      && Number(al, low) <= 255
      && (high.Some? && high.value != "" ==> Number(al, low) <= Number(al, high.value) <= 255)
  }

  predicate ValidItem(al: Alphabet, item: Item)
  {
    match item
    case Literal(c) => IsLiteral(c)
    case Escaped(c) => c in {'.', '^', '$', '|', '(', ')', '[', ']', '{', '}', '*', '+', '?', '\\', '/', '-'}
    case Bracket(negated, items) => ValidItems(negated, items)
    case Group(inner) => ValidRegex(al, inner)
  }

  predicate ValidPiece(al: Alphabet, p: Piece)
  {
    match p
    case Anchored(c) => c == '^' || c == '$'
    case Quantified(item, quantity) => ValidItem(al, item) && ValidQuantity(al, quantity)
  }

  predicate ValidBranch(al: Alphabet, b: Branch)
  {
    match b
    case One(p) => ValidPiece(al, p)
    case Then(before, p) => ValidBranch(al, before) && ValidPiece(al, p)
  }

  predicate ValidRegex(al: Alphabet, r: Regex)
  {
    match r
    case Only(b) => ValidBranch(al, b)
    case Or(front, b) => ValidRegex(al, front) && ValidBranch(al, b)
  }

  // ------------------------------------------------------------------- where a text stands

  predicate At(pattern: string, i: nat, text: string)
  {
    i + |text| <= |pattern| && pattern[i..i + |text|] == text
  }

  lemma {:induction false} AtSplit(pattern: string, i: nat, a: string, b: string)
    ensures At(pattern, i, a + b) <==> At(pattern, i, a) && At(pattern, i + |a|, b)
  {
    if i + |a| + |b| <= |pattern| {
      var whole := pattern[i..i + |a| + |b|];
      assert whole[..|a|] == pattern[i..i + |a|];
      assert whole[|a|..] == pattern[i + |a|..i + |a| + |b|];
      assert (a + b)[..|a|] == a && (a + b)[|a|..] == b;
      assert whole == whole[..|a|] + whole[|a|..];
    }
  }

  // -------------------------------------------------------------------- single items

  lemma {:induction false} BracketScans(pattern: string, i: nat, start: nat, items: string)
    requires At(pattern, start, items + "]")
    requires start <= i <= start + |items|
    requires forall k | i <= start + k < start + |items| :: items[k] != ']'
    requires forall k | i <= start + k < start + |items| :: items[k] != '\\' && !StartsClass(items, k)
    ensures BracketClose(pattern, i) == Some(start + |items|)
    decreases start + |items| - i
  {
    AtSplit(pattern, start, items, "]");
    var k := i - start;
    if k < |items| {
      assert pattern[i] == (items + "]")[k] == items[k];
      assert i + 1 < |pattern| && pattern[i + 1] == (items + "]")[k + 1];
      assert !StartsClass(pattern, i);
      BracketScans(pattern, i + 1, start, items);
    } else {
      assert pattern[i] == (items + "]")[|items|] == ']';
    }
  }

  lemma {:induction false} BracketIsRead(pattern: string, start: nat, negated: bool, items: string)
    requires ValidItems(negated, items)
    requires At(pattern, start, PrintItem(Bracket(negated, items)))
    ensures start < |pattern| && pattern[start] == '['
    ensures BracketEnd(pattern, start) == Some(start + |PrintItem(Bracket(negated, items))| - 1)
  {
    var head := if negated then "[^" else "[";
    var first := start + |head|;
    assert PrintItem(Bracket(negated, items)) == head + (items + "]");
    AtSplit(pattern, start, head, items + "]");
    assert pattern[start] == pattern[start..start + |head|][0] == '[';
    assert negated ==> pattern[start + 1] == pattern[start..start + |head|][1] == '^';
    assert pattern[first] == (items + "]")[0] == items[0];
    assert CaretEnd(pattern, start) == first;
    BracketScans(pattern, BracketFirst(pattern, start), first, items);
  }

  // What a closed bracket expression holds.
  lemma {:induction false} BracketHolds(pattern: string, i: nat)
    requires BracketClose(pattern, i).Some?
    ensures var e := BracketClose(pattern, i).value;
            && i <= e < |pattern| && pattern[e] == ']'
            && forall k | i <= k < e :: pattern[k] != ']' && pattern[k] != '\\' && !StartsClass(pattern, k)
    decreases |pattern| - i
  {
    BracketCloseBounds(pattern, i);
    if pattern[i] != ']' {
      BracketHolds(pattern, i + 1);
    }
  }

  lemma {:induction false} BracketReads(pattern: string, start: nat) returns (item: Item)
    requires start < |pattern| && pattern[start] == '[' && BracketEnd(pattern, start).Some?
    ensures item.Bracket? && ValidItems(item.negated, item.items)
    ensures At(pattern, start, PrintItem(item)) && |PrintItem(item)| == BracketEnd(pattern, start).value + 1 - start
  {
    var e := BracketEnd(pattern, start).value;
    var first := CaretEnd(pattern, start);
    BracketHolds(pattern, BracketFirst(pattern, start));
    var items := pattern[first..e];
    item := Bracket(first == start + 2, items);
    forall k | 0 <= k < |items|
      ensures items[k] == pattern[first + k]
      ensures items[k] != '\\' && !StartsClass(items, k)
      ensures k > 0 ==> items[k] != ']'
    {
      assert first + k >= BracketFirst(pattern, start) ==> !StartsClass(pattern, first + k);
    }
    assert pattern[start..e + 1] == pattern[start..first] + items + [pattern[e]];
    assert pattern[start..first] == if item.negated then "[^" else "[";
    assert PrintItem(item) == pattern[start..e + 1];
  }

  lemma {:induction false} DigitsAreRead(al: Alphabet, pattern: string, i: nat, digits: string)
    requires At(pattern, i, digits) && AllDigits(al, digits)
    requires i + |digits| < |pattern| && al.digit(pattern[i + |digits|]) < 0
    ensures DigitsEnd(al, pattern, i) == i + |digits|
    decreases |digits|
  {
    if digits != "" {
      assert pattern[i] == pattern[i..i + |digits|][0] == digits[0];
      assert pattern[i + 1..i + |digits|] == digits[1..];
      assert forall k | 0 <= k < |digits| - 1 :: digits[1..][k] == digits[k + 1];
      DigitsAreRead(al, pattern, i + 1, digits[1..]);
    }
  }

  lemma {:induction false} DigitsThen(al: Alphabet, pattern: string, i: nat, digits: string, tail: string)
    requires At(pattern, i, digits + tail) && AllDigits(al, digits) && tail != "" && al.digit(tail[0]) < 0
    ensures DigitsEnd(al, pattern, i) == i + |digits|
    ensures At(pattern, i, digits) && At(pattern, i + |digits|, tail) && pattern[i + |digits|] == tail[0]
  {
    AtSplit(pattern, i, digits, tail);
    assert pattern[i + |digits|] == pattern[i + |digits|..i + |digits| + |tail|][0];
    DigitsAreRead(al, pattern, i, digits);
  }

  lemma {:induction false} ExactIsRead(al: Alphabet, pattern: string, i: nat, low: string)
    requires IsAlphabet(al) && low != "" && AllDigits(al, low)
    requires At(pattern, i, "{" + (low + "}"))
    ensures i < |pattern| && pattern[i] == '{'
    ensures MatchInterval(al, pattern, i) == Some(IntervalMatch(low, None, i + |low| + 2))
  {
    AtSplit(pattern, i, "{", low + "}");
    assert pattern[i] == pattern[i..i + 1][0];
    DigitsThen(al, pattern, i + 1, low, "}");
  }

  lemma {:induction false} RangeIsRead(al: Alphabet, pattern: string, i: nat, low: string, high: string, tail: string)
    requires IsAlphabet(al) && low != "" && AllDigits(al, low) && AllDigits(al, high)
    requires tail == "," + (high + "}") && At(pattern, i, "{" + (low + tail))
    ensures i < |pattern| && pattern[i] == '{'
    ensures MatchInterval(al, pattern, i) == Some(IntervalMatch(low, Some(high), i + |low| + |high| + 3))
  {
    AtSplit(pattern, i, "{", low + tail);
    assert pattern[i] == pattern[i..i + 1][0];
    DigitsThen(al, pattern, i + 1, low, tail);
    UpperBoundIsRead(al, pattern, i, i + 1 + |low|, high);
  }

  lemma {:induction false} UpperBoundIsRead(al: Alphabet, pattern: string, i: nat, j: nat, high: string)
    requires IsAlphabet(al) && AllDigits(al, high) && At(pattern, j, "," + (high + "}"))
    requires i + 1 < j && pattern[i] == '{' && j == DigitsEnd(al, pattern, i + 1)
    ensures MatchInterval(al, pattern, i) == Some(IntervalMatch(pattern[i + 1..j], Some(high), j + |high| + 2))
  {
    CommaIsRead(pattern, j, high + "}");
    DigitsThen(al, pattern, j + 1, high, "}");
    RangeMatches(al, pattern, i, j, j + 1 + |high|);
  }

  lemma {:induction false} RangeMatches(al: Alphabet, pattern: string, i: nat, j: nat, k: nat)
    requires i + 1 < j < k < |pattern| && pattern[i] == '{' && pattern[j] == ',' && pattern[k] == '}'
    requires j == DigitsEnd(al, pattern, i + 1) && k == DigitsEnd(al, pattern, j + 1)
    ensures MatchInterval(al, pattern, i) == Some(IntervalMatch(pattern[i + 1..j], Some(pattern[j + 1..k]), k + 1))
  {
  }

  lemma {:induction false} CommaIsRead(pattern: string, j: nat, tail: string)
    requires At(pattern, j, "," + tail)
    ensures j < |pattern| && pattern[j] == ',' && At(pattern, j + 1, tail)
  {
    AtSplit(pattern, j, ",", tail);
    assert pattern[j] == pattern[j..j + 1][0];
  }

  lemma {:induction false} IntervalReads(al: Alphabet, pattern: string, i: nat) returns (q: Quantity)
    requires i < |pattern| && pattern[i] == '{' && MatchInterval(al, pattern, i).Some?
    ensures var m := MatchInterval(al, pattern, i).value;
            && q == Interval(m.low, m.high)
            && m.low != "" && AllDigits(al, m.low) && (m.high.Some? ==> AllDigits(al, m.high.value))
            && PrintQuantity(q) == pattern[i..m.end]
  {
    var m := MatchInterval(al, pattern, i).value;
    q := Interval(m.low, m.high);
    var j := DigitsEnd(al, pattern, i + 1);
    if pattern[j] == '}' {
      assert pattern[i..j + 1] == "{" + (m.low + "}");
    } else {
      var k := m.end - 1;
      assert pattern[j..k + 1] == "," + (m.high.value + "}");
      assert pattern[i..k + 1] == "{" + (m.low + pattern[j..k + 1]);
    }
  }
}
