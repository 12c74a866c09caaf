/**
 The scan accepts exactly the language of the grammar.
 */
module RegexLanguage {
  import opened Wrappers
  import opened Strings
  import opened RegexScanner
  import opened RegexGrammar

  // ------------------------------------------------------------- every valid tree is accepted

  function AfterPiece(p: Piece): Previous
  {
    match p
    case Anchored(_) => Anchor
    case Quantified(_, quantity) => if quantity.Once? then Atom else Quantifier
  }

  function AfterRegex(r: Regex): Previous
  {
    AfterPiece(r.branch.piece)
  }

  // What a step of the scan does not change. The lemmas below hold for anything of that kind; the
  // verdict of the scan is one.
  ghost predicate StepKeeps(f: Position -> bool, al: Alphabet, pattern: string)
  {
    forall p: Position, q: Position {:trigger Step(al, pattern, p), f(q)} ::
      p.i < |pattern| && Step(al, pattern, p) == Some(q) ==> f(p) == f(q)
  }

  ghost predicate Leads(f: Position -> bool, pattern: string, p: Position, q: Position)
  {
    p.i <= |pattern| && q.i <= |pattern| && f(p) == f(q)
  }

  lemma {:induction false} PrintsNotEmpty(al: Alphabet, r: Regex)
    requires ValidRegex(al, r)
    ensures PrintRegex(r) != "" && PrintRegex(r)[0] != '?'
    decreases r
  {
    match r
    case Only(b) => BranchNotEmpty(al, b);
    case Or(front, _) => PrintsNotEmpty(al, front);
  }

  lemma {:induction false} BranchNotEmpty(al: Alphabet, b: Branch)
    requires ValidBranch(al, b)
    ensures PrintBranch(b) != "" && PrintBranch(b)[0] != '?'
    decreases b
  {
    match b
    case One(p) => PieceNotEmpty(al, p);
    case Then(before, _) => BranchNotEmpty(al, before);
  }

  lemma {:induction false} PieceNotEmpty(al: Alphabet, p: Piece)
    requires ValidPiece(al, p)
    ensures PrintPiece(p) != "" && PrintPiece(p)[0] != '?'
  {
    if p.Quantified? {
      assert PrintItem(p.item) != "" && PrintItem(p.item)[0] != '?';
    }
  }

  lemma {:induction false} FirstAt(pattern: string, i: nat, text: string)
    requires At(pattern, i, text) && text != ""
    ensures i < |pattern| && pattern[i] == text[0]
  {
    assert pattern[i] == pattern[i..i + |text|][0];
  }

  lemma {:induction false} RegexScans(f: Position -> bool, al: Alphabet, pattern: string, p: Position, r: Regex)
    requires StepKeeps(f, al, pattern) && IsAlphabet(al) && ValidRegex(al, r) && At(pattern, p.i, PrintRegex(r))
    ensures Leads(f, pattern, p, Position(p.i + |PrintRegex(r)|, p.depth, AfterRegex(r)))
    decreases r, 0
  {
    match r
    case Only(b) => BranchScans(f, al, pattern, p, b);
    case Or(front, b) =>
      var i := p.i + |PrintRegex(front)|;
      SplitBar(pattern, p.i, PrintRegex(front), PrintBranch(b));
      RegexScans(f, al, pattern, p, front);
      BarThenBranch(f, al, pattern, Position(i, p.depth, AfterRegex(front)), b);
  }

  lemma {:induction false} BarThenBranch(f: Position -> bool, al: Alphabet, pattern: string, p: Position, b: Branch)
    requires StepKeeps(f, al, pattern) && IsAlphabet(al) && ValidBranch(al, b)
    requires At(pattern, p.i, "|") && At(pattern, p.i + 1, PrintBranch(b))
    requires p.previous == Atom || p.previous == Anchor || p.previous == Quantifier
    ensures Leads(f, pattern, p, Position(p.i + 1 + |PrintBranch(b)|, p.depth, AfterPiece(b.piece)))
    decreases b, 1
  {
    BarScans(f, al, pattern, p);
    BranchScans(f, al, pattern, Position(p.i + 1, p.depth, Alt), b);
  }

  lemma {:induction false} SplitBar(pattern: string, i: nat, a: string, b: string)
    requires At(pattern, i, a + "|" + b)
    ensures At(pattern, i, a) && At(pattern, i + |a|, "|") && At(pattern, i + |a| + 1, b)
    ensures |a + "|" + b| == |a| + 1 + |b|
  {
    AtSplit(pattern, i, a + "|", b);
    AtSplit(pattern, i, a, "|");
  }

  lemma {:induction false} BarScans(f: Position -> bool, al: Alphabet, pattern: string, p: Position)
    requires StepKeeps(f, al, pattern) && At(pattern, p.i, "|")
    requires p.previous == Atom || p.previous == Anchor || p.previous == Quantifier
    ensures Leads(f, pattern, p, Position(p.i + 1, p.depth, Alt))
  {
    FirstAt(pattern, p.i, "|");
    assert Step(al, pattern, p) == Some(Position(p.i + 1, p.depth, Alt));
  }

  lemma {:induction false} BranchScans(f: Position -> bool, al: Alphabet, pattern: string, p: Position, b: Branch)
    requires StepKeeps(f, al, pattern) && IsAlphabet(al) && ValidBranch(al, b) && At(pattern, p.i, PrintBranch(b))
    ensures Leads(f, pattern, p, Position(p.i + |PrintBranch(b)|, p.depth, AfterPiece(b.piece)))
    decreases b, 0
  {
    match b
    case One(piece) => PieceScans(f, al, pattern, p, piece);
    case Then(before, piece) =>
      AtSplit(pattern, p.i, PrintBranch(before), PrintPiece(piece));
      BranchScans(f, al, pattern, p, before);
      PieceScans(f, al, pattern, Position(p.i + |PrintBranch(before)|, p.depth, AfterPiece(before.piece)), piece);
  }

  lemma {:induction false} PieceScans(f: Position -> bool, al: Alphabet, pattern: string, p: Position, piece: Piece)
    requires StepKeeps(f, al, pattern) && IsAlphabet(al) && ValidPiece(al, piece) && At(pattern, p.i, PrintPiece(piece))
    ensures Leads(f, pattern, p, Position(p.i + |PrintPiece(piece)|, p.depth, AfterPiece(piece)))
    decreases piece
  {
    match piece
    case Anchored(c) =>
      FirstAt(pattern, p.i, [c]);
      assert Step(al, pattern, p) == Some(Position(p.i + 1, p.depth, Anchor));
    case Quantified(item, quantity) =>
      AtSplit(pattern, p.i, PrintItem(item), PrintQuantity(quantity));
      ItemScans(f, al, pattern, p, item);
      QuantityScans(f, al, pattern, Position(p.i + |PrintItem(item)|, p.depth, Atom), quantity);
  }

  lemma {:induction false} QuantityScans(f: Position -> bool, al: Alphabet, pattern: string, p: Position, q: Quantity)
    requires StepKeeps(f, al, pattern) && IsAlphabet(al) && ValidQuantity(al, q)
    requires At(pattern, p.i, PrintQuantity(q)) && p.previous == Atom
    ensures Leads(f, pattern, p,
                  Position(p.i + |PrintQuantity(q)|, p.depth, if q.Once? then Atom else Quantifier))
  {
    match q
    case Once =>
    case Repeat(c) =>
      FirstAt(pattern, p.i, [c]);
      assert Step(al, pattern, p) == Some(Position(p.i + 1, p.depth, Quantifier));
    case Interval(low, high) => IntervalScans(f, al, pattern, p, low, high);
  }

  lemma {:induction false} IntervalScans(
    f: Position -> bool, al: Alphabet, pattern: string, p: Position, low: string, high: Option<string>)
    requires StepKeeps(f, al, pattern) && IsAlphabet(al) && ValidQuantity(al, Interval(low, high)) && p.previous == Atom
    requires At(pattern, p.i, PrintQuantity(Interval(low, high)))
    ensures Leads(f, pattern, p, Position(p.i + |PrintQuantity(Interval(low, high))|, p.depth, Quantifier))
  {
    if high.Some? {
      RangeIsRead(al, pattern, p.i, low, high.value, IntervalTail(high));
    } else {
      ExactIsRead(al, pattern, p.i, low);
    }
    assert Step(al, pattern, p) == Some(Position(p.i + |PrintQuantity(Interval(low, high))|, p.depth, Quantifier));
  }

  lemma {:induction false} ItemScans(f: Position -> bool, al: Alphabet, pattern: string, p: Position, item: Item)
    requires StepKeeps(f, al, pattern) && IsAlphabet(al) && ValidItem(al, item) && At(pattern, p.i, PrintItem(item))
    ensures Leads(f, pattern, p, Position(p.i + |PrintItem(item)|, p.depth, Atom))
    decreases item
  {
    match item
    case Literal(c) =>
      FirstAt(pattern, p.i, [c]);
      assert Step(al, pattern, p) == Some(Position(p.i + 1, p.depth, Atom));
    case Escaped(c) =>
      assert pattern[p.i] == pattern[p.i..p.i + 2][0] && pattern[p.i + 1] == pattern[p.i..p.i + 2][1];
      assert Step(al, pattern, p) == Some(Position(p.i + 2, p.depth, Atom));
    case Bracket(negated, items) =>
      BracketIsRead(pattern, p.i, negated, items);
      assert Step(al, pattern, p) == Some(Position(p.i + |PrintItem(item)|, p.depth, Atom));
    case Group(inner) => GroupScans(f, al, pattern, p, inner);
  }

  lemma {:induction false} GroupScans(f: Position -> bool, al: Alphabet, pattern: string, p: Position, inner: Regex)
    requires StepKeeps(f, al, pattern) && IsAlphabet(al) && ValidRegex(al, inner) && At(pattern, p.i, PrintItem(Group(inner)))
    ensures Leads(f, pattern, p, Position(p.i + |PrintItem(Group(inner))|, p.depth, Atom))
    decreases inner, 1
  {
    var text := PrintRegex(inner);
    AtSplit(pattern, p.i, "(" + text, ")");
    AtSplit(pattern, p.i, "(", text);
    PrintsNotEmpty(al, inner);
    FirstAt(pattern, p.i, "(");
    FirstAt(pattern, p.i + 1, text);
    assert Step(al, pattern, p) == Some(Position(p.i + 1, p.depth + 1, Open));
    RegexScans(f, al, pattern, Position(p.i + 1, p.depth + 1, Open), inner);
    var q := Position(p.i + 1 + |text|, p.depth + 1, AfterRegex(inner));
    FirstAt(pattern, q.i, ")");
    assert Step(al, pattern, q) == Some(Position(q.i + 1, p.depth, Atom));
  }

  // ------------------------------------------------------- everything accepted has a tree

  // An open group, or the whole pattern: the finished branches, each followed by a bar, and the
  // branch in progress.
  datatype Frame = Frame(finished: Option<Regex>, current: Option<Branch>)

  const EMPTY_FRAME := Frame(None, None)

  function FrameText(f: Frame): string
  {
    FinishedText(f) + CurrentText(f)
  }

  // The pattern read so far: the frames, innermost last, with the open parentheses between them.
  function StackText(below: seq<Frame>, top: Frame): string
  {
    if below == [] then FrameText(top) else StackText(below[..|below| - 1], below[|below| - 1]) + "(" + FrameText(top)
  }

  predicate ValidFrame(al: Alphabet, f: Frame)
  {
    && (f.finished.Some? ==> ValidRegex(al, f.finished.value))
    && (f.current.Some? ==> ValidBranch(al, f.current.value))
  }

  function TagOf(f: Frame, depth: nat): Previous
  {
    if f.current.Some? then AfterPiece(f.current.value.piece)
    else if f.finished.Some? then Alt
    else if depth == 0 then AtStart else Open
  }

  ghost predicate Parses(al: Alphabet, pattern: string, p: Position, below: seq<Frame>, top: Frame)
  {
    && p.i <= |pattern| && StackText(below, top) == pattern[..p.i]
    && p.depth == |below| && p.previous == TagOf(top, p.depth)
    && ValidFrame(al, top) && (forall f | f in below :: ValidFrame(al, f))
  }

  function AddPiece(f: Frame, piece: Piece): Frame
  {
    f.(current := Some(if f.current.Some? then Then(f.current.value, piece) else One(piece)))
  }

  // The tree of a frame whose last branch is not empty.
  function Finish(f: Frame): Regex
    requires f.current.Some?
  {
    if f.finished.Some? then Or(f.finished.value, f.current.value) else Only(f.current.value)
  }

  lemma {:induction false} Regroup(a: string, b: string, c: string)
    ensures a + (b + c) == a + b + c
  {
  }

  function FinishedText(f: Frame): string
  {
    if f.finished.Some? then PrintRegex(f.finished.value) + "|" else ""
  }

  function CurrentText(f: Frame): string
  {
    if f.current.Some? then PrintBranch(f.current.value) else ""
  }

  // A frame that grows at its end makes the text of the stack grow at its end.
  lemma {:induction false} StackGrows(below: seq<Frame>, f: Frame, g: Frame, more: string)
    requires FrameText(g) == FrameText(f) + more
    ensures StackText(below, g) == StackText(below, f) + more
  {
    if below != [] {
      Regroup(StackText(below[..|below| - 1], below[|below| - 1]) + "(", FrameText(f), more);
    }
  }

  lemma {:induction false} BranchGrows(f: Frame, g: Frame, more: string)
    requires f.finished == g.finished && CurrentText(g) == CurrentText(f) + more
    ensures FrameText(g) == FrameText(f) + more
  {
    Regroup(FinishedText(f), CurrentText(f), more);
  }

  lemma {:induction false} AddPieceText(below: seq<Frame>, f: Frame, piece: Piece)
    ensures StackText(below, AddPiece(f, piece)) == StackText(below, f) + PrintPiece(piece)
  {
    assert "" + PrintPiece(piece) == PrintPiece(piece);
    BranchGrows(f, AddPiece(f, piece), PrintPiece(piece));
    StackGrows(below, f, AddPiece(f, piece), PrintPiece(piece));
  }

  lemma {:induction false} AddPieceValid(al: Alphabet, f: Frame, piece: Piece)
    requires ValidFrame(al, f) && ValidPiece(al, piece)
    ensures ValidFrame(al, AddPiece(f, piece))
  {
  }

  lemma {:induction false} PieceParses(
    al: Alphabet, pattern: string, p: Position, below: seq<Frame>, top: Frame, piece: Piece, next: nat)
    requires Parses(al, pattern, p, below, top) && ValidPiece(al, piece)
    requires p.i <= next <= |pattern| && pattern[p.i..next] == PrintPiece(piece)
    ensures Parses(al, pattern, Position(next, p.depth, AfterPiece(piece)), below, AddPiece(top, piece))
  {
    AddPieceText(below, top, piece);
    AddPieceValid(al, top, piece);
    ReadOn(pattern, p.i, next, StackText(below, top), StackText(below, AddPiece(top, piece)), PrintPiece(piece));
  }

  lemma {:induction false} OneItem(pattern: string, i: nat)
    requires i < |pattern|
    ensures pattern[i..i + 1] == [pattern[i]]
  {
  }

  // The text read so far grows by what was read.
  lemma {:induction false} ReadOn(pattern: string, i: nat, next: nat, before: string, after: string, more: string)
    requires i <= next <= |pattern| && pattern[i..next] == more
    requires before == pattern[..i] && after == before + more
    ensures after == pattern[..next]
  {
  }

  lemma {:induction false} OpenParses(al: Alphabet, pattern: string, p: Position, below: seq<Frame>, top: Frame)
    requires Parses(al, pattern, p, below, top) && p.i < |pattern| && pattern[p.i] == '('
    ensures Parses(al, pattern, Position(p.i + 1, p.depth + 1, Open), below + [top], EMPTY_FRAME)
  {
    assert (below + [top])[..|below|] == below;
    OneItem(pattern, p.i);
    ReadOn(pattern, p.i, p.i + 1, StackText(below, top), StackText(below + [top], EMPTY_FRAME), "(");
  }

  lemma {:induction false} FinishText(f: Frame)
    requires f.current.Some?
    ensures PrintRegex(Finish(f)) == FrameText(f)
  {
  }

  lemma {:induction false} CloseParses(al: Alphabet, pattern: string, p: Position, below: seq<Frame>, top: Frame)
    requires Parses(al, pattern, p, below, top) && p.i < |pattern| && pattern[p.i] == ')'
    requires below != [] && top.current.Some?
    ensures Parses(al, pattern, Position(p.i + 1, p.depth - 1, Atom), below[..|below| - 1],
                   AddPiece(below[|below| - 1], Quantified(Group(Finish(top)), Once)))
  {
    var under, f := below[..|below| - 1], below[|below| - 1];
    CloseText(under, f, below, top);
    OneItem(pattern, p.i);
    var piece := Quantified(Group(Finish(top)), Once);
    ReadOn(pattern, p.i, p.i + 1, StackText(below, top), StackText(under, AddPiece(f, piece)), ")");
    assert ValidRegex(al, Finish(top));
    assert ValidItem(al, Group(Finish(top)));
    AddPieceValid(al, below[|below| - 1], Quantified(Group(Finish(top)), Once));
    assert forall f | f in below[..|below| - 1] :: f in below;
  }

  lemma {:induction false} CloseText(under: seq<Frame>, f: Frame, below: seq<Frame>, top: Frame)
    requires top.current.Some? && below != [] && under == below[..|below| - 1] && f == below[|below| - 1]
    ensures StackText(under, AddPiece(f, Quantified(Group(Finish(top)), Once))) == StackText(below, top) + ")"
  {
    var piece := Quantified(Group(Finish(top)), Once);
    FinishText(top);
    AddPieceText(under, f, piece);
    GroupText(Finish(top));
    Rebracket(StackText(under, f), FrameText(top));
  }

  lemma {:induction false} GroupText(inner: Regex)
    ensures PrintPiece(Quantified(Group(inner), Once)) == "(" + PrintRegex(inner) + ")"
  {
  }

  lemma {:induction false} Rebracket(a: string, b: string)
    ensures a + ("(" + b + ")") == a + "(" + b + ")"
  {
  }

  lemma {:induction false} AltParses(al: Alphabet, pattern: string, p: Position, below: seq<Frame>, top: Frame)
    requires Parses(al, pattern, p, below, top) && p.i < |pattern| && pattern[p.i] == '|' && top.current.Some?
    ensures Parses(al, pattern, Position(p.i + 1, p.depth, Alt), below, Frame(Some(Finish(top)), None))
  {
    FinishText(top);
    var next := Frame(Some(Finish(top)), None);
    assert FrameText(next) == FrameText(top) + "|" + "";
    StackGrows(below, top, next, "|");
    OneItem(pattern, p.i);
    ReadOn(pattern, p.i, p.i + 1, StackText(below, top), StackText(below, next), "|");
  }

  // The last piece, still without a quantifier, gets one.
  function QuantifyBranch(b: Branch, q: Quantity): Branch
    requires b.piece.Quantified?
  {
    var piece := Quantified(b.piece.item, q);
    if b.One? then One(piece) else Then(b.before, piece)
  }

  function Quantify(f: Frame, q: Quantity): Frame
    requires f.current.Some? && f.current.value.piece.Quantified?
  {
    f.(current := Some(QuantifyBranch(f.current.value, q)))
  }

  lemma {:induction false} OnceAddsNothing(item: Item)
    ensures PrintPiece(Quantified(item, Once)) == PrintItem(item)
  {
    assert PrintItem(item) + "" == PrintItem(item);
  }

  lemma {:induction false} QuantifyBranchText(b: Branch, q: Quantity)
    requires b.piece.Quantified? && b.piece.quantity.Once?
    ensures PrintBranch(QuantifyBranch(b, q)) == PrintBranch(b) + PrintQuantity(q)
  {
    var item := b.piece.item;
    assert b.piece == Quantified(item, Once);
    OnceAddsNothing(item);
    if b.One? {
      assert PrintBranch(b) == PrintItem(item);
    } else {
      assert PrintBranch(b) == PrintBranch(b.before) + PrintItem(item);
      Regroup(PrintBranch(b.before), PrintItem(item), PrintQuantity(q));
    }
  }

  lemma {:induction false} QuantifyText(below: seq<Frame>, f: Frame, q: Quantity)
    requires f.current.Some? && f.current.value.piece.Quantified? && f.current.value.piece.quantity.Once?
    ensures StackText(below, Quantify(f, q)) == StackText(below, f) + PrintQuantity(q)
  {
    QuantifyBranchText(f.current.value, q);
    BranchGrows(f, Quantify(f, q), PrintQuantity(q));
    StackGrows(below, f, Quantify(f, q), PrintQuantity(q));
  }

  lemma {:induction false} QuantifierParses(
    al: Alphabet, pattern: string, p: Position, below: seq<Frame>, top: Frame, q: Quantity, next: nat)
    requires Parses(al, pattern, p, below, top) && p.previous == Atom && ValidQuantity(al, q) && !q.Once?
    requires p.i <= next <= |pattern| && pattern[p.i..next] == PrintQuantity(q)
    ensures top.current.Some? && top.current.value.piece.Quantified?
    ensures Parses(al, pattern, Position(next, p.depth, Quantifier), below, Quantify(top, q))
  {
    QuantifyText(below, top, q);
    var branch := top.current.value;
    assert ValidBranch(al, branch) ==> ValidPiece(al, branch.piece);
    assert ValidPiece(al, Quantified(branch.piece.item, q));
    assert branch.Then? ==> ValidBranch(al, branch.before);
    ReadOn(pattern, p.i, next, StackText(below, top), StackText(below, Quantify(top, q)), PrintQuantity(q));
  }

  // One step of the scan is one step of the parser.
  lemma {:induction false} StepParses(al: Alphabet, pattern: string, p: Position, below: seq<Frame>, top: Frame)
    returns (below': seq<Frame>, top': Frame)
    requires Parses(al, pattern, p, below, top) && p.i < |pattern| && Step(al, pattern, p).Some?
    ensures Parses(al, pattern, Step(al, pattern, p).value, below', top')
  {
    var i, c, q := p.i, pattern[p.i], Step(al, pattern, p).value;
    below' := below;
    if c == '(' {
      OpenParses(al, pattern, p, below, top);
      below', top' := below + [top], EMPTY_FRAME;
    } else if c == ')' {
      CloseParses(al, pattern, p, below, top);
      below' := below[..|below| - 1];
      top' := AddPiece(below[|below| - 1], Quantified(Group(Finish(top)), Once));
    } else if c == '|' {
      AltParses(al, pattern, p, below, top);
      top' := Frame(Some(Finish(top)), None);
    } else if IsRepeat(c) {
      OneItem(pattern, i);
      QuantifierParses(al, pattern, p, below, top, Repeat(c), i + 1);
      top' := Quantify(top, Repeat(c));
    } else if c == '{' {
      var quantity := IntervalReads(al, pattern, i);
      QuantifierParses(al, pattern, p, below, top, quantity, q.i);
      top' := Quantify(top, quantity);
    } else {
      var piece := ReadPiece(al, pattern, p);
      PieceParses(al, pattern, p, below, top, piece, q.i);
      top' := AddPiece(top, piece);
    }
  }

  // The piece of a step that is neither a parenthesis, a bar nor a quantifier.
  lemma {:induction false} ReadPiece(al: Alphabet, pattern: string, p: Position) returns (piece: Piece)
    requires p.i < |pattern| && Step(al, pattern, p).Some?
    requires var c := pattern[p.i]; c != '(' && c != ')' && c != '|' && c != '{' && !IsRepeat(c)
    ensures ValidPiece(al, piece) && pattern[p.i..Step(al, pattern, p).value.i] == PrintPiece(piece)
    ensures Step(al, pattern, p).value == Position(Step(al, pattern, p).value.i, p.depth, AfterPiece(piece))
  {
    var i, c := p.i, pattern[p.i];
    if c == '\\' {
      piece := Quantified(Escaped(pattern[i + 1]), Once);
      assert pattern[i..i + 2] == ['\\', pattern[i + 1]];
    } else if c == '[' {
      var item := BracketReads(pattern, i);
      piece := Quantified(item, Once);
      assert PrintPiece(piece) == PrintItem(item);
    } else {
      piece := if IsAnchor(c) then Anchored(c) else Quantified(Literal(c), Once);
      OneItem(pattern, i);
    }
  }

  lemma {:induction false} ScanParses(al: Alphabet, pattern: string, p: Position, below: seq<Frame>, top: Frame)
    returns (r: Regex)
    requires Parses(al, pattern, p, below, top) && Scan(al, pattern, p)
    requires p.i < |pattern| || top != EMPTY_FRAME
    ensures ValidRegex(al, r) && PrintRegex(r) == pattern
    decreases |pattern| - p.i
  {
    if p.i == |pattern| {
      assert pattern[..p.i] == pattern;
      FinishText(top);
      r := Finish(top);
    } else {
      var below', top' := StepParses(al, pattern, p, below, top);
      var q := Step(al, pattern, p).value;
      r := ScanParses(al, pattern, q, below', top');
    }
  }

  // -------------------------------------------------------------------------- the theorem

  ghost predicate IsPortable(al: Alphabet, pattern: string)
  {
    exists r :: ValidRegex(al, r) && PrintRegex(r) == pattern
  }

  ghost function ScanFrom(al: Alphabet, pattern: string): Position -> bool
  {
    (p: Position) => p.i <= |pattern| && Scan(al, pattern, p)
  }

  lemma {:induction false} ScanIsKept(al: Alphabet, pattern: string)
    ensures StepKeeps(ScanFrom(al, pattern), al, pattern)
  {
  }

  // The scan accepts a pattern exactly when it is the printed form of a valid tree without upper-case
  // letters.
  lemma {:induction false} AcceptsExactlyTheGrammar(al: Alphabet, pattern: string)
    requires IsAlphabet(al)
    ensures Accepts(al, pattern) <==> IsPortable(al, pattern) && forall c | c in pattern :: !al.isUpper(c)
  {
    var start := Position(0, 0, AtStart);
    if Accepts(al, pattern) {
      assert StackText([], EMPTY_FRAME) == "" == pattern[..0];
      var r := ScanParses(al, pattern, start, [], EMPTY_FRAME);
    }
    if IsPortable(al, pattern) {
      var r :| ValidRegex(al, r) && PrintRegex(r) == pattern;
      PrintsNotEmpty(al, r);
      assert pattern[0..0 + |pattern|] == pattern;
      ScanIsKept(al, pattern);
      RegexScans(ScanFrom(al, pattern), al, pattern, start, r);
    }
  }

  // The scan does not look at the order of a range inside brackets.
  lemma {:induction false} ReversedRangeIsAccepted(al: Alphabet, items: string)
    requires IsAlphabet(al) && items == "z-a" && !HasUpper(al, "[" + items + "]")
    ensures Accepts(al, "[" + items + "]")
  {
    var piece := Quantified(Bracket(false, items), Once);
    assert ValidItems(false, items) && ValidQuantity(al, Once);
    assert PrintPiece(piece) == PrintItem(piece.item) + PrintQuantity(Once);
    assert PrintItem(piece.item) == "[" + items + "]" && PrintQuantity(Once) == "";
    assert ValidPiece(al, piece) && PrintPiece(piece) == "[" + items + "]";
    assert ValidBranch(al, One(piece)) && PrintBranch(One(piece)) == PrintPiece(piece);
    TreesAreAccepted(al, Only(One(piece)));
  }

  // Every tree without upper-case letters prints to an accepted pattern.
  lemma {:induction false} TreesAreAccepted(al: Alphabet, r: Regex)
    requires IsAlphabet(al) && ValidRegex(al, r) && !HasUpper(al, PrintRegex(r))
    ensures Accepts(al, PrintRegex(r))
  {
    AcceptsExactlyTheGrammar(al, PrintRegex(r));
  }

  // ---------------------------------------------------------------- intervals, in numbers

  lemma {:induction false} NumberOfDigits(al: Alphabet, n: nat)
    requires IsAlphabet(al)
    ensures AllDigits(al, Digits(n)) && Digits(n) != "" && Number(al, Digits(n)) == n
  {
    var s := Digits(n);
    var last := ('0' as int + n % 10) as char;
    assert '0' <= last <= '9';
    if n >= 10 {
      NumberOfDigits(al, n / 10);
      assert s[..|s| - 1] == Digits(n / 10) && s[|s| - 1] == last;
    } else {
      assert s == [last] && s[..0] == "";
    }
  }

  // An interval after an atom is accepted exactly when its bounds rise and reach 255 at most.
  lemma {:induction false} IntervalAcceptedIff(al: Alphabet, m: nat, n: nat)
    requires IsAlphabet(al)
    requires var range := "a" + ("{" + (Digits(m) + ("," + (Digits(n) + "}")))); !HasUpper(al, range)
    ensures Accepts(al, "a" + ("{" + (Digits(m) + ("," + (Digits(n) + "}"))))) <==> m <= n <= 255
  {
    var low, high := Digits(m), Digits(n);
    NumberOfDigits(al, m);
    NumberOfDigits(al, n);
    AtomAndInterval(al, low, high, "a" + ("{" + (low + ("," + (high + "}")))));
  }

  lemma {:induction false} AtomAndInterval(al: Alphabet, low: string, high: string, pattern: string)
    requires IsAlphabet(al) && low != "" && AllDigits(al, low) && AllDigits(al, high)
    requires pattern == "a" + ("{" + (low + ("," + (high + "}"))))
    ensures Scan(al, pattern, Position(0, 0, AtStart)) <==> BoundsAreValid(al, low, Some(high))
  {
    var tail := "," + (high + "}");
    assert At(pattern, 1, "{" + (low + tail)) by {
      assert pattern[1..] == "{" + (low + tail);
    }
    RangeIsRead(al, pattern, 1, low, high, tail);
    assert pattern[0] == 'a';
    var end := 1 + |low| + |high| + 3;
    assert |pattern| == end;
    IntervalEndsScan(al, pattern, low, high, end);
    assert Step(al, pattern, Position(0, 0, AtStart)) == Some(Position(1, 0, Atom));
  }

  lemma {:induction false} IntervalEndsScan(al: Alphabet, pattern: string, low: string, high: string, end: nat)
    requires 1 < |pattern| == end && pattern[1] == '{'
    requires MatchInterval(al, pattern, 1) == Some(IntervalMatch(low, Some(high), end))
    ensures Scan(al, pattern, Position(1, 0, Atom)) <==> BoundsAreValid(al, low, Some(high))
  {
    var next := Step(al, pattern, Position(1, 0, Atom));
    if BoundsAreValid(al, low, Some(high)) {
      assert next == Some(Position(end, 0, Quantifier));
    }
  }
}
