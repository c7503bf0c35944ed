/** Parsing the text of a printable expression gives the expression back and consumes exactly its
  * text. One lemma a layer: each reads an expression in a slot of its layer, with any text behind it
  * that the layer must leave alone. */
module CslRoundTrip {
  import opened Numbers
  import opened Wrappers
  import opened CslSyntax
  import opened CslLayout
  import opened CslParser
  import opened CslPrinter
  import opened CslLexing
  import opened CslFollow

  /** Whether `e` is parenthesised in a slot of this layer, for the termination of the layer lemmas. */
  function Wrapped(e: Expr, min: nat): nat {
    if Level(e) < min then 1 else 0
  }

  // ----- Facts of single layers

  lemma UnaryLayer(s: string)
    requires !("-" <= s)
    ensures ExprUnary(s) == ExprAtom(s)
  {
    hide ExprAtom;
  }

  lemma NegLayer(g: Gap, t: string)
    requires Solid(t)
    ensures ExprUnary("-" + (GapText(g) + t)) ==
            match ExprAtom(t)
            case POk(inner, rest) => POk(Unary(Neg, inner), rest)
            case fail => fail
  {
    WordReadsOp("-", g, t);
    hide ExprAtom, SkipWs, Solid, GapText, Kw;
  }

  lemma NotLayer(g: Gap, t: string)
    requires Solid(t)
    ensures ExprNot("not" + (GapText(g) + t)) ==
            match ExprCmp(t)
            case POk(inner, rest) => POk(Unary(Not, inner), rest)
            case fail => fail
  {
    WordReadsOp("not", g, t);
    hide ExprCmp, SkipWs, Solid, GapText, Kw;
  }

  lemma PlainLayer(s: string)
    requires !("not" <= s)
    ensures ExprNot(s) == ExprCmp(s)
  {
    hide ExprCmp;
  }

  lemma OpenParenthesis(g: Gap, s: string)
    requires Solid(s)
    ensures ExprAtom("(" + (GapText(g) + s)) ==
            match ExprOr(s)
            case POk(e, rest) =>
              if ")" <= rest then POk(e, SkipWs(rest[1..])) else ExprAtom("(" + (GapText(g) + s))
            case Backtrack => ExprAtom("(" + (GapText(g) + s))
            case Cut => Cut
  {
    WordReadsOp("(", g, s);
    hide ExprOr, SkipWs, Solid, GapText;
  }

  lemma AtomLayer(s: string)
    requires s != "" && s[0] != '(' && s[0] != '['
    ensures ExprAtom(s) == if ExprLiteral(s) != Backtrack then ExprLiteral(s) else CallOrPath(s)
  {
    hide ExprLiteral, CallOrPath, Separated, ExprOr;
  }

  lemma ListLayer(t: string)
    ensures ExprAtom("[" + t) ==
            match Separated(false, SkipWs(t))
            case POk(items, rest) =>
              if "]" <= rest then POk(List(items), SkipWs(rest[1..])) else ExprAtom("[" + t)
            case Backtrack => ExprAtom("[" + t)
            case Cut => Cut
  {
    hide ExprOr, SkipWs, Separated;
    assert ("[" + t)[1..] == t;
    assert ("[" + t)[0] == '[';
  }

  /** A call whose arguments have been read. */
  function Called(path: seq<string>, inside: Parsed<seq<Expr>>): Parsed<Expr> {
    match inside
    case POk(elements, rest) => if ")" <= rest then POk(Call(path, elements), SkipWs(rest[1..])) else Backtrack
    case Backtrack => Backtrack
    case Cut => Cut
  }

  lemma CallLayer(path: seq<string>, g: Gap, t: string)
    requires PathOk(path)
    ensures CallOrPath(PathText(path) + (GapText(g) + ("(" + t))) == Called(path, Separated(true, SkipWs(t)))
  {
    hide Separated, PathText, PathParser, GapText;
    CallBoundary(g, "(" + t);
    PathReads(path, GapText(g) + ("(" + t));
    assert ("(" + t)[1..] == t;
    hide SkipWs;
  }

  lemma PathLayer(segs: seq<string>, k: string)
    requires PathOk(segs) && Boundary(k) && !("(" <= SkipWs(k))
    ensures CallOrPath(PathText(segs) + k) == POk(Path(segs), SkipWs(k))
  {
    hide SkipWs, Separated, PathText, PathParser;
    PathReads(segs, k);
  }

  // ----- Atoms

  lemma {:induction false} AtomReads(lay: Layout, e: Expr, k: string)
    requires Readable(e) && Level(e) == ATOM_LEVEL && Stop(k, UNARY_LEVEL)
    ensures ExprAtom(Text(lay, e) + k) == POk(e, SkipWs(k))
    decreases e, 0, 30
  {
    hide ExprAtom, ExprLiteral, CallOrPath, Separated, SkipWs, Text, PathText, LiteralText, LiteralOk, NegativeOk,
      ElementTexts, Boundary, MulOp, AddOp, CmpOp, GapText;
    TextHead(lay, e);
    Prefixed(Text(lay, e), k);
    TextCases(lay, e);
    match e {
      case Lit(lit) =>
        AtomLayer(Text(lay, e) + k);
        LiteralReads(lit, k);
      case Path(segs) =>
        AtomLayer(Text(lay, e) + k);
        PathIsNoLiteral(segs, k);
        PathLayer(segs, k);
      case Call(_, _) => CallReads(lay, e, k);
      case List(_) => ListReads(lay, e, k);
    }
  }

  lemma {:induction false} CallReads(lay: Layout, e: Expr, k: string)
    requires WellFormed(e) && e.Call?
    requires AtomLayered(Text(lay, e) + k)
    ensures ExprAtom(Text(lay, e) + k) == POk(e, SkipWs(k))
    decreases e, 0, 22
  {
    hide ExprAtom, ExprLiteral, CallOrPath, Separated, SkipWs, Text, PathText, ElementTexts, Boundary, GapText;
    TextCases(lay, e);
    var elements := ElementTexts(Under(lay, 0), true, e.args) + (")" + k);
    var inside := GapText(lay([]).open) + elements;
    CallSplit(lay, e.path, e.args, k);
    AtomLayer(Text(lay, e) + k);
    CallBoundary(lay([]).call, "(" + inside);
    PathIsNoLiteral(e.path, GapText(lay([]).call) + ("(" + inside));
    CallLayer(e.path, lay([]).call, inside);
    GapSkipped(lay([]).open, elements);
    ElementsRead(Under(lay, 0), true, e.args, ')', k);
    BracketTail(')', k);
  }

  lemma {:induction false} ListReads(lay: Layout, e: Expr, k: string)
    requires WellFormed(e) && e.List?
    ensures ExprAtom(Text(lay, e) + k) == POk(e, SkipWs(k))
    decreases e, 0, 22
  {
    hide ExprAtom, Separated, SkipWs, Text, ElementTexts, GapText;
    TextCases(lay, e);
    var elements := ElementTexts(Under(lay, 0), false, e.items) + ("]" + k);
    var inside := GapText(lay([]).open) + elements;
    ListSplit(lay, e.items, k);
    ListLayer(inside);
    GapSkipped(lay([]).open, elements);
    ElementsRead(Under(lay, 0), false, e.items, ']', k);
    BracketTail(']', k);
  }

  predicate AtomLayered(s: string) {
    s != "" && s[0] != '(' && s[0] != '['
  }

  lemma TextCases(lay: Layout, e: Expr)
    ensures e.Lit? ==> Text(lay, e) == LiteralText(e.lit)
    ensures e.Path? ==> Text(lay, e) == PathText(e.segs)
    ensures WellFormed(e) && e.Path? ==> PathOk(e.segs)
    ensures WellFormed(e) && e.Call? ==> PathOk(e.path) && AllPrintable(e.args)
    ensures WellFormed(e) && e.List? ==> AllPrintable(e.items)
    ensures Readable(e) && e.Lit? ==> LiteralOk(e.lit) || NegativeOk(e.lit)
  {
  }

  lemma ListSplit(lay: Layout, items: seq<Expr>, k: string)
    ensures Text(lay, List(items)) + k ==
            "[" + (GapText(lay([]).open) + (ElementTexts(Under(lay, 0), false, items) + ("]" + k)))
  {
    hide GapText, ElementTexts;
  }

  lemma BracketTail(close: char, k: string)
    ensures [close] <= [close] + k && ([close] + k)[1..] == k
  {
  }

  /** The elements before a closing bracket, all of them and nothing more. */
  lemma {:induction false} ElementsRead(lay: Layout, isArg: bool, es: seq<Expr>, close: char, k: string)
    requires AllPrintable(es) && (close == ')' || close == ']')
    ensures Separated(isArg, SkipWs(ElementTexts(lay, isArg, es) + ([close] + k))) == POk(es, [close] + k)
    decreases es, 0, 20
  {
    hide ExprOr, SkipWs, Text, Slot, WellFormed, NotSafe, ElementText, Element, MoreElements, GapText, AllPrintable, Printable,
      Closes, KeywordArg;
    var end := [close] + k;
    if es == [] {
      assert ElementTexts(lay, isArg, es) + end == end;
      NothingReads(end);
      NoElement(isArg, end);
      StopsSkipping(end);
    } else {
      FirstIsPrintable(es);
      var rest := ElementsTail(lay, isArg, es, end);
      ElementHead(Under(lay, 0), isArg, es[0], rest);
      ElementReads(Under(lay, 0), isArg, es[0], rest);
      MoreRead(Under(lay, 1), lay([]).right, isArg, [es[0]], es[1..], close, k, SkipWs(rest));
      assert [es[0]] + es[1..] == es;
    }
  }

  lemma FirstIsPrintable(es: seq<Expr>)
    requires AllPrintable(es) && es != []
    ensures Printable(es[0]) && AllPrintable(es[1..])
  {
  }

  lemma NoElement(isArg: bool, s: string)
    requires ExprOr(s) == Backtrack && KeywordArg(s) == None
    ensures Element(isArg, s) == Backtrack
  {
    hide ExprOr, KeywordArg;
  }

  /** What follows the first element's text: a gap, then the end or a comma. */
  lemma ElementsTail(lay: Layout, isArg: bool, es: seq<Expr>, end: string) returns (rest: string)
    requires es != [] && end != "" && IsCloser(end[0])
    ensures ElementTexts(lay, isArg, es) + end == ElementText(Under(lay, 0), isArg, es[0]) + rest
    ensures Closes(rest)
    ensures SkipWs(rest) ==
            if |es| == 1 then end
            else "," + (GapText(lay([]).right) + (ElementTexts(Under(lay, 1), isArg, es[1..]) + end))
  {
    hide ElementText, GapText, SkipWs, Boundary;
    var tail :=
      if |es| == 1 then end
      else "," + (GapText(lay([]).right) + (ElementTexts(Under(lay, 1), isArg, es[1..]) + end));
    rest := GapText(lay([]).trail) + tail;
    GapCloses(lay([]).trail, tail);
    ElementsSplit(lay, isArg, es, end, tail);
  }

  lemma ElementsSplit(lay: Layout, isArg: bool, es: seq<Expr>, end: string, tail: string)
    requires es != []
    requires tail == if |es| == 1 then end
                     else "," + (GapText(lay([]).right) + (ElementTexts(Under(lay, 1), isArg, es[1..]) + end))
    ensures ElementTexts(lay, isArg, es) + end ==
            ElementText(Under(lay, 0), isArg, es[0]) + (GapText(lay([]).trail) + tail)
  {
    hide ElementText, GapText;
    if |es| == 1 {
      assert "" + end == end;
    }
  }

  lemma ElementHead(lay: Layout, isArg: bool, e: Expr, rest: string)
    requires Printable(e)
    ensures Solid(ElementText(lay, isArg, e) + rest)
    ensures SkipWs(ElementText(lay, isArg, e) + rest) == ElementText(lay, isArg, e) + rest
    ensures forall g: Gap :: SkipWs(GapText(g) + (ElementText(lay, isArg, e) + rest)) == ElementText(lay, isArg, e) + rest
  {
    hide SkipWs, Text, GapText;
    TextHead(lay, e);
    Prefixed(ElementText(lay, isArg, e), rest);
    StopsSkipping(ElementText(lay, isArg, e) + rest);
    forall g: Gap
      ensures SkipWs(GapText(g) + (ElementText(lay, isArg, e) + rest)) == ElementText(lay, isArg, e) + rest
    {
      SkipsGap(g, ElementText(lay, isArg, e) + rest);
    }
  }

  lemma KwComma(rest: string, after: string)
    requires rest == "," + after
    ensures Kw(rest, ",") == Some(SkipWs(after))
  {
    hide SkipWs;
    assert rest[1..] == after;
  }

  lemma NoComma(rest: string)
    requires rest != "" && rest[0] != ','
    ensures Kw(rest, ",") == None
  {
    StartsLike(",", rest);
  }

  /** The elements behind the first one; `rest` is the text between it and the closing bracket's tail. */
  lemma {:induction false} MoreRead(lay: Layout, g: Gap, isArg: bool, sofar: seq<Expr>, es: seq<Expr>, close: char, k: string,
                                    rest: string)
    requires AllPrintable(es) && (close == ')' || close == ']')
    requires
      var end := [close] + k;
      if es == [] then rest == end else rest == "," + (GapText(g) + (ElementTexts(lay, isArg, es) + end))
    ensures MoreElements(isArg, sofar, rest) == POk(sofar + es, [close] + k)
    decreases es, 0, 15
  {
    hide ExprOr, SkipWs, Text, Slot, WellFormed, NotSafe, ElementText, ElementTexts, Element, AllPrintable, GapText, Printable,
      Closes, KeywordArg;
    var end := [close] + k;
    if es == [] {
      assert sofar + es == sofar;
      NoComma(rest);
    } else {
      var after := GapText(g) + (ElementTexts(lay, isArg, es) + end);
      FirstIsPrintable(es);
      var rest' := ElementsTail(lay, isArg, es, end);
      ElementHead(Under(lay, 0), isArg, es[0], rest');
      KwComma(rest, after);
      ElementReads(Under(lay, 0), isArg, es[0], rest');
      MoreRead(Under(lay, 1), lay([]).right, isArg, sofar + [es[0]], es[1..], close, k, SkipWs(rest'));
      assert (sofar + [es[0]]) + es[1..] == sofar + es;
    }
  }

  /** One element, with a comma or a closing bracket behind it. */
  lemma {:induction false} ElementReads(lay: Layout, isArg: bool, e: Expr, k: string)
    requires Printable(e) && SkipWs(k) != "" && Closes(k)
    ensures Element(isArg, ElementText(lay, isArg, e) + k) == POk(e, SkipWs(k))
    decreases e, 2, 0
  {
    hide ExprOr, SkipWs, Text, KeywordArg, StartsIdentEq, Reserved;
    ClosingStops(k);
    if isArg && StartsIdentEq(e) {
      ParenthesisFirst(lay, Text(lay, e), k);
      NoIdentNoKeyword(Parenthesised(lay, Text(lay, e)) + k);
      WrappedReads(lay, e, k);
    } else {
      if isArg {
        NoEqualsHere(k);
        NoKeyword(lay, e, k);
      }
      WholeReads(lay, e, k);
    }
  }

  lemma ParenthesisFirst(lay: Layout, text: string, k: string)
    ensures Parenthesised(lay, text) + k != "" && (Parenthesised(lay, text) + k)[0] == '('
  {
  }

  lemma NoEqualsHere(k: string)
    requires Closes(k)
    ensures !("=" <= SkipWs(k)) && Boundary(k)
  {
    hide SkipWs, Boundary;
  }

  /** A whole expression, with nothing behind it that any layer would read on. */
  lemma {:induction false} WholeReads(lay: Layout, e: Expr, k: string)
    requires Printable(e) && Stop(k, OR_LEVEL)
    ensures ExprOr(Text(lay, e) + k) == POk(e, SkipWs(k))
    decreases e, 1, 15
  {
    hide ExprOr, SkipWs, Text, Boundary, MulOp, AddOp, CmpOp;
    OrReads(lay, e, k);
  }

  lemma {:induction false} ParenthesesRead(lay: Layout, e: Expr, k: string)
    requires Printable(e)
    ensures ExprAtom(Parenthesised(lay, Text(lay, e)) + k) == POk(e, SkipWs(k))
    decreases e, 1, 16
  {
    hide ExprOr, ExprAtom, SkipWs, Text, Boundary, GapText;
    var close := GapText(lay([]).close) + (")" + k);
    ParenthesesSplit(lay, Text(lay, e), k);
    TextHead(lay, e);
    Prefixed(Text(lay, e), close);
    GapCloses(lay([]).close, ")" + k);
    ClosingStops(close);
    WholeReads(lay, e, close);
    OpenParenthesis(lay([]).open, Text(lay, e) + close);
    assert (")" + k)[1..] == k;
  }

  lemma ParenthesesSplit(lay: Layout, text: string, k: string)
    ensures Parenthesised(lay, text) + k ==
            "(" + (GapText(lay([]).open) + (text + (GapText(lay([]).close) + (")" + k))))
  {
    hide GapText;
  }

  /** A parenthesised expression read from the top layer, as an argument. */
  lemma {:induction false} WrappedReads(lay: Layout, e: Expr, k: string)
    requires Printable(e) && Stop(k, OR_LEVEL)
    ensures ExprOr(Parenthesised(lay, Text(lay, e)) + k) == POk(e, SkipWs(k))
    decreases e, 1, 20
  {
    hide ExprAtom, SkipWs, Text, Boundary, MulOp, AddOp, CmpOp;
    ParenthesesRead(lay, e, k);
    ParenthesisFirst(lay, Text(lay, e), k);
    Climbs(Parenthesised(lay, Text(lay, e)) + k, e, SkipWs(k));
  }

  /** When an atom is read and no operator follows, every layer returns the atom. */
  lemma Climbs(s: string, e: Expr, t: string)
    requires ExprAtom(s) == POk(e, t) && s != "" && s[0] == '('
    requires MulOp(t) == None && AddOp(t) == None && CmpOp(t) == None && !("and" <= t) && !("or" <= t)
    ensures ExprOr(s) == POk(e, t)
  {
    hide ExprAtom, MulOp, AddOp, CmpOp, SkipWs;
    UnaryLayer(s);
    assert ExprMul(s) == MulTail(e, t) == POk(e, t);
    assert ExprAdd(s) == AddTail(e, t) == POk(e, t);
    assert ExprCmp(s) == POk(e, t);
    PlainLayer(s);
    assert ExprAnd(s) == AndTail(e, t) == POk(e, t);
    assert ExprOr(s) == OrTail(e, t) == POk(e, t);
  }

  // ----- Slots, layer by layer

  lemma {:induction false} AtomSlotReads(lay: Layout, e: Expr, k: string)
    requires SlotOk(e, ATOM_LEVEL) || (e.Lit? && NegativeOk(e.lit))
    requires Stop(k, UNARY_LEVEL)
    ensures ExprAtom(Slot(lay, e, ATOM_LEVEL) + k) == POk(e, SkipWs(k))
    decreases e, 1 + Wrapped(e, ATOM_LEVEL), 7
  {
    hide ExprAtom, SkipWs, Text, Boundary, MulOp, WellFormed, NegativeOk;
    LevelRange(e);
    if Level(e) < ATOM_LEVEL {
      ParenthesesRead(lay, e, k);
    } else {
      AtomReads(lay, e, k);
    }
  }

  lemma {:induction false} UnaryReads(lay: Layout, e: Expr, k: string)
    requires SlotOk(e, UNARY_LEVEL) && Stop(k, UNARY_LEVEL)
    ensures ExprUnary(Slot(lay, e, UNARY_LEVEL) + k) == POk(e, SkipWs(k))
    decreases e, 1 + Wrapped(e, UNARY_LEVEL), 8
  {
    hide ExprAtom, ExprUnary, SkipWs, Text, Boundary, MulOp, NegativeOk, NotSafe;
    LevelRange(e);
    if Level(e) == UNARY_LEVEL {
      var arg := e.arg;
      NegText(lay, e, k);
      NegArgument(e);
      SlotHead(Under(lay, 0), arg, ATOM_LEVEL);
      Prefixed(Slot(Under(lay, 0), arg, ATOM_LEVEL), k);
      AtomSlotReads(Under(lay, 0), arg, k);
      NegLayer(lay([]).right, Slot(Under(lay, 0), arg, ATOM_LEVEL) + k);
    } else {
      SlotHead(lay, e, ATOM_LEVEL);
      Prefixed(Slot(lay, e, ATOM_LEVEL), k);
      AtomSlotReads(lay, e, k);
      UnaryLayer(Slot(lay, e, ATOM_LEVEL) + k);
    }
  }

  lemma NegText(lay: Layout, e: Expr, k: string)
    requires e.Unary? && e.uop == Neg
    ensures Slot(lay, e, UNARY_LEVEL) + k == "-" + (GapText(lay([]).right) + (Slot(Under(lay, 0), e.arg, ATOM_LEVEL) + k))
  {
    hide GapText;
  }

  lemma NegArgument(e: Expr)
    requires WellFormed(e) && e.Unary? && e.uop == Neg
    ensures SlotOk(e.arg, ATOM_LEVEL) || (e.arg.Lit? && NegativeOk(e.arg.lit))
    ensures Readable(e.arg)
  {
  }

  /** The text of a binary expression in a slot of its own layer. */
  lemma BinaryText(lay: Layout, e: Expr, min: nat, k: string) returns (rest: string)
    requires WellFormed(e) && e.Binary? && min <= Level(e)
    ensures rest == Slot(Under(lay, 1), e.right, RightMin(e.bop)) + k && Solid(rest)
    ensures Slot(lay, e, min) + k == Slot(Under(lay, 0), e.left, LeftMin(e.bop)) + OpThen(lay([]), e.bop, rest)
  {
    hide Text, SlotOk, NotSafe, WellFormed, OpThen, OpBefore, GapText;
    rest := Slot(Under(lay, 1), e.right, RightMin(e.bop)) + k;
    SlotIsText(lay, e, min);
    LeftSplit(lay, e, k);
    RightSolid(lay, e, k);
  }

  lemma {:induction false} MulReads(lay: Layout, e: Expr, k: string)
    requires SlotOk(e, MUL_LEVEL) && Stop(k, UNARY_LEVEL)
    ensures ExprMul(Slot(lay, e, MUL_LEVEL) + k) == MulTail(e, SkipWs(k))
    decreases e, 1 + Wrapped(e, MUL_LEVEL), 9
  {
    hide ExprUnary, SkipWs, Text, Boundary, MulOp, NotSafe, WellFormed, OpThen, OpBefore, GapText;
    LevelRange(e);
    if Level(e) == MUL_LEVEL {
      var op, l, r := e.bop, e.left, e.right;
      var rest := BinaryText(lay, e, MUL_LEVEL, k);
      Operands(e);
      OpStops(lay([]), op, rest);
      OpHead(lay([]), op, rest);
      MulOpReads(lay([]), op, rest);
      MulReads(Under(lay, 0), l, OpThen(lay([]), op, rest));
      UnaryReads(Under(lay, 1), r, k);
    } else {
      SameSlot(lay, e, MUL_LEVEL);
      UnaryReads(lay, e, k);
    }
  }

  /** Off its own layer, an expression looks the same in a slot of the next layer. */
  lemma SameSlot(lay: Layout, e: Expr, min: nat)
    requires Level(e) != min
    ensures Slot(lay, e, min) == Slot(lay, e, min + 1)
    ensures SlotOk(e, min) ==> SlotOk(e, min + 1)
  {
  }

  lemma {:induction false} AddReads(lay: Layout, e: Expr, k: string)
    requires SlotOk(e, ADD_LEVEL) && Stop(k, MUL_LEVEL)
    ensures ExprAdd(Slot(lay, e, ADD_LEVEL) + k) == AddTail(e, SkipWs(k))
    decreases e, 1 + Wrapped(e, ADD_LEVEL), 10
  {
    hide ExprMul, SkipWs, Text, Boundary, MulOp, AddOp, NotSafe, WellFormed, OpThen, OpBefore, GapText;
    LevelRange(e);
    if Level(e) == ADD_LEVEL {
      var op, l, r := e.bop, e.left, e.right;
      var rest := BinaryText(lay, e, ADD_LEVEL, k);
      Operands(e);
      OpStops(lay([]), op, rest);
      OpHead(lay([]), op, rest);
      AddOpReads(lay([]), op, rest);
      AddReads(Under(lay, 0), l, OpThen(lay([]), op, rest));
      MulReads(Under(lay, 1), r, k);
      assert MulTail(r, SkipWs(k)) == POk(r, SkipWs(k));
    } else {
      SameSlot(lay, e, ADD_LEVEL);
      MulReads(lay, e, k);
    }
  }

  lemma {:induction false} CmpReads(lay: Layout, e: Expr, k: string)
    requires SlotOk(e, CMP_LEVEL) && Stop(k, CMP_LEVEL)
    ensures ExprCmp(Slot(lay, e, CMP_LEVEL) + k) == POk(e, SkipWs(k))
    decreases e, 1 + Wrapped(e, CMP_LEVEL), 11
  {
    hide ExprAdd, SkipWs, Text, Boundary, MulOp, AddOp, CmpOp, NotSafe, WellFormed, OpThen, OpBefore, GapText;
    LevelRange(e);
    if Level(e) == CMP_LEVEL {
      var op, l, r := e.bop, e.left, e.right;
      var rest := BinaryText(lay, e, CMP_LEVEL, k);
      Operands(e);
      OpStops(lay([]), op, rest);
      OpHead(lay([]), op, rest);
      CmpOpReads(lay([]), op, rest);
      TightOpsAbsent(lay([]), op, rest);
      StopWeakens(OpThen(lay([]), op, rest), ADD_LEVEL, MUL_LEVEL);
      AddReads(Under(lay, 0), l, OpThen(lay([]), op, rest));
      AddReads(Under(lay, 1), r, k);
      assert AddTail(r, SkipWs(k)) == POk(r, SkipWs(k));
    } else {
      SameSlot(lay, e, CMP_LEVEL);
      AddReads(lay, e, k);
    }
  }

  lemma {:induction false} NotReads(lay: Layout, e: Expr, k: string)
    requires SlotOk(e, NOT_LEVEL) && NotSafe(e) && Stop(k, CMP_LEVEL)
    ensures ExprNot(Slot(lay, e, NOT_LEVEL) + k) == POk(e, SkipWs(k))
    decreases e, 1 + Wrapped(e, NOT_LEVEL), 12
  {
    hide ExprCmp, ExprNot, SkipWs, Text, Boundary, MulOp, AddOp, CmpOp;
    LevelRange(e);
    if Level(e) == NOT_LEVEL {
      var arg := e.arg;
      NotText(lay, e, k);
      NotArgument(e);
      SlotHead(Under(lay, 0), arg, CMP_LEVEL);
      Prefixed(Slot(Under(lay, 0), arg, CMP_LEVEL), k);
      CmpReads(Under(lay, 0), arg, k);
      NotLayer(lay([]).separator, Slot(Under(lay, 0), arg, CMP_LEVEL) + k);
    } else {
      SameSlot(lay, e, NOT_LEVEL);
      CmpReads(lay, e, k);
      if Level(e) < CMP_LEVEL {
        ParenthesesFirst(lay, e, CMP_LEVEL, k);
        HeadIsNotNot(Slot(lay, e, CMP_LEVEL) + k);
      } else {
        SlotIsText(lay, e, CMP_LEVEL);
        NoLeadingNot(lay, e, k);
      }
      PlainLayer(Slot(lay, e, CMP_LEVEL) + k);
    }
  }

  lemma NotArgument(e: Expr)
    requires WellFormed(e) && e.Unary? && e.uop == Not
    ensures SlotOk(e.arg, CMP_LEVEL) && Readable(e.arg)
  {
  }

  lemma NotText(lay: Layout, e: Expr, k: string)
    requires e.Unary? && e.uop == Not
    ensures Slot(lay, e, NOT_LEVEL) + k == "not" + (GapText(lay([]).separator) + (Slot(Under(lay, 0), e.arg, CMP_LEVEL) + k))
  {
    hide GapText;
  }

  lemma {:induction false} AndReads(lay: Layout, e: Expr, k: string)
    requires SlotOk(e, AND_LEVEL) && NotSafe(e) && Stop(k, NOT_LEVEL)
    ensures ExprAnd(Slot(lay, e, AND_LEVEL) + k) == AndTail(e, SkipWs(k))
    decreases e, 1 + Wrapped(e, AND_LEVEL), 13
  {
    hide ExprNot, SkipWs, Text, Boundary, MulOp, AddOp, CmpOp, NotSafe, WellFormed, OpThen, OpBefore, GapText;
    LevelRange(e);
    StopWeakens(k, NOT_LEVEL, CMP_LEVEL);
    if Level(e) == AND_LEVEL {
      var op, l, r := e.bop, e.left, e.right;
      var rest := BinaryText(lay, e, AND_LEVEL, k);
      Operands(e);
      OpStops(lay([]), op, rest);
      OpHead(lay([]), op, rest);
      OneWord(lay([]), op, rest);
      WordReadsOp("and", lay([]).right, rest);
      AndReads(Under(lay, 0), l, OpThen(lay([]), op, rest));
      NotReads(Under(lay, 1), r, k);
    } else {
      SameSlot(lay, e, AND_LEVEL);
      NotReads(lay, e, k);
    }
  }

  lemma {:induction false} OrReads(lay: Layout, e: Expr, k: string)
    requires Printable(e) && Stop(k, AND_LEVEL)
    ensures ExprOr(Text(lay, e) + k) == OrTail(e, SkipWs(k))
    decreases e, 1, 14
  {
    hide ExprAnd, SkipWs, Text, Boundary, MulOp, AddOp, CmpOp, NotSafe, WellFormed, OpThen, OpBefore, GapText;
    LevelRange(e);
    SlotIsText(lay, e, OR_LEVEL);
    StopWeakens(k, AND_LEVEL, NOT_LEVEL);
    if Level(e) == OR_LEVEL {
      var op, l, r := e.bop, e.left, e.right;
      var rest := BinaryText(lay, e, OR_LEVEL, k);
      Operands(e);
      OpStops(lay([]), op, rest);
      OpHead(lay([]), op, rest);
      OneWord(lay([]), op, rest);
      WordReadsOp("or", lay([]).right, rest);
      SlotIsText(Under(lay, 0), l, OR_LEVEL);
      LevelRange(l);
      OrReads(Under(lay, 0), l, OpThen(lay([]), op, rest));
      AndReads(Under(lay, 1), r, k);
      assert AndTail(r, SkipWs(k)) == POk(r, SkipWs(k));
    } else {
      SlotIsText(lay, e, AND_LEVEL);
      AndReads(lay, e, k);
      assert AndTail(e, SkipWs(k)) == POk(e, SkipWs(k));
    }
  }

  /** The text of a printable expression, in any layout and with any gap behind it, parses to that expression and is
    * consumed to its end. */
  lemma RoundTrip(lay: Layout, e: Expr, end: Gap)
    requires Printable(e)
    ensures ExprOr(Text(lay, e) + GapText(end)) == POk(e, "")
  {
    hide ExprOr, Text, Printable, GapText;
    GapCloses(end, "");
    assert GapText(end) + "" == GapText(end);
    ClosingStops(GapText(end));
    WholeReads(lay, e, GapText(end));
  }
}
