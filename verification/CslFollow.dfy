/** How printed expressions start, and what may follow them: the facts that keep one layer of the
  * grammar from reading into the text of another. */
module CslFollow {
  import opened Numbers
  import opened Wrappers
  import opened CslSyntax
  import opened CslLayout
  import opened CslParser
  import opened CslPrinter
  import opened CslLexing

  // ----- What may follow

  /** A token may end before `k`, no call opens there, and no operator of layer `min` or tighter
    * follows. */
  predicate Stop(k: string, min: nat) {
    var t := SkipWs(k);
    Boundary(k) && !("(" <= t) &&
    (min <= MUL_LEVEL ==> MulOp(t) == None) &&
    (min <= ADD_LEVEL ==> AddOp(t) == None) &&
    (min <= CMP_LEVEL ==> CmpOp(t) == None) &&
    (min <= AND_LEVEL ==> !("and" <= t)) &&
    (min <= OR_LEVEL ==> !("or" <= t))
  }

  lemma StopWeakens(k: string, min: nat, min': nat)
    requires Stop(k, min) && min <= min'
    ensures Stop(k, min')
  {
    hide SkipWs, MulOp, AddOp, CmpOp, Boundary;
  }

  predicate IsCloser(c: char) {
    c == ')' || c == ']' || c == ','
  }

  /** Behind a gap, perhaps, a bracket closes, a comma follows, or the input ends. */
  predicate Closes(k: string) {
    var t := SkipWs(k);
    Boundary(k) && (t != "" ==> IsCloser(t[0]))
  }

  lemma ClosingStops(k: string)
    requires Closes(k)
    ensures Stop(k, OR_LEVEL)
  {
    hide SkipWs, Boundary;
  }

  lemma GapCloses(g: Gap, t: string)
    requires t != "" ==> IsCloser(t[0])
    ensures Closes(GapText(g) + t) && SkipWs(GapText(g) + t) == t
  {
    GapSkipped(g, t);
    StopsSkipping(t);
    GapEnds(g, t);
    hide SkipWs;
  }

  // ----- Operators

  lemma OpFirst(sp: Spacing, op: BinaryOp, rest: string)
    ensures OpBefore(sp, op, rest) != "" && OpBefore(sp, op, rest)[0] == OpText(op)[0]
  {
  }

  /** A one-character operator is not read as the start of a longer one, nor a slash as a comment. */
  lemma SecondChar(sp: Spacing, op: BinaryOp, rest: string)
    requires |OpText(op)| == 1 && Solid(rest)
    ensures
      var t := OpBefore(sp, op, rest);
      |t| >= 2 && t[1] != '=' && (op == Div ==> t[1] != '/' && t[1] != '*')
  {
    if op == Div && sp.calm != [] {
      GapFirst(sp.calm);
    } else if op != Div && sp.right != [] {
      GapFirst(sp.right);
    }
    hide Solid, GapText;
  }

  lemma OpStopsSkipping(sp: Spacing, op: BinaryOp, rest: string)
    requires Solid(rest)
    ensures SkipWs(OpBefore(sp, op, rest)) == OpBefore(sp, op, rest)
  {
    OpFirst(sp, op, rest);
    if op == Div {
      SecondChar(sp, op, rest);
    } else {
      StopsSkipping(OpBefore(sp, op, rest));
    }
    hide OpBefore;
  }

  lemma OpBoundary(sp: Spacing, op: BinaryOp, rest: string)
    ensures Boundary(OpThen(sp, op, rest))
  {
    OpFirst(sp, op, rest);
    hide OpBefore;
    if IsWordOp(op) {
      GapFirst(sp.separator);
    } else {
      GapEnds(sp.left, OpBefore(sp, op, rest));
    }
  }

  lemma OpHead(sp: Spacing, op: BinaryOp, rest: string)
    requires Solid(rest)
    ensures SkipWs(OpThen(sp, op, rest)) == OpBefore(sp, op, rest)
    ensures Boundary(OpThen(sp, op, rest))
    ensures !("(" <= OpBefore(sp, op, rest))
  {
    OpBoundary(sp, op, rest);
    OpStopsSkipping(sp, op, rest);
    OpFirst(sp, op, rest);
    GapSkipped(if IsWordOp(op) then sp.separator else sp.left, OpBefore(sp, op, rest));
    hide OpBefore, SkipWs, Boundary, Solid;
  }

  lemma WordReadsOp(word: string, g: Gap, rest: string)
    requires Solid(rest)
    ensures Kw(word + (GapText(g) + rest), word) == Some(rest)
  {
    var s := word + (GapText(g) + rest);
    assert s[|word|..] == GapText(g) + rest;
    SkipsGap(g, rest);
    hide SkipWs, GapText;
  }

  function GapAfter(sp: Spacing, op: BinaryOp): Gap {
    if op == Div then sp.calm else sp.right
  }

  lemma OneWord(sp: Spacing, op: BinaryOp, rest: string)
    requires op != NotIn
    ensures OpBefore(sp, op, rest) == OpText(op) + (GapText(GapAfter(sp, op)) + rest)
  {
  }

  lemma MulOpReads(sp: Spacing, op: BinaryOp, rest: string)
    requires OpLevel(op) == MUL_LEVEL && Solid(rest)
    ensures MulOp(OpBefore(sp, op, rest)) == Some((op, rest))
  {
    OneWord(sp, op, rest);
    OpFirst(sp, op, rest);
    WordReadsOp(OpText(op), GapAfter(sp, op), rest);
    hide SkipWs, OpBefore;
  }

  lemma AddOpReads(sp: Spacing, op: BinaryOp, rest: string)
    requires OpLevel(op) == ADD_LEVEL && Solid(rest)
    ensures AddOp(OpBefore(sp, op, rest)) == Some((op, rest))
    ensures MulOp(OpBefore(sp, op, rest)) == None
  {
    OneWord(sp, op, rest);
    OpFirst(sp, op, rest);
    WordReadsOp(OpText(op), GapAfter(sp, op), rest);
    hide SkipWs, OpBefore;
  }

  lemma CmpOpReads(sp: Spacing, op: BinaryOp, rest: string)
    requires OpLevel(op) == CMP_LEVEL && Solid(rest)
    ensures CmpOp(OpBefore(sp, op, rest)) == Some((op, rest))
  {
    hide SkipWs, Solid, GapText, OpBefore, CmpOp;
    var t := OpBefore(sp, op, rest);
    OpFirst(sp, op, rest);
    if op == NotIn {
      NotInReads(sp, rest);
    } else {
      OneWord(sp, op, rest);
      WordReadsOp(OpText(op), GapAfter(sp, op), rest);
      if |OpText(op)| == 1 {
        SecondChar(sp, op, rest);
      }
    }
    CmpOpCases(t, op, rest);
  }

  /** The comparison operator a text starts with, told from its first characters. */
  lemma CmpOpCases(t: string, op: BinaryOp, rest: string)
    requires OpLevel(op) == CMP_LEVEL && t != "" && t[0] == OpText(op)[0]
    requires |OpText(op)| == 1 ==> |t| >= 2 && t[1] != '='
    requires if op == NotIn then Kw(t, "not").Some? && Kw(Kw(t, "not").value, "in") == Some(rest)
             else Kw(t, OpText(op)) == Some(rest)
    ensures CmpOp(t) == Some((op, rest))
  {
    hide SkipWs;
  }

  lemma NotInText(sp: Spacing, rest: string)
    ensures OpBefore(sp, NotIn, rest) == "not" + (GapText(sp.inner) + ("in" + (GapText(sp.right) + rest)))
  {
    hide GapText;
  }

  lemma NotInReads(sp: Spacing, rest: string)
    requires Solid(rest)
    ensures
      var t := OpBefore(sp, NotIn, rest);
      Kw(t, "not").Some? && Kw(Kw(t, "not").value, "in") == Some(rest)
  {
    hide SkipWs, Solid, GapText, OpBefore, Kw;
    var inner := "in" + (GapText(sp.right) + rest);
    NotInText(sp, rest);
    WordReadsOp("in", sp.right, rest);
    SolidIn(inner);
    WordReadsOp("not", sp.inner, inner);
  }

  lemma SolidIn(t: string)
    requires "in" <= t
    ensures Solid(t)
  {
  }

  lemma TightOpsAbsent(sp: Spacing, op: BinaryOp, rest: string)
    ensures OpLevel(op) < ADD_LEVEL ==> AddOp(OpBefore(sp, op, rest)) == None
    ensures OpLevel(op) < MUL_LEVEL ==> MulOp(OpBefore(sp, op, rest)) == None
    ensures OpLevel(op) < CMP_LEVEL ==> CmpOp(OpBefore(sp, op, rest)) == None
    ensures OpLevel(op) < AND_LEVEL ==> !("and" <= OpBefore(sp, op, rest))
  {
    OpFirst(sp, op, rest);
    hide SkipWs, OpBefore;
  }

  /** Before an operator, everything of a tighter layer stops. */
  lemma OpStops(sp: Spacing, op: BinaryOp, rest: string)
    requires Solid(rest)
    ensures Stop(OpThen(sp, op, rest), OpLevel(op) + 1)
  {
    OpHead(sp, op, rest);
    TightOpsAbsent(sp, op, rest);
    hide SkipWs, MulOp, AddOp, CmpOp, Boundary, OpThen, OpBefore;
  }

  // ----- First characters

  predicate Readable(e: Expr) {
    WellFormed(e) || (e.Lit? && NegativeOk(e.lit))
  }

  lemma LiteralHead(lit: Literal)
    requires LiteralOk(lit) || NegativeOk(lit)
    ensures Solid(LiteralText(lit)) && LiteralText(lit)[0] != '(' && LiteralText(lit)[0] != '['
    ensures LiteralOk(lit) ==> LiteralText(lit)[0] != '-'
  {
    match lit {
      case LInteger(n) =>
        if n >= 0 { DecimalReads(n); }
      case LDuration(n, _) => DecimalReads(n);
      case LFloat(text) =>
        if FloatOk(text) {
          var a, b := FloatParts(text);
          assert text[0] == a[0];
        }
      case _ =>
    }
  }

  lemma PathFirst(segs: seq<string>)
    requires PathOk(segs)
    ensures PathText(segs) != "" && IsIdentStart(PathText(segs)[0])
  {
    assert IsIdent(segs[0]);
  }

  lemma Operands(e: Expr)
    requires WellFormed(e) && e.Binary?
    ensures SlotOk(e.left, LeftMin(e.bop)) && WellFormed(e.left)
    ensures SlotOk(e.right, RightMin(e.bop)) && WellFormed(e.right)
    ensures e.bop == Or || e.bop == And ==> NotSafe(e.left) && NotSafe(e.right)
  {
  }

  /** The text of a binary expression, split behind its left operand. */
  lemma LeftSplit(lay: Layout, e: Expr, k: string)
    requires e.Binary?
    ensures Text(lay, e) + k ==
            Slot(Under(lay, 0), e.left, LeftMin(e.bop)) +
            OpThen(lay([]), e.bop, Slot(Under(lay, 1), e.right, RightMin(e.bop)) + k)
  {
    hide Slot;
    OpThenJoin(lay([]), e.bop, Slot(Under(lay, 1), e.right, RightMin(e.bop)), k);
  }

  lemma OpThenJoin(sp: Spacing, op: BinaryOp, rest: string, k: string)
    ensures OpThen(sp, op, rest) + k == OpThen(sp, op, rest + k)
  {
    hide GapText;
  }

  lemma CallSplit(lay: Layout, path: seq<string>, args: seq<Expr>, k: string)
    ensures Text(lay, Call(path, args)) + k ==
            PathText(path) +
            (GapText(lay([]).call) +
             ("(" + (GapText(lay([]).open) + (ElementTexts(Under(lay, 0), true, args) + (")" + k)))))
  {
    hide GapText, PathText, ElementTexts;
  }

  lemma ParenthesesFirst(lay: Layout, e: Expr, min: nat, t: string)
    requires Level(e) < min
    ensures Slot(lay, e, min) + t != "" && (Slot(lay, e, min) + t)[0] == '('
  {
  }

  /** Printed text starts solid; only a list starts with a bracket among atoms, and no atom starts
    * with a parenthesis or, unless negative, a minus sign. */
  lemma {:induction false} TextHead(lay: Layout, e: Expr)
    requires Readable(e)
    ensures Solid(Text(lay, e))
    ensures Level(e) == ATOM_LEVEL ==> Text(lay, e)[0] != '(' && (Text(lay, e)[0] == '[' <==> e.List?)
    ensures Level(e) == ATOM_LEVEL && WellFormed(e) ==> Text(lay, e)[0] != '-'
    decreases e
  {
    hide PathText, LiteralText, NegativeOk, LiteralOk, PathOk, AllPrintable, ElementTexts, NotSafe, GapText, OpThen;
    match e {
      case Lit(lit) => LiteralHead(lit);
      case Path(segs) => PathFirst(segs);
      case Call(path, args) => PathFirst(path);
      case Unary(_, _) =>
      case List(_) =>
      case Binary(op, l, r) =>
        Operands(e);
        TextHead(Under(lay, 0), l);
        assert Text(lay, e)[0] == Slot(Under(lay, 0), l, LeftMin(op))[0];
    }
  }

  lemma SlotHead(lay: Layout, e: Expr, min: nat)
    requires Readable(e)
    ensures Solid(Slot(lay, e, min))
    ensures min == ATOM_LEVEL && WellFormed(e) ==> Slot(lay, e, min)[0] != '-'
  {
    hide Text, WellFormed;
    TextHead(lay, e);
    LevelRange(e);
  }

  lemma LevelRange(e: Expr)
    ensures OR_LEVEL <= Level(e) <= ATOM_LEVEL
  {
  }

  lemma Prefixed(s: string, k: string)
    requires Solid(s)
    ensures Solid(s + k) && (s + k)[0] == s[0]
  {
  }

  /** The right operand and what follows it, solid. */
  lemma RightSolid(lay: Layout, e: Expr, k: string)
    requires WellFormed(e) && e.Binary?
    ensures Solid(Slot(Under(lay, 1), e.right, RightMin(e.bop)) + k)
  {
    hide Slot, Solid, WellFormed, SlotOk;
    Operands(e);
    SlotHead(Under(lay, 1), e.right, RightMin(e.bop));
    Prefixed(Slot(Under(lay, 1), e.right, RightMin(e.bop)), k);
  }

  // ----- Text that does not start with `not`

  lemma HeadIsNotNot(s: string)
    requires s != "" && s[0] != 'n'
    ensures !("not" <= s)
  {
  }

  lemma {:induction false} NoLeadingNot(lay: Layout, e: Expr, k: string)
    requires WellFormed(e) && Level(e) >= CMP_LEVEL && !StartsNot(e) && Boundary(k)
    ensures !("not" <= Text(lay, e) + k)
    decreases e
  {
    hide PathText, LiteralText, LiteralOk, NegativeOk, AllPrintable, ElementTexts, NotSafe, Boundary, GapText, OpThen;
    match e {
      case Lit(lit) => LiteralIsNotNot(lit, k);
      case Path(segs) => PathIsNotNot(segs, k);
      case Call(path, args) =>
        var tail := "(" + (GapText(lay([]).open) + (ElementTexts(Under(lay, 0), true, args) + (")" + k)));
        CallSplit(lay, path, args, k);
        CallBoundary(lay([]).call, tail);
        PathIsNotNot(path, GapText(lay([]).call) + tail);
      case Unary(_, arg) => assert (Text(lay, e) + k)[0] == '-';
      case List(_) => assert (Text(lay, e) + k)[0] == '[';
      case Binary(op, l, r) =>
        hide Text, Slot;
        var rest := Slot(Under(lay, 1), r, RightMin(op)) + k;
        LeftSplit(lay, e, k);
        if Level(l) >= LeftMin(op) {
          RightSolid(lay, e, k);
          OpHead(lay([]), op, rest);
          Operands(e);
          SlotIsText(Under(lay, 0), l, LeftMin(op));
          NoLeadingNot(Under(lay, 0), l, OpThen(lay([]), op, rest));
        } else {
          ParenthesesFirst(Under(lay, 0), l, LeftMin(op), OpThen(lay([]), op, rest));
        }
    }
  }

  lemma SlotIsText(lay: Layout, e: Expr, min: nat)
    requires Level(e) >= min
    ensures Slot(lay, e, min) == Text(lay, e)
  {
  }

  lemma CallBoundary(g: Gap, t: string)
    requires t != "" && t[0] == '('
    ensures Boundary(GapText(g) + t) && SkipWs(GapText(g) + t) == t
  {
    GapEnds(g, t);
    GapSkipped(g, t);
    StopsSkipping(t);
  }

  lemma LiteralIsNotNot(lit: Literal, k: string)
    requires LiteralOk(lit)
    ensures !("not" <= LiteralText(lit) + k)
  {
    LiteralHead(lit);
    var s := LiteralText(lit) + k;
    assert s[0] == LiteralText(lit)[0];
    match lit {
      case LInteger(n) => DecimalReads(n);
      case LDuration(n, _) => DecimalReads(n);
      case LFloat(text) =>
        var a, b := FloatParts(text);
        assert text[0] == a[0];
      case LNull => assert s[1] == 'u';
      case _ =>
    }
  }

  lemma PathIsNotNot(segs: seq<string>, k: string)
    requires PathOk(segs) && !("not" <= segs[0]) && Boundary(k)
    ensures !("not" <= PathText(segs) + k)
  {
    hide PathText;
    var tail := PathHead(segs, k);
    PrefixOfIdent("not", segs[0], tail);
  }

  // ----- Text that does not start with `ident =`

  lemma NoIdentNoKeyword(s: string)
    requires s != "" && !IsIdentStart(s[0])
    ensures KeywordArg(s) == None
  {
  }

  lemma ReservedNoKeyword(word: string, tail: string)
    requires IsIdent(word) && Reserved(word) && (tail != "" ==> !IsIdentChar(tail[0]))
    ensures KeywordArg(word + tail) == None
  {
    TakesIdent(word, tail);
  }

  lemma PathKeyword(segs: seq<string>, k: string)
    requires PathOk(segs) && Boundary(k)
    requires |segs| == 1 && !Reserved(segs[0]) ==> !("=" <= SkipWs(k))
    ensures KeywordArg(PathText(segs) + k) == None
  {
    hide PathText, Reserved;
    var tail := PathHead(segs, k);
    assert IsIdent(segs[0]);
    TakesIdent(segs[0], tail);
    if |segs| > 1 {
      StopsSkipping(tail);
    }
  }

  lemma LiteralKeyword(lit: Literal, k: string)
    requires LiteralOk(lit) && Boundary(k)
    ensures KeywordArg(LiteralText(lit) + k) == None
  {
    LiteralHead(lit);
    var s := LiteralText(lit) + k;
    assert s[0] == LiteralText(lit)[0];
    match lit {
      case LInteger(n) => DecimalReads(n);
      case LDuration(n, _) => DecimalReads(n);
      case LFloat(text) =>
        var a, b := FloatParts(text);
        assert text[0] == a[0];
      case LString(_) =>
      case _ => ReservedNoKeyword(LiteralText(lit), k);
    }
  }

  lemma {:induction false} NoKeyword(lay: Layout, e: Expr, k: string)
    requires WellFormed(e) && !StartsIdentEq(e) && Boundary(k)
    requires e.Path? && |e.segs| == 1 && !Reserved(e.segs[0]) ==> !("=" <= SkipWs(k))
    ensures KeywordArg(Text(lay, e) + k) == None
    decreases e, 1
  {
    hide PathText, LiteralText, LiteralOk, NegativeOk, PathOk, AllPrintable, ElementTexts, NotSafe, Boundary, SkipWs,
      KeywordArg, Reserved, GapText, OpThen;
    match e {
      case Lit(lit) => LiteralKeyword(lit, k);
      case Path(segs) => PathKeyword(segs, k);
      case Call(path, args) =>
        hide Text;
        var tail := "(" + (GapText(lay([]).open) + (ElementTexts(Under(lay, 0), true, args) + (")" + k)));
        CallSplit(lay, path, args, k);
        CallBoundary(lay([]).call, tail);
        PathKeyword(path, GapText(lay([]).call) + tail);
      case Unary(Not, arg) => NotNoKeyword(lay, arg, k);
      case Unary(Neg, arg) => NoIdentNoKeyword(Text(lay, e) + k);
      case List(_) => NoIdentNoKeyword(Text(lay, e) + k);
      case Binary(op, l, r) => LeftNoKeyword(lay, e, k);
    }
  }

  lemma {:induction false} LeftNoKeyword(lay: Layout, e: Expr, k: string)
    requires WellFormed(e) && !StartsIdentEq(e) && Boundary(k) && e.Binary?
    ensures KeywordArg(Text(lay, e) + k) == None
    decreases e, 0
  {
    hide Text, Slot, Boundary, SkipWs, KeywordArg, Reserved, WellFormed, OpThen, OpBefore;
    var op, l := e.bop, e.left;
    var rest := Slot(Under(lay, 1), e.right, RightMin(op)) + k;
    LeftSplit(lay, e, k);
    if Level(l) >= LeftMin(op) {
      RightSolid(lay, e, k);
      OpHead(lay([]), op, rest);
      EqualsOnlyEq(lay([]), op, rest);
      Operands(e);
      SlotIsText(Under(lay, 0), l, LeftMin(op));
      NoKeyword(Under(lay, 0), l, OpThen(lay([]), op, rest));
    } else {
      ParenthesesFirst(Under(lay, 0), l, LeftMin(op), OpThen(lay([]), op, rest));
      NoIdentNoKeyword(Text(lay, e) + k);
    }
  }

  lemma NotNoKeyword(lay: Layout, arg: Expr, k: string)
    ensures KeywordArg(Text(lay, Unary(Not, arg)) + k) == None
  {
    var g := lay([]).separator;
    var tail := GapText(g) + (Slot(Under(lay, 0), arg, CMP_LEVEL) + k);
    hide Slot;
    assert Text(lay, Unary(Not, arg)) + k == "not" + tail;
    NotIsReserved();
    GapEnds(g, Slot(Under(lay, 0), arg, CMP_LEVEL) + k);
    hide Text, Reserved, KeywordArg, GapText;
    ReservedNoKeyword("not", tail);
  }

  lemma NotIsReserved()
    ensures IsIdent("not") && Reserved("not")
  {
  }

  lemma EqualsOnlyEq(sp: Spacing, op: BinaryOp, rest: string)
    ensures "=" <= OpBefore(sp, op, rest) <==> op == Eq
  {
    OpFirst(sp, op, rest);
    hide OpBefore;
  }

  // ----- Nothing to read before a closing bracket

  lemma NothingReads(s: string)
    requires s != "" && (s[0] == ')' || s[0] == ']')
    ensures ExprOr(s) == Backtrack && KeywordArg(s) == None
  {
    hide OrTail, AndTail, AddTail, MulTail, Separated;
    NotNumeric(s);
    assert ExprLiteral(s) == Backtrack;
    assert CallOrPath(s) == Backtrack;
    assert ExprAtom(s) == Backtrack;
    assert ExprUnary(s) == Backtrack;
    assert ExprMul(s) == Backtrack;
    assert ExprAdd(s) == Backtrack;
    assert ExprCmp(s) == Backtrack;
    assert ExprNot(s) == Backtrack;
    assert ExprAnd(s) == Backtrack;
  }
}
