/** Every expression the parser returns is printable: with the round trip, the printable expressions
  * are exactly the ones the grammar can express. */
module CslOutputs {
  import opened Numbers
  import opened Wrappers
  import opened CslSyntax
  import opened CslLayout
  import opened CslParser
  import opened CslPrinter
  import opened CslRoundTrip

  /** What reading `s` in a slot of this layer yields: well formed, and text that would be taken for a
    * `not` can only come from the start of `s`. */
  predicate Good(e: Expr, min: nat, s: string) {
    SlotOk(e, min) && (!NotSafe(e) ==> "not" <= s)
  }

  lemma GoodWeakens(e: Expr, min: nat, min': nat, s: string)
    requires Good(e, min, s) && min' <= min
    ensures Good(e, min', s)
  {
    hide WellFormed, NotSafe;
  }

  // ----- Leaves

  lemma LiteralOut(s: string)
    requires ExprLiteral(s).POk?
    ensures ExprLiteral(s).value.Lit?
    ensures
      var lit := ExprLiteral(s).value.lit;
      LiteralOk(lit) || (NegativeOk(lit) && "-" <= s)
  {
    hide SkipWs, DigitRun, DecimalValue, StringChars, DurationUnitAt;
    if DurationLiteral(s).Some? {
    } else if FloatLiteral(s).Some? {
      FloatOut(s);
    }
  }

  lemma FloatOut(s: string)
    requires FloatLiteral(s).Some?
    ensures FloatLiteral(s).value.0.LFloat?
    ensures LiteralOk(FloatLiteral(s).value.0) || (NegativeOk(FloatLiteral(s).value.0) && "-" <= s)
  {
    hide SkipWs, DigitRun, AllDigits;
    var i := SignLength(s);
    var n := DigitRun(s[i..]);
    var m := DigitRun(s[i + n + 1..]);
    var text := s[..i + n + 1 + m];
    var unsigned := text[i..];
    assert unsigned[..n] == s[i..][..n];
    assert unsigned[n] == s[i + n];
    assert unsigned[n + 1..] == s[i + n + 1..][..m];
    assert FloatOk(unsigned);
    if i == 0 {
      assert text == unsigned;
    } else {
      assert "-" <= text && text[1..] == unsigned;
    }
  }

  predicate Idents(segs: seq<string>) {
    forall j :: 0 <= j < |segs| ==> IsIdent(segs[j])
  }

  lemma {:induction false} SegmentsOut(segs: seq<string>, s: string)
    requires segs != [] && Idents(segs)
    ensures Idents(MoreSegments(segs, s).0) && MoreSegments(segs, s).0 != [] && MoreSegments(segs, s).0[0] == segs[0]
    decreases |s|
  {
    hide TakeIdent, IsIdent;
    if "." <= s && TakeIdent(s[1..]).Some? {
      var (name, rest) := TakeIdent(s[1..]).value;
      SegmentsOut(segs + [name], rest);
    }
  }

  lemma PathOut(s: string)
    requires PathParser(s).Some? && ExprLiteral(s) == Backtrack
    ensures PathOk(PathParser(s).value.0) && PathParser(s).value.0[0] <= s
  {
    hide MoreSegments, SkipWs, DurationLiteral, FloatLiteral, IntegerLiteral, StringLiteral;
    var (name, rest) := TakeIdent(s).value;
    SegmentsOut([name], rest);
    assert name <= s;
  }

  lemma PrefixTrans(word: string, name: string, s: string)
    requires word <= name && name <= s
    ensures word <= s
  {
  }

  lemma {:induction false} AllPrintableSnoc(es: seq<Expr>, e: Expr)
    requires AllPrintable(es) && Printable(e)
    ensures AllPrintable(es + [e])
    decreases |es|
  {
    hide Printable;
    if es == [] {
      assert (es + [e])[1..] == [];
    } else {
      assert (es + [e])[1..] == es[1..] + [e];
      AllPrintableSnoc(es[1..], e);
    }
  }

  // ----- Layers, from the atoms up

  lemma {:induction false} AtomOut(s: string)
    requires ExprAtom(s).POk?
    ensures
      var e := ExprAtom(s).value;
      Good(e, ATOM_LEVEL, s) || (e.Lit? && NegativeOk(e.lit) && "-" <= s)
    decreases |s|, 3
  {
    hide Parenthesized, ListLiteral, ExprLiteral, CallOrPath, NotSafe, WellFormed;
    if Parenthesized(s).POk? {
      ParenthesizedOut(s);
    } else if ListLiteral(s).POk? {
      ListOut(s);
    } else if ExprLiteral(s).POk? {
      LiteralOut(s);
      LiteralGood(ExprLiteral(s).value, s);
    } else {
      CallOrPathOut(s);
    }
  }

  lemma LiteralGood(e: Expr, s: string)
    requires e.Lit?
    ensures LiteralOk(e.lit) ==> Good(e, ATOM_LEVEL, s)
  {
  }

  lemma PrintableIsGood(e: Expr, s: string)
    requires Printable(e)
    ensures Good(e, ATOM_LEVEL, s)
  {
  }

  lemma {:induction false} ParenthesizedOut(s: string)
    requires Parenthesized(s).POk?
    ensures Good(Parenthesized(s).value, ATOM_LEVEL, s)
    decreases |s|, 2
  {
    hide ExprOr, Good, Printable;
    OrOut(Kw(s, "(").value);
    PrintableIsGood(Parenthesized(s).value, s);
  }

  lemma {:induction false} ListOut(s: string)
    requires ListLiteral(s).POk?
    ensures Good(ListLiteral(s).value, ATOM_LEVEL, s)
    decreases |s|, 2
  {
    hide Separated, AllPrintable;
    var t := Kw(s, "[").value;
    SeparatedOut(false, t);
    ListGood(Separated(false, t).value, s);
  }

  lemma ListGood(items: seq<Expr>, s: string)
    requires AllPrintable(items)
    ensures Good(List(items), ATOM_LEVEL, s)
  {
    assert WellFormed(List(items));
  }

  /** A path or a call read at the start of `s`. */
  lemma PathGood(path: seq<string>, args: seq<Expr>, s: string)
    requires PathOk(path) && path[0] <= s && AllPrintable(args)
    ensures Good(Path(path), ATOM_LEVEL, s) && Good(Call(path, args), ATOM_LEVEL, s)
  {
    assert WellFormed(Path(path)) && WellFormed(Call(path, args));
    if "not" <= path[0] {
      PrefixTrans("not", path[0], s);
    }
  }

  lemma {:induction false} CallOrPathOut(s: string)
    requires CallOrPath(s).POk? && ExprLiteral(s) == Backtrack
    ensures Good(CallOrPath(s).value, ATOM_LEVEL, s)
    decreases |s|, 2
  {
    hide Separated, AllPrintable, PathParser, ExprLiteral, Good;
    PathOut(s);
    var (path, t) := PathParser(s).value;
    NoneArePrintable();
    PathGood(path, [], s);
    if Kw(t, "(").Some? {
      var inside := Kw(t, "(").value;
      SeparatedOut(true, inside);
      PathGood(path, Separated(true, inside).value, s);
    }
  }

  lemma NoneArePrintable()
    ensures AllPrintable([])
  {
  }

  lemma {:induction false} ElementOut(isArg: bool, s: string)
    requires Element(isArg, s).POk?
    ensures Printable(Element(isArg, s).value)
    decreases |s|, 13
  {
    hide ExprOr, Printable, KeywordArg;
    if isArg && KeywordArg(s).Some? {
      OrOut(KeywordArg(s).value);
    } else {
      OrOut(s);
    }
  }

  lemma {:induction false} SeparatedOut(isArg: bool, s: string)
    requires Separated(isArg, s).POk?
    ensures AllPrintable(Separated(isArg, s).value)
    decreases |s|, 14
  {
    hide Element, MoreElements, Printable;
    if Element(isArg, s).POk? {
      ElementOut(isArg, s);
      var e, rest := Element(isArg, s).value, Element(isArg, s).rest;
      assert [e][1..] == [];
      MoreElementsOut(isArg, [e], rest);
    }
  }

  lemma {:induction false} MoreElementsOut(isArg: bool, sofar: seq<Expr>, s: string)
    requires AllPrintable(sofar) && MoreElements(isArg, sofar, s).POk?
    ensures AllPrintable(MoreElements(isArg, sofar, s).value)
    decreases |s|, 14
  {
    hide Element, Printable, AllPrintable, SkipWs;
    if Kw(s, ",").Some? {
      var t := Kw(s, ",").value;
      if Element(isArg, t).POk? {
        ElementOut(isArg, t);
        var e, rest := Element(isArg, t).value, Element(isArg, t).rest;
        AllPrintableSnoc(sofar, e);
        MoreElementsOut(isArg, sofar + [e], rest);
      }
    }
  }

  lemma {:induction false} UnaryOut(s: string)
    requires ExprUnary(s).POk?
    ensures Good(ExprUnary(s).value, UNARY_LEVEL, s)
    decreases |s|, 4
  {
    hide ExprAtom, SkipWs, WellFormed;
    if Kw(s, "-").Some? {
      var t := Kw(s, "-").value;
      AtomOut(t);
      NegGood(ExprAtom(t).value, t, s);
    } else {
      AtomOut(s);
      GoodWeakens(ExprAtom(s).value, ATOM_LEVEL, UNARY_LEVEL, s);
    }
  }

  lemma NegGood(arg: Expr, t: string, s: string)
    requires Good(arg, ATOM_LEVEL, t) || (arg.Lit? && NegativeOk(arg.lit))
    ensures Good(Unary(Neg, arg), UNARY_LEVEL, s)
  {
  }

  /** Two operands read in their slots make a good binary expression of the operator's layer. */
  lemma BinaryGood(op: BinaryOp, l: Expr, r: Expr, s: string, t: string)
    requires OpLevel(op) >= CMP_LEVEL
    requires Good(l, LeftMin(op), s) && Good(r, RightMin(op), t)
    ensures Good(Binary(op, l, r), OpLevel(op), s)
  {
  }

  lemma OpLevels(s: string)
    ensures MulOp(s).Some? ==> OpLevel(MulOp(s).value.0) == MUL_LEVEL
    ensures AddOp(s).Some? ==> OpLevel(AddOp(s).value.0) == ADD_LEVEL
    ensures CmpOp(s).Some? ==> OpLevel(CmpOp(s).value.0) == CMP_LEVEL
  {
    hide SkipWs;
  }

  lemma {:induction false} MulOut(s: string)
    requires ExprMul(s).POk?
    ensures Good(ExprMul(s).value, MUL_LEVEL, s)
    decreases |s|, 5
  {
    hide ExprUnary, MulTail, Good;
    UnaryOut(s);
    GoodWeakens(ExprUnary(s).value, UNARY_LEVEL, MUL_LEVEL, s);
    MulTailOut(ExprUnary(s).value, ExprUnary(s).rest, s);
  }

  lemma {:induction false} MulTailOut(lhs: Expr, s: string, start: string)
    requires Good(lhs, MUL_LEVEL, start) && MulTail(lhs, s).POk?
    ensures Good(MulTail(lhs, s).value, MUL_LEVEL, start)
    decreases |s|, 11
  {
    hide ExprUnary, MulOp, Good;
    OpLevels(s);
    if MulOp(s).Some? {
      var (op, t) := MulOp(s).value;
      UnaryOut(t);
      var rhs := ExprUnary(t);
      BinaryGood(op, lhs, rhs.value, start, t);
      MulTailOut(Binary(op, lhs, rhs.value), rhs.rest, start);
    }
  }

  lemma {:induction false} AddOut(s: string)
    requires ExprAdd(s).POk?
    ensures Good(ExprAdd(s).value, ADD_LEVEL, s)
    decreases |s|, 6
  {
    hide ExprMul, AddTail, Good;
    MulOut(s);
    GoodWeakens(ExprMul(s).value, MUL_LEVEL, ADD_LEVEL, s);
    AddTailOut(ExprMul(s).value, ExprMul(s).rest, s);
  }

  lemma {:induction false} AddTailOut(lhs: Expr, s: string, start: string)
    requires Good(lhs, ADD_LEVEL, start) && AddTail(lhs, s).POk?
    ensures Good(AddTail(lhs, s).value, ADD_LEVEL, start)
    decreases |s|, 11
  {
    hide ExprMul, AddOp, Good;
    OpLevels(s);
    if AddOp(s).Some? {
      var (op, t) := AddOp(s).value;
      MulOut(t);
      var rhs := ExprMul(t);
      BinaryGood(op, lhs, rhs.value, start, t);
      AddTailOut(Binary(op, lhs, rhs.value), rhs.rest, start);
    }
  }

  lemma {:induction false} CmpOut(s: string)
    requires ExprCmp(s).POk?
    ensures Good(ExprCmp(s).value, CMP_LEVEL, s)
    decreases |s|, 7
  {
    hide ExprAdd, CmpOp, Good;
    AddOut(s);
    var lhs := ExprAdd(s);
    OpLevels(lhs.rest);
    if CmpOp(lhs.rest).Some? {
      var (op, t) := CmpOp(lhs.rest).value;
      AddOut(t);
      BinaryGood(op, lhs.value, ExprAdd(t).value, s, t);
    } else {
      GoodWeakens(lhs.value, ADD_LEVEL, CMP_LEVEL, s);
    }
  }

  lemma {:induction false} NotOut(s: string)
    requires ExprNot(s).POk?
    ensures Printable(ExprNot(s).value)
    decreases |s|, 8
  {
    hide ExprCmp, SkipWs, WellFormed, NotSafe;
    if Kw(s, "not").Some? {
      var t := Kw(s, "not").value;
      CmpOut(t);
      NotGood(ExprCmp(t).value, t);
    } else {
      CmpOut(s);
    }
  }

  lemma NotGood(arg: Expr, t: string)
    requires Good(arg, CMP_LEVEL, t)
    ensures Printable(Unary(Not, arg))
  {
  }

  lemma LogicGood(op: BinaryOp, l: Expr, r: Expr)
    requires (op == And || op == Or) && Printable(l) && Printable(r)
    ensures Printable(Binary(op, l, r))
  {
  }

  lemma {:induction false} AndOut(s: string)
    requires ExprAnd(s).POk?
    ensures Printable(ExprAnd(s).value)
    decreases |s|, 9
  {
    hide ExprNot, AndTail, Printable;
    NotOut(s);
    AndTailOut(ExprNot(s).value, ExprNot(s).rest);
  }

  lemma {:induction false} AndTailOut(lhs: Expr, s: string)
    requires Printable(lhs) && AndTail(lhs, s).POk?
    ensures Printable(AndTail(lhs, s).value)
    decreases |s|, 11
  {
    hide ExprNot, Printable, SkipWs;
    if Kw(s, "and").Some? {
      var t := Kw(s, "and").value;
      NotOut(t);
      LogicGood(And, lhs, ExprNot(t).value);
      AndTailOut(Binary(And, lhs, ExprNot(t).value), ExprNot(t).rest);
    }
  }

  /** Every expression the parser returns is printable. */
  lemma {:induction false} OrOut(s: string)
    requires ExprOr(s).POk?
    ensures Printable(ExprOr(s).value)
    decreases |s|, 10
  {
    hide ExprAnd, OrTail, Printable;
    AndOut(s);
    OrTailOut(ExprAnd(s).value, ExprAnd(s).rest);
  }

  lemma {:induction false} OrTailOut(lhs: Expr, s: string)
    requires Printable(lhs) && OrTail(lhs, s).POk?
    ensures Printable(OrTail(lhs, s).value)
    decreases |s|, 11
  {
    hide ExprAnd, Printable, SkipWs;
    if Kw(s, "or").Some? {
      var t := Kw(s, "or").value;
      AndOut(t);
      LogicGood(Or, lhs, ExprAnd(t).value);
      OrTailOut(Binary(Or, lhs, ExprAnd(t).value), ExprAnd(t).rest);
    }
  }

  // ----- The two together

  /** Printing what was parsed, in any layout, and parsing it again changes nothing. */
  lemma Normalizes(lay: Layout, s: string, end: Gap)
    requires ExprOr(s).POk?
    ensures ExprOr(Text(lay, ExprOr(s).value) + GapText(end)) == POk(ExprOr(s).value, "")
  {
    hide ExprOr, Text, Printable, GapText;
    OrOut(s);
    RoundTrip(lay, ExprOr(s).value, end);
  }

  /** The printable expressions are exactly those some input parses to. */
  lemma PrintableIsExpressible(e: Expr)
    ensures Printable(e) <==> exists s :: ExprOr(s).POk? && ExprOr(s).value == e
  {
    hide ExprOr, Text, Printable;
    if Printable(e) {
      RoundTrip(PLAIN, e, []);
      var s := Text(PLAIN, e) + GapText([]);
      assert ExprOr(s).POk? && ExprOr(s).value == e;
    }
    if s :| ExprOr(s).POk? && ExprOr(s).value == e {
      OrOut(s);
    }
  }
}
