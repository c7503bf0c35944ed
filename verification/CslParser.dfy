/** The expression grammar of the parser, as functions from the remaining input to a result and the
  * input that remains after it. Keywords and operators match by prefix, alternatives are tried in
  * order and give way on a backtracking failure only. */
module CslParser {
  import opened Numbers
  import opened Wrappers
  import opened CslSyntax

  /** `ErrMode`: a backtracking failure lets the next alternative run, a cut does not. */
  datatype Parsed<+T> = POk(value: T, rest: string) | Backtrack | Cut

  // ----- Blanks and comments

  /** The rest of the input from the line break (or the end) on. */
  function DropLine(s: string): (r: string)
    ensures |r| <= |s|
  {
    if s == "" || s[0] == '\n' then s else DropLine(s[1..])
  }

  /** The input behind the first end-of-comment mark, if there is one. */
  function AfterClose(s: string): (r: Option<string>)
    ensures r.Some? ==> |r.value| < |s|
  {
    if s == "" then None
    else if "*/" <= s then Some(s[2..])
    else AfterClose(s[1..])
  }

  function SkipWs(s: string): (r: string)
    ensures |r| <= |s|
    decreases |s|
  {
    if s == "" then s
    else if IsSpace(s[0]) then SkipWs(s[1..])
    else if "//" <= s then SkipWs(DropLine(s[2..]))
    else if "/*" <= s then
      match AfterClose(s[2..])
      case Some(rest) => SkipWs(rest)
      case None => s
    else s
  }

  /** `kw`: a literal prefix, then blanks. */
  function Kw(s: string, word: string): (r: Option<string>)
    ensures r.Some? && word != "" ==> |r.value| < |s|
  {
    if word <= s then Some(SkipWs(s[|word|..])) else None
  }

  // ----- Identifiers and paths

  /** Length of the run of identifier characters. */
  function IdentRun(s: string): (n: nat)
    ensures n <= |s|
    ensures AllIdentChars(s[..n])
    ensures n < |s| ==> !IsIdentChar(s[n])
  {
    if s != "" && IsIdentChar(s[0]) then
      var n := 1 + IdentRun(s[1..]);
      assert forall k :: 1 <= k < n ==> s[..n][k] == s[1..][..n - 1][k - 1];
      n
    else 0
  }

  function TakeIdent(s: string): (r: Option<(string, string)>)
    ensures r.Some? ==> IsIdent(r.value.0) && s == r.value.0 + r.value.1
  {
    if s != "" && IsIdentStart(s[0]) then Some((s[..IdentRun(s)], s[IdentRun(s)..])) else None
  }

  /** `ident`: reserved words are refused. */
  function Ident(s: string): (r: Option<(string, string)>)
    ensures r.Some? ==> |r.value.1| < |s|
  {
    match TakeIdent(s)
    case Some((name, rest)) => if Reserved(name) then None else Some((name, SkipWs(rest)))
    case None => None
  }

  /** More `.segment`s; a dot without an identifier behind it is left alone. */
  function MoreSegments(segs: seq<string>, s: string): (r: (seq<string>, string))
    ensures |r.1| <= |s|
    decreases |s|
  {
    if "." <= s then
      match TakeIdent(s[1..])
      case Some((name, rest)) => MoreSegments(segs + [name], rest)
      case None => (segs, s)
    else (segs, s)
  }

  function PathParser(s: string): (r: Option<(seq<string>, string)>)
    ensures r.Some? ==> |r.value.1| < |s|
  {
    match TakeIdent(s)
    case Some((name, rest)) =>
      var (segs, tail) := MoreSegments([name], rest);
      Some((segs, SkipWs(tail)))
    case None => None
  }

  // ----- Literals

  function DigitRun(s: string): (n: nat)
    ensures n <= |s|
    ensures AllDigits(s[..n])
    ensures n < |s| ==> !IsDigit(s[n])
  {
    if s != "" && IsDigit(s[0]) then
      var n := 1 + DigitRun(s[1..]);
      assert forall k :: 1 <= k < n ==> s[..n][k] == s[1..][..n - 1][k - 1];
      n
    else 0
  }

  function DurationUnitAt(s: string): (r: Option<(DurationUnit, string)>)
    ensures r.Some? ==> |r.value.1| < |s|
  {
    if "ns" <= s then Some((Ns, s[2..]))
    else if "us" <= s then Some((Us, s[2..]))
    else if "ms" <= s then Some((Ms, s[2..]))
    else if "mo" <= s then Some((Mo, s[2..]))
    else if "s" <= s then Some((S, s[1..]))
    else if "m" <= s then Some((M, s[1..]))
    else if "h" <= s then Some((H, s[1..]))
    else if "d" <= s then Some((D, s[1..]))
    else if "w" <= s then Some((W, s[1..]))
    else if "y" <= s then Some((Y, s[1..]))
    else None
  }

  function DurationLiteral(s: string): (r: Option<(Literal, string)>)
    ensures r.Some? ==> |r.value.1| < |s|
  {
    var n := DigitRun(s);
    if n == 0 || DecimalValue(s[..n]) > I64_MAX then None
    else
      match DurationUnitAt(s[n..])
      case Some((unit, rest)) => Some((LDuration(DecimalValue(s[..n]), unit), SkipWs(rest)))
      case None => None
  }

  /** Length of an optional minus sign. */
  function SignLength(s: string): nat {
    if "-" <= s then 1 else 0
  }

  function FloatLiteral(s: string): (r: Option<(Literal, string)>)
    ensures r.Some? ==> |r.value.1| < |s|
  {
    var i := SignLength(s);
    var n := DigitRun(s[i..]);
    if n == 0 || !("." <= s[i + n..]) then None
    else
      var m := DigitRun(s[i + n + 1..]);
      if m == 0 then None else Some((LFloat(s[..i + n + 1 + m]), SkipWs(s[i + n + 1 + m..])))
  }

  /** An integer outside 64 bits is a cut: no later alternative is tried. */
  function IntegerLiteral(s: string): (r: Parsed<Literal>)
    ensures r.POk? ==> |r.rest| < |s|
  {
    var i := SignLength(s);
    var n := DigitRun(s[i..]);
    if n == 0 then Backtrack
    else
      var magnitude: int := DecimalValue(s[i..][..n]);
      var v := if i == 1 then -magnitude else magnitude;
      if I64_MIN <= v <= I64_MAX then POk(LInteger(v), SkipWs(s[i + n..])) else Cut
  }

  function Unescape(c: char): Option<char> {
    if c == '"' || c == '\\' then Some(c)
    else if c == 'n' then Some('\n')
    else if c == 't' then Some('\t')
    else None
  }

  /** The characters of a string body as far as they go. */
  function StringChars(s: string): (r: (string, string))
    ensures |r.1| <= |s|
  {
    if s == "" || s[0] == '"' then ("", s)
    else if s[0] == '\\' then
      if |s| > 1 && Unescape(s[1]).Some? then
        var (more, rest) := StringChars(s[2..]);
        ([Unescape(s[1]).value] + more, rest)
      else ("", s)
    else
      var (more, rest) := StringChars(s[1..]);
      ([s[0]] + more, rest)
  }

  function StringLiteral(s: string): (r: Option<(Literal, string)>)
    ensures r.Some? ==> |r.value.1| < |s|
  {
    if !("\"" <= s) then None
    else
      var (body, rest) := StringChars(s[1..]);
      if "\"" <= rest then Some((LString(body), SkipWs(rest[1..]))) else None
  }

  function WordLiteral(s: string): (r: Option<(Literal, string)>)
    ensures r.Some? ==> |r.value.1| < |s|
  {
    if "true" <= s then Some((LBool(true), SkipWs(s[4..])))
    else if "false" <= s then Some((LBool(false), SkipWs(s[5..])))
    else if "null" <= s then Some((LNull, SkipWs(s[4..])))
    else None
  }

  function ExprLiteral(s: string): (r: Parsed<Expr>)
    ensures r.POk? ==> |r.rest| < |s|
  {
    match DurationLiteral(s)
    case Some((lit, rest)) => POk(Lit(lit), rest)
    case None =>
      match FloatLiteral(s)
      case Some((lit, rest)) => POk(Lit(lit), rest)
      case None =>
        match IntegerLiteral(s)
        case POk(lit, rest) => POk(Lit(lit), rest)
        case Cut => Cut
        case Backtrack =>
          match StringLiteral(s)
          case Some((lit, rest)) => POk(Lit(lit), rest)
          case None =>
            match WordLiteral(s)
            case Some((lit, rest)) => POk(Lit(lit), rest)
            case None => Backtrack
  }

  // ----- Operators

  /** A comparison operator, longer spellings first. */
  function CmpOp(s: string): (r: Option<(BinaryOp, string)>)
    ensures r.Some? ==> |r.value.1| < |s|
  {
    if Kw(s, "==").Some? then Some((Eq, Kw(s, "==").value))
    else if Kw(s, "!=").Some? then Some((Ne, Kw(s, "!=").value))
    else if Kw(s, "<=").Some? then Some((Le, Kw(s, "<=").value))
    else if Kw(s, ">=").Some? then Some((Ge, Kw(s, ">=").value))
    else if Kw(s, "<").Some? then Some((Lt, Kw(s, "<").value))
    else if Kw(s, ">").Some? then Some((Gt, Kw(s, ">").value))
    else if Kw(s, "not").Some? && Kw(Kw(s, "not").value, "in").Some? then
      Some((NotIn, Kw(Kw(s, "not").value, "in").value))
    else if Kw(s, "in").Some? then Some((In, Kw(s, "in").value))
    else None
  }

  function AddOp(s: string): (r: Option<(BinaryOp, string)>)
    ensures r.Some? ==> |r.value.1| < |s|
  {
    if Kw(s, "+").Some? then Some((Add, Kw(s, "+").value))
    else if Kw(s, "-").Some? then Some((Sub, Kw(s, "-").value))
    else None
  }

  function MulOp(s: string): (r: Option<(BinaryOp, string)>)
    ensures r.Some? ==> |r.value.1| < |s|
  {
    if Kw(s, "*").Some? then Some((Mul, Kw(s, "*").value))
    else if Kw(s, "/").Some? then Some((Div, Kw(s, "/").value))
    else None
  }

  // ----- The precedence layers

  function ExprOr(s: string): (r: Parsed<Expr>)
    ensures r.POk? ==> |r.rest| < |s|
    decreases |s|, 10
  {
    match ExprAnd(s)
    case POk(lhs, rest) => OrTail(lhs, rest)
    case fail => fail
  }

  function OrTail(lhs: Expr, s: string): (r: Parsed<Expr>)
    ensures r.POk? ==> |r.rest| <= |s|
    decreases |s|, 11
  {
    match Kw(s, "or")
    case None => POk(lhs, s)
    case Some(t) =>
      match ExprAnd(t)
      case POk(rhs, rest) => OrTail(Binary(Or, lhs, rhs), rest)
      case fail => fail
  }

  function ExprAnd(s: string): (r: Parsed<Expr>)
    ensures r.POk? ==> |r.rest| < |s|
    decreases |s|, 9
  {
    match ExprNot(s)
    case POk(lhs, rest) => AndTail(lhs, rest)
    case fail => fail
  }

  function AndTail(lhs: Expr, s: string): (r: Parsed<Expr>)
    ensures r.POk? ==> |r.rest| <= |s|
    decreases |s|, 11
  {
    match Kw(s, "and")
    case None => POk(lhs, s)
    case Some(t) =>
      match ExprNot(t)
      case POk(rhs, rest) => AndTail(Binary(And, lhs, rhs), rest)
      case fail => fail
  }

  function ExprNot(s: string): (r: Parsed<Expr>)
    ensures r.POk? ==> |r.rest| < |s|
    decreases |s|, 8
  {
    match Kw(s, "not")
    case None => ExprCmp(s)
    case Some(t) =>
      match ExprCmp(t)
      case POk(inner, rest) => POk(Unary(Not, inner), rest)
      case fail => fail
  }

  function ExprCmp(s: string): (r: Parsed<Expr>)
    ensures r.POk? ==> |r.rest| < |s|
    decreases |s|, 7
  {
    match ExprAdd(s)
    case POk(lhs, rest) =>
      (match CmpOp(rest)
       case None => POk(lhs, rest)
       case Some((op, t)) =>
         match ExprAdd(t)
         case POk(rhs, rest') => POk(Binary(op, lhs, rhs), rest')
         case fail => fail)
    case fail => fail
  }

  function ExprAdd(s: string): (r: Parsed<Expr>)
    ensures r.POk? ==> |r.rest| < |s|
    decreases |s|, 6
  {
    match ExprMul(s)
    case POk(lhs, rest) => AddTail(lhs, rest)
    case fail => fail
  }

  function AddTail(lhs: Expr, s: string): (r: Parsed<Expr>)
    ensures r.POk? ==> |r.rest| <= |s|
    decreases |s|, 11
  {
    match AddOp(s)
    case None => POk(lhs, s)
    case Some((op, t)) =>
      match ExprMul(t)
      case POk(rhs, rest) => AddTail(Binary(op, lhs, rhs), rest)
      case fail => fail
  }

  function ExprMul(s: string): (r: Parsed<Expr>)
    ensures r.POk? ==> |r.rest| < |s|
    decreases |s|, 5
  {
    match ExprUnary(s)
    case POk(lhs, rest) => MulTail(lhs, rest)
    case fail => fail
  }

  function MulTail(lhs: Expr, s: string): (r: Parsed<Expr>)
    ensures r.POk? ==> |r.rest| <= |s|
    decreases |s|, 11
  {
    match MulOp(s)
    case None => POk(lhs, s)
    case Some((op, t)) =>
      match ExprUnary(t)
      case POk(rhs, rest) => MulTail(Binary(op, lhs, rhs), rest)
      case fail => fail
  }

  function ExprUnary(s: string): (r: Parsed<Expr>)
    ensures r.POk? ==> |r.rest| < |s|
    decreases |s|, 4
  {
    match Kw(s, "-")
    case None => ExprAtom(s)
    case Some(t) =>
      match ExprAtom(t)
      case POk(inner, rest) => POk(Unary(Neg, inner), rest)
      case fail => fail
  }

  /** Literals come before paths, so that `true`, `false` and `null` never start a path. */
  function ExprAtom(s: string): (r: Parsed<Expr>)
    ensures r.POk? ==> |r.rest| < |s|
    decreases |s|, 3
  {
    match Parenthesized(s)
    case Backtrack =>
      (match ListLiteral(s)
       case Backtrack =>
         (match ExprLiteral(s)
          case Backtrack => CallOrPath(s)
          case done => done)
       case done => done)
    case done => done
  }

  function Parenthesized(s: string): (r: Parsed<Expr>)
    ensures r.POk? ==> |r.rest| < |s|
    decreases |s|, 2
  {
    match Kw(s, "(")
    case None => Backtrack
    case Some(t) =>
      match ExprOr(t)
      case POk(e, rest) =>
        (match Kw(rest, ")")
         case Some(after) => POk(e, after)
         case None => Backtrack)
      case fail => fail
  }

  function ListLiteral(s: string): (r: Parsed<Expr>)
    ensures r.POk? ==> |r.rest| < |s|
    decreases |s|, 2
  {
    match Kw(s, "[")
    case None => Backtrack
    case Some(t) =>
      match Separated(false, t)
      case POk(items, rest) =>
        (match Kw(rest, "]")
         case Some(after) => POk(List(items), after)
         case None => Backtrack)
      case Backtrack => Backtrack
      case Cut => Cut
  }

  function CallOrPath(s: string): (r: Parsed<Expr>)
    ensures r.POk? ==> |r.rest| < |s|
    decreases |s|, 2
  {
    match PathParser(s)
    case None => Backtrack
    case Some((path, t)) =>
      match Kw(t, "(")
      case None => POk(Path(path), t)
      case Some(inside) =>
        match Separated(true, inside)
        case POk(args, rest) =>
          (match Kw(rest, ")")
           case Some(after) => POk(Call(path, args), after)
           case None => Backtrack)
        case Backtrack => Backtrack
        case Cut => Cut
  }

  /** What follows `ident =`, when the input starts so. */
  function KeywordArg(s: string): (r: Option<string>)
    ensures r.Some? ==> |r.value| < |s|
  {
    match Ident(s)
    case Some((_, t)) => Kw(t, "=")
    case None => None
  }

  /** A call argument; the keyword of `ident = expr` is dropped. */
  function CallArg(s: string): (r: Parsed<Expr>)
    ensures r.POk? ==> |r.rest| < |s|
    decreases |s|, 12
  {
    match KeywordArg(s)
    case Some(t) => ExprOr(t)
    case None => ExprOr(s)
  }

  function Element(isArg: bool, s: string): (r: Parsed<Expr>)
    ensures r.POk? ==> |r.rest| < |s|
    decreases |s|, 13
  {
    if isArg then CallArg(s) else ExprOr(s)
  }

  /** Zero or more elements between commas; a comma with no element behind it is left alone. */
  function Separated(isArg: bool, s: string): (r: Parsed<seq<Expr>>)
    ensures r.POk? ==> |r.rest| <= |s|
    decreases |s|, 14
  {
    match Element(isArg, s)
    case POk(e, rest) => MoreElements(isArg, [e], rest)
    case Backtrack => POk([], s)
    case Cut => Cut
  }

  function MoreElements(isArg: bool, sofar: seq<Expr>, s: string): (r: Parsed<seq<Expr>>)
    ensures r.POk? ==> |r.rest| <= |s|
    decreases |s|, 14
  {
    match Kw(s, ",")
    case None => POk(sofar, s)
    case Some(t) =>
      match Element(isArg, t)
      case POk(e, rest) => MoreElements(isArg, sofar + [e], rest)
      case Backtrack => POk(sofar, s)
      case Cut => Cut
  }

  // ----- The loops of the precedence layers

  method ParseOr(s: string) returns (r: Parsed<Expr>)
    ensures r == ExprOr(s)
  {
    r := ExprAnd(s);
    while r.POk? && Kw(r.rest, "or").Some?
      invariant r.POk? ==> OrTail(r.value, r.rest) == ExprOr(s)
      invariant !r.POk? ==> r == ExprOr(s)
      decreases if r.POk? then 1 + |r.rest| else 0
    {
      var lhs, t := r.value, Kw(r.rest, "or").value;
      r := ExprAnd(t);
      if r.POk? {
        r := POk(Binary(Or, lhs, r.value), r.rest);
      }
    }
  }

  method ParseAnd(s: string) returns (r: Parsed<Expr>)
    ensures r == ExprAnd(s)
  {
    r := ExprNot(s);
    while r.POk? && Kw(r.rest, "and").Some?
      invariant r.POk? ==> AndTail(r.value, r.rest) == ExprAnd(s)
      invariant !r.POk? ==> r == ExprAnd(s)
      decreases if r.POk? then 1 + |r.rest| else 0
    {
      var lhs, t := r.value, Kw(r.rest, "and").value;
      r := ExprNot(t);
      if r.POk? {
        r := POk(Binary(And, lhs, r.value), r.rest);
      }
    }
  }

  method ParseAdd(s: string) returns (r: Parsed<Expr>)
    ensures r == ExprAdd(s)
  {
    r := ExprMul(s);
    while r.POk? && AddOp(r.rest).Some?
      invariant r.POk? ==> AddTail(r.value, r.rest) == ExprAdd(s)
      invariant !r.POk? ==> r == ExprAdd(s)
      decreases if r.POk? then 1 + |r.rest| else 0
    {
      var lhs := r.value;
      var (op, t) := AddOp(r.rest).value;
      r := ExprMul(t);
      if r.POk? {
        r := POk(Binary(op, lhs, r.value), r.rest);
      }
    }
  }

  method ParseMul(s: string) returns (r: Parsed<Expr>)
    ensures r == ExprMul(s)
  {
    r := ExprUnary(s);
    while r.POk? && MulOp(r.rest).Some?
      invariant r.POk? ==> MulTail(r.value, r.rest) == ExprMul(s)
      invariant !r.POk? ==> r == ExprMul(s)
      decreases if r.POk? then 1 + |r.rest| else 0
    {
      var lhs := r.value;
      var (op, t) := MulOp(r.rest).value;
      r := ExprUnary(t);
      if r.POk? {
        r := POk(Binary(op, lhs, r.value), r.rest);
      }
    }
  }
}
