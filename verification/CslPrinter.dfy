/** Printing expressions with the parentheses the grammar needs, and which expressions the grammar
  * can express at all. */
module CslPrinter {
  import opened Numbers
  import opened CslSyntax
  import opened CslLayout

  // ----- Precedence

  const OR_LEVEL: nat := 1
  const AND_LEVEL: nat := 2
  const NOT_LEVEL: nat := 3
  const CMP_LEVEL: nat := 4
  const ADD_LEVEL: nat := 5
  const MUL_LEVEL: nat := 6
  const UNARY_LEVEL: nat := 7
  const ATOM_LEVEL: nat := 8

  function OpLevel(op: BinaryOp): nat {
    match op
    case Or => OR_LEVEL
    case And => AND_LEVEL
    case Add => ADD_LEVEL
    case Sub => ADD_LEVEL
    case Mul => MUL_LEVEL
    case Div => MUL_LEVEL
    case _ => CMP_LEVEL
  }

  /** The loosest layer that reads this expression without parentheses. */
  function Level(e: Expr): nat {
    match e
    case Binary(op, _, _) => OpLevel(op)
    case Unary(Not, _) => NOT_LEVEL
    case Unary(Neg, _) => UNARY_LEVEL
    case _ => ATOM_LEVEL
  }

  /** Layer of the left operand: the same for the looping operators, tighter for comparisons. */
  function LeftMin(op: BinaryOp): nat {
    if OpLevel(op) == CMP_LEVEL then ADD_LEVEL else OpLevel(op)
  }

  function RightMin(op: BinaryOp): nat {
    OpLevel(op) + 1
  }

  // ----- Text

  function EscapeChar(c: char): string {
    if c == '"' then "\\\""
    else if c == '\\' then "\\\\"
    else if c == '\n' then "\\n"
    else if c == '\t' then "\\t"
    else [c]
  }

  function Escape(s: string): string {
    if s == "" then "" else EscapeChar(s[0]) + Escape(s[1..])
  }

  function LiteralText(lit: Literal): string {
    match lit
    case LInteger(n) => if n < 0 then "-" + Decimal(-n) else Decimal(n)
    case LFloat(text) => text
    case LString(s) => "\"" + Escape(s) + "\""
    case LDuration(n, unit) => (if n < 0 then "-" + Decimal(-n) else Decimal(n)) + UnitText(unit)
    case LBool(b) => if b then "true" else "false"
    case LNull => "null"
  }

  function PathText(segs: seq<string>): string {
    if segs == [] then ""
    else if |segs| == 1 then segs[0]
    else segs[0] + "." + PathText(segs[1..])
  }

  /** `ident ==` would be read as the start of a keyword argument. */
  predicate StartsIdentEq(e: Expr)
    decreases e
  {
    e.Binary? && Level(e.left) >= LeftMin(e.bop) &&
    (StartsIdentEq(e.left) ||
     (e.bop == Eq && e.left.Path? && |e.left.segs| == 1 && !Reserved(e.left.segs[0])))
  }

  predicate IsWordOp(op: BinaryOp) {
    op == And || op == Or || op == In || op == NotIn
  }

  /** The operator with the gaps around it: words are kept apart from what stands before them. */
  function OpThen(sp: Spacing, op: BinaryOp, rest: string): string {
    (if IsWordOp(op) then GapText(sp.separator) else GapText(sp.left)) + OpBefore(sp, op, rest)
  }

  function OpBefore(sp: Spacing, op: BinaryOp, rest: string): string {
    (if op == NotIn then "not" + GapText(sp.inner) + "in" else OpText(op)) +
    ((if op == Div then GapText(sp.calm) else GapText(sp.right)) + rest)
  }

  /** The text of `e` in the layout `lay`. */
  function Text(lay: Layout, e: Expr): string
    decreases e, 1
  {
    match e
    case Lit(lit) => LiteralText(lit)
    case Path(segs) => PathText(segs)
    case Unary(Not, arg) => "not" + (GapText(lay([]).separator) + Slot(Under(lay, 0), arg, CMP_LEVEL))
    case Unary(Neg, arg) => "-" + (GapText(lay([]).right) + Slot(Under(lay, 0), arg, ATOM_LEVEL))
    case Binary(op, l, r) =>
      Slot(Under(lay, 0), l, LeftMin(op)) + OpThen(lay([]), op, Slot(Under(lay, 1), r, RightMin(op)))
    case Call(path, args) =>
      PathText(path) + (GapText(lay([]).call) + ("(" + (GapText(lay([]).open) + (ElementTexts(Under(lay, 0), true, args) + ")"))))
    case List(items) => "[" + (GapText(lay([]).open) + (ElementTexts(Under(lay, 0), false, items) + "]"))
  }

  function Parenthesised(lay: Layout, text: string): string {
    "(" + (GapText(lay([]).open) + (text + (GapText(lay([]).close) + ")")))
  }

  /** The text of `e` where an expression of layer `min` is read. */
  function Slot(lay: Layout, e: Expr, min: nat): string
    decreases e, 2
  {
    if Level(e) < min then Parenthesised(lay, Text(lay, e)) else Text(lay, e)
  }

  function ElementText(lay: Layout, isArg: bool, e: Expr): string
    decreases e, 2
  {
    if isArg && StartsIdentEq(e) then Parenthesised(lay, Text(lay, e)) else Text(lay, e)
  }

  function ElementTexts(lay: Layout, isArg: bool, es: seq<Expr>): string
    decreases es, 0
  {
    if es == [] then ""
    else
      ElementText(Under(lay, 0), isArg, es[0]) +
      (GapText(lay([]).trail) +
       (if |es| == 1 then "" else "," + (GapText(lay([]).right) + ElementTexts(Under(lay, 1), isArg, es[1..]))))
  }

  // ----- Expressibility

  predicate StartsWithWord(s: string) {
    "true" <= s || "false" <= s || "null" <= s
  }

  predicate PathOk(segs: seq<string>) {
    segs != [] && (forall k :: 0 <= k < |segs| ==> IsIdent(segs[k])) && !StartsWithWord(segs[0])
  }

  /** digits "." digits */
  predicate FloatOk(s: string) {
    exists i :: 0 < i < |s| - 1 && AllDigits(s[..i]) && s[i] == '.' && AllDigits(s[i + 1..])
  }

  predicate LiteralOk(lit: Literal) {
    match lit
    case LInteger(n) => 0 <= n <= I64_MAX
    case LFloat(text) => FloatOk(text)
    case LDuration(n, _) => 0 <= n <= I64_MAX
    case _ => true
  }

  /** A negative literal is read only right behind a minus sign. (A sign before zero is dropped.) */
  predicate NegativeOk(lit: Literal) {
    match lit
    case LInteger(n) => I64_MIN <= n < 0
    case LFloat(text) => "-" <= text && FloatOk(text[1..])
    case _ => false
  }

  /** The text of an expression of a comparison layer or tighter starts with `not`, which the layer
    * above would read as the operator. */
  predicate StartsNot(e: Expr)
    decreases e
  {
    match e
    case Path(segs) => segs != [] && "not" <= segs[0]
    case Call(path, _) => path != [] && "not" <= path[0]
    case Binary(op, l, _) => Level(l) >= LeftMin(op) && StartsNot(l)
    case _ => false
  }

  /** The expression survives being read from the `not` layer or above. */
  predicate NotSafe(e: Expr) {
    Level(e) >= CMP_LEVEL ==> !StartsNot(e)
  }

  /** In a slot of this layer: parentheses, if needed, are read from the top layer. */
  predicate SlotOk(e: Expr, min: nat)
    decreases e, 2
  {
    WellFormed(e) && (Level(e) < min ==> NotSafe(e))
  }

  predicate WellFormed(e: Expr)
    decreases e, 1
  {
    match e
    case Lit(lit) => LiteralOk(lit)
    case Path(segs) => PathOk(segs)
    case Unary(Not, arg) => SlotOk(arg, CMP_LEVEL)
    case Unary(Neg, arg) => (arg.Lit? && NegativeOk(arg.lit)) || SlotOk(arg, ATOM_LEVEL)
    case Binary(op, l, r) =>
      SlotOk(l, LeftMin(op)) && SlotOk(r, RightMin(op)) && (op == Or || op == And ==> NotSafe(l) && NotSafe(r))
    case Call(path, args) => PathOk(path) && AllPrintable(args)
    case List(items) => AllPrintable(items)
  }

  /** The grammar can express this expression. */
  predicate Printable(e: Expr)
    decreases e, 3
  {
    WellFormed(e) && NotSafe(e)
  }

  predicate AllPrintable(es: seq<Expr>)
    decreases es, 0
  {
    es == [] || (Printable(es[0]) && AllPrintable(es[1..]))
  }
}
