/** What a policy predicate means for a caller and a record, told on the parsed values: no bytecode, no stack. */
module PolicyMeaning {
  import opened Wrappers
  import opened JsonText
  import opened JsonValue
  import opened CslSyntax
  import Printer = CslPrinter
  import Utf8

  /** A text as its bytes. */
  function Bytes8(s: string): Bytes {
    Utf8.TextBytes(s)
  }

  function Keys(segs: seq<string>): seq<Bytes> {
    if segs == [] then [] else [Bytes8(segs[0])] + Keys(segs[1..])
  }

  // ----- Values

  /** Predicates have no objects: one counts as null. */
  function Collapsed(v: Value): Value {
    if v.Object? then Null else v
  }

  /** The value under a path of keys; a missing one is null. */
  function At(v: Value, path: seq<Bytes>): Value
    decreases |path|
  {
    if path == [] then Collapsed(v)
    else if v.Object? && path[0] in v.fields then At(v.fields[path[0]], path[1..])
    else Null
  }

  /** Integers are exact among themselves and floats beside floats. */
  predicate SameNumber(fl: Floats, a: Number, b: Number) {
    match (a, b)
    case (I64(x), I64(y)) => x == y
    case (F64(x), F64(y)) => fl.eq(x, y)
    case (I64(x), F64(y)) => fl.eq(fl.widen(x), y)
    case (F64(x), I64(y)) => fl.eq(fl.widen(y), x)
  }

  /** Lists equal nothing. */
  predicate Same(fl: Floats, a: Value, b: Value) {
    match (Collapsed(a), Collapsed(b))
    case (Null, Null) => true
    case (Bool(x), Bool(y)) => x == y
    case (String(x), String(y)) => x == y
    case (Number(x), Number(y)) => SameNumber(fl, x, y)
    case _ => false
  }

  function Float(fl: Floats, n: Number): F64 {
    match n
    case I64(x) => fl.widen(x)
    case F64(f) => f
  }

  predicate Ordered(fl: Floats, op: BinaryOp, x: F64, y: F64) {
    match op
    case Lt => fl.lt(x, y)
    case Le => fl.le(x, y)
    case Gt => fl.lt(y, x)
    case Ge => fl.le(y, x)
    case _ => false
  }

  /** What a binary operator answers, if it applies to these operands. */
  function Applied(fl: Floats, op: BinaryOp, a: Value, b: Value): Option<bool> {
    match op
    case Eq => Some(Same(fl, a, b))
    case Ne => Some(!Same(fl, a, b))
    case And => if a.Bool? && b.Bool? then Some(a.b && b.b) else None
    case Or => if a.Bool? && b.Bool? then Some(a.b || b.b) else None
    case In => if b.Array? then Some(exists x | x in b.items :: Same(fl, a, x)) else None
    case NotIn => if b.Array? then Some(!exists x | x in b.items :: Same(fl, a, x)) else None
    case Add => None
    case Sub => None
    case Mul => None
    case Div => None
    case _ => if a.Number? && b.Number? then Some(Ordered(fl, op, Float(fl, a.n), Float(fl, b.n))) else None
  }

  predicate Plays(caller: Value, role: Bytes) {
    var roles := At(caller, [Bytes8("roles")]);
    roles.Array? && String(role) in roles.items
  }

  predicate SameTenant(caller: Value, record: Value) {
    var tenant := At(caller, [Bytes8("tenant")]);
    tenant.String? && At(record, [Bytes8("tenant")]) == tenant
  }

  // ----- Predicates

  function LiteralMeans(fl: Floats, lit: Literal): Option<Value> {
    match lit
    case LNull => Some(Null)
    case LBool(b) => Some(Bool(b))
    case LInteger(n) => Some(Number(I64(n)))
    case LFloat(text) =>
      (match fl.parse(Bytes8(text))
       case Some(f) => Some(Number(F64(f)))
       case None => None)
    case LString(s) => Some(String(Bytes8(s)))
    case LDuration(_, _) => None
  }

  function PathMeans(segs: seq<string>, caller: Value, record: Value): Option<Value> {
    if segs == [] then None
    else if segs[0] == "caller" then Some(At(caller, Keys(segs[1..])))
    else if segs[0] == "self" then Some(At(record, Keys(segs[1..])))
    else None
  }

  /** The value of a predicate; nothing when an operand does not fit its operator. Both operands count, whatever
    * the first one says. */
  function Meaning(fl: Floats, e: Expr, caller: Value, record: Value): Option<Value>
    decreases e
  {
    match e
    case Lit(lit) => LiteralMeans(fl, lit)
    case Path(segs) => PathMeans(segs, caller, record)
    case Unary(Not, arg) =>
      (match Meaning(fl, arg, caller, record)
       case Some(Bool(b)) => Some(Bool(!b))
       case _ => None)
    case Unary(Neg, _) => None
    case Binary(op, l, r) =>
      (match (Meaning(fl, l, caller, record), Meaning(fl, r, caller, record))
       case (Some(a), Some(b)) =>
         (match Applied(fl, op, a, b)
          case Some(truth) => Some(Bool(truth))
          case None => None)
       case _ => None)
    case Call(path, args) =>
      if |args| != 2 then None
      else
        (match (Meaning(fl, args[0], caller, record), Meaning(fl, args[1], caller, record))
         case (Some(a), Some(b)) =>
           if Printer.PathText(path) == "has_role" then
             if b.String? then Some(Bool(Plays(caller, b.s))) else None
           else if Printer.PathText(path) == "tenant_match" then Some(Bool(SameTenant(caller, record)))
           else None
         case _ => None)
    case List(_) => None
  }

  /** How many operands evaluating the predicate holds at once. */
  function Depth(e: Expr): nat
    decreases e
  {
    match e
    case Unary(_, arg) => Depth(arg)
    case Binary(_, l, r) => Max(Depth(l), 1 + Depth(r))
    case Call(_, args) => if |args| == 2 then Max(Depth(args[0]), 1 + Depth(args[1])) else 1
    case _ => 1
  }

  function Max(a: nat, b: nat): nat {
    if a >= b then a else b
  }

  // ----- Policies

  datatype Action = ToRead | ToList | ToWrite | ToDelete

  function ActionName(a: Action): string {
    match a
    case ToRead => "read"
    case ToList => "list"
    case ToWrite => "write"
    case ToDelete => "delete"
  }

  datatype PolicyRule = PolicyRule(actions: seq<Action>, condition: Expr)

  /** The first rule from `i` on that speaks of the action; the number of rules if there is none. */
  function FirstFor(rules: seq<PolicyRule>, i: nat, a: Action): (k: nat)
    requires i <= |rules|
    ensures i <= k <= |rules|
    decreases |rules| - i
  {
    if i == |rules| || a in rules[i].actions then i else FirstFor(rules, i + 1, a)
  }

  const OPERANDS: nat := 32

  /** Allow or deny, as the first rule that speaks of the action says; deny when none does. Nothing when that rule
    * has no truth value or needs more than 32 operands at once. */
  function Decision(fl: Floats, rules: seq<PolicyRule>, caller: Value, record: Value, a: Action): Option<bool> {
    var k := FirstFor(rules, 0, a);
    if k == |rules| then Some(false)
    else if Depth(rules[k].condition) > OPERANDS then None
    else
      match Meaning(fl, rules[k].condition, caller, record)
      case Some(Bool(b)) => Some(b)
      case _ => None
  }
}
