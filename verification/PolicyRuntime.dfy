/** The runtime interpreter: the same bytecode run over raw JSON bytes and byte offsets. */
module PolicyRuntime {
  import opened Wrappers
  import opened JsonText
  import opened JsonValue
  import opened JsonReader
  import opened PolicyIr

  datatype Val =
    | RNull
    | RBool(b: bool)
    | RI64(n: int)
    | RF64(f: F64)
    | Raw(s: Bytes)
    | ArrayAt(at: nat)

  /** `callerAt` and `selfAt` are offsets into `input`, absent when the wire lacks the value. */
  datatype Env = Env(fl: Floats, ir: Bytes, input: Bytes, callerAt: Option<nat>, selfAt: Option<nat>)
  datatype Machine = Machine(ip: nat, stack: seq<Val>)

  /** Every failure is `Err(())`. */
  datatype Unit = Unit

  type Step = Outcome<Machine, Unit>

  predicate WellPlaced(env: Env) {
    (env.callerAt.Some? ==> env.callerAt.value <= |env.input|) &&
    (env.selfAt.Some? ==> env.selfAt.value <= |env.input|)
  }

  // ----- Numbers as the runtime reads them

  function ParseI64(s: Bytes): Option<int> {
    var signed := s != [] && (s[0] == MINUS || s[0] == PLUS);
    var digits := if signed then s[1..] else s;
    if digits == [] || !AllDigits(digits) then None
    else
      var magnitude: int := DigitsValue(digits);
      var v := if s[0] == MINUS then -magnitude else magnitude;
      if FitsI64(v) then Some(v) else None
  }

  function AsI64(fl: Floats, bytes: Bytes, at: nat): Read<int> {
    match SkipNumber(bytes, at)
    case Malformed => Malformed
    case Ok(end) =>
      var s := bytes[at..end];
      match ParseI64(s)
      case Some(n) => Ok(n)
      case None =>
        match fl.parse(s)
        case Some(f) => Ok(fl.truncate(f))
        case None => Malformed
  }

  function AsF64(fl: Floats, bytes: Bytes, at: nat): Read<F64> {
    match SkipNumber(bytes, at)
    case Malformed => Malformed
    case Ok(end) =>
      match fl.parse(bytes[at..end])
      case Some(f) => Ok(f)
      case None => Malformed
  }

  // ----- Path loading

  /** Read `n` segments; a ninth one is refused. */
  function Segments(ir: Bytes, ip: nat, n: nat, sofar: seq<Bytes>): (r: Option<(seq<Bytes>, nat)>)
    ensures r.Some? ==> ip <= r.value.1 && |r.value.0| == |sofar| + n
    decreases n
  {
    if n == 0 then Some((sofar, ip))
    else
      match BlobAt(ir, ip)
      case None => None
      case Some((seg, next)) =>
        if |sofar| >= MAX_SEGMENTS then None else Segments(ir, next, n - 1, sofar + [seg])
  }

  /** Follow the segments one at a time, each lookup on the rest of the buffer from the last hit. */
  function Resolve(input: Bytes, cursor: nat, segs: seq<Bytes>): (r: Read<Option<nat>>)
    requires cursor <= |input|
    ensures r.Ok? && r.value.Some? ==> r.value.value <= |input|
    decreases |segs|
  {
    if segs == [] then Ok(Some(cursor))
    else
      match FindPath(input[cursor..], [segs[0]])
      case Malformed => Malformed
      case Ok(None) => Ok(None)
      case Ok(Some((s, _))) => Resolve(input, cursor + s, segs[1..])
  }

  /** Turn the value at `cursor` into an operand by its first byte. */
  function Classify(fl: Floats, input: Bytes, cursor: nat): Read<Val> {
    var start := SkipWs(input, cursor);
    if start >= |input| then Malformed
    else
      var b := input[start];
      if b == LOWER_T || b == LOWER_F then
        (match AsBool(input, start)
         case Ok(v) => Ok(RBool(v))
         case Malformed => Malformed)
      else if b == LOWER_N || b == LBRACE then Ok(RNull)
      else if b == QUOTE then
        (match AsStr(input, start)
         case Ok(s) => Ok(Raw(s))
         case Malformed => Malformed)
      else if b == LBRACKET then Ok(ArrayAt(start))
      else if b == MINUS || IsDigit(b) then
        match AsI64(fl, input, start)
        case Ok(n) => Ok(RI64(n))
        case Malformed =>
          match AsF64(fl, input, start)
          case Ok(f) => Ok(RF64(f))
          case Malformed => Malformed
      else Malformed
  }

  function Push(ip: nat, stack: seq<Val>, v: Val): Step {
    if |stack| >= MAX_STACK then Fault(Unit) else Go(Machine(ip, stack + [v]))
  }

  function LoadedValue(env: Env, root: Option<nat>, segs: seq<Bytes>): Read<Val>
    requires root.Some? ==> root.value <= |env.input|
  {
    if root.None? || segs == [] then Ok(RNull)
    else
      match Resolve(env.input, root.value, segs)
      case Malformed => Malformed
      case Ok(None) => Ok(RNull)
      case Ok(Some(at)) => Classify(env.fl, env.input, at)
  }

  function Load(env: Env, root: Option<nat>, st: Machine): Step
    requires root.Some? ==> root.value <= |env.input|
  {
    match ByteAtIp(env.ir, st.ip)
    case None => Fault(Unit)
    case Some((n, start)) =>
      match Segments(env.ir, start, n, [])
      case None => Fault(Unit)
      case Some((segs, ip)) =>
        match LoadedValue(env, root, segs)
        case Malformed => Fault(Unit)
        case Ok(v) => Push(ip, st.stack, v)
  }

  // ----- The other opcodes, group by group

  function Literal(ir: Bytes, op: byte, st: Machine): Step {
    if op == LIT_NULL then Push(st.ip, st.stack, RNull)
    else if op == LIT_BOOL then
      match ByteAtIp(ir, st.ip)
      case None => Fault(Unit)
      case Some((b, ip)) => Push(ip, st.stack, RBool(b != 0))
    else if op == LIT_STR then
      match BlobAt(ir, st.ip)
      case None => Fault(Unit)
      case Some((s, ip)) => Push(ip, st.stack, Raw(s))
    else
      match Word64At(ir, st.ip)
      case None => Fault(Unit)
      case Some((w, ip)) => Push(ip, st.stack, if op == LIT_F64 then RF64(ToF64(w)) else RI64(ToI64(w)))
  }

  function Below(st: Machine, n: nat): seq<Val>
    requires n <= |st.stack|
  {
    st.stack[..|st.stack| - n]
  }

  function Top(st: Machine, n: nat): Val
    requires 1 <= n <= |st.stack|
  {
    st.stack[|st.stack| - n]
  }

  predicate EqVal(fl: Floats, a: Val, b: Val) {
    match (a, b)
    case (RNull, RNull) => true
    case (RBool(x), RBool(y)) => x == y
    case (RI64(x), RI64(y)) => x == y
    case (RF64(x), RF64(y)) => fl.eq(x, y)
    case (RI64(x), RF64(y)) => fl.eq(fl.widen(x), y)
    case (RF64(y), RI64(x)) => fl.eq(fl.widen(x), y)
    case (Raw(x), Raw(y)) => x == y
    case _ => false
  }

  function AsFloat(fl: Floats, v: Val): Option<F64> {
    match v
    case RI64(n) => Some(fl.widen(n))
    case RF64(f) => Some(f)
    case _ => None
  }

  function Comparison(fl: Floats, op: byte, st: Machine): Step {
    if |st.stack| < 2 then Fault(Unit)
    else
      var b, a := Top(st, 1), Top(st, 2);
      if op == EQ || op == NE then
        Push(st.ip, Below(st, 2), RBool(if op == EQ then EqVal(fl, a, b) else !EqVal(fl, a, b)))
      else
        match (AsFloat(fl, a), AsFloat(fl, b))
        case (Some(x), Some(y)) => Push(st.ip, Below(st, 2), RBool(Compare(fl, op, x, y)))
        case _ => Fault(Unit)
  }

  function Logic(op: byte, st: Machine): Step {
    if |st.stack| < 1 || !Top(st, 1).RBool? then Fault(Unit)
    else if op == NOT then Push(st.ip, Below(st, 1), RBool(!Top(st, 1).b))
    else if |st.stack| < 2 || !Top(st, 2).RBool? then Fault(Unit)
    else
      var b, a := Top(st, 1).b, Top(st, 2).b;
      Push(st.ip, Below(st, 2), RBool(if op == AND then a && b else a || b))
  }

  /** The visitor of `in_op`: does the element at `at` equal the needle? Only strings, integers and
    * booleans can. */
  predicate ElementIs(fl: Floats, input: Bytes, needle: Val, at: nat) {
    var start := SkipWs(input, at);
    start < |input| &&
    var b := input[start];
    if b == QUOTE then needle.Raw? && AsStr(input, start) == Ok(needle.s)
    else if b == MINUS || IsDigit(b) then needle.RI64? && AsI64(fl, input, start) == Ok(needle.n)
    else if b == LOWER_T || b == LOWER_F then needle.RBool? && AsBool(input, start) == Ok(needle.b)
    else false
  }

  function Membership(fl: Floats, input: Bytes, op: byte, st: Machine): Step {
    if |st.stack| < 2 || !Top(st, 1).ArrayAt? then Fault(Unit)
    else
      match AnyElement(input, Top(st, 1).at, (at: nat) => ElementIs(fl, input, Top(st, 2), at))
      case Malformed => Fault(Unit)
      case Ok(found) => Push(st.ip, Below(st, 2), RBool(if op == IN then found else !found))
  }

  predicate RoleIs(input: Bytes, role: Bytes, at: nat) {
    AsStr(input, SkipWs(input, at)) == Ok(role)
  }

  function HasRole(input: Bytes, callerAt: Option<nat>, role: Bytes): Read<bool>
    requires callerAt.Some? ==> callerAt.value <= |input|
  {
    if callerAt.None? then Ok(false)
    else
      match FindPath(input[callerAt.value..], [ROLES])
      case Ok(Some((rolesAt, _))) => AnyElement(input, callerAt.value + rolesAt, (at: nat) => RoleIs(input, role, at))
      case _ => Ok(false)
  }

  function TenantAt(input: Bytes, at: nat): Option<Bytes>
    requires at <= |input|
  {
    match FindPath(input[at..], [TENANT])
    case Ok(Some((off, _))) =>
      (match AsStr(input, SkipWs(input, at + off))
       case Ok(s) => Some(s)
       case Malformed => None)
    case _ => None
  }

  predicate TenantMatch(env: Env)
    requires WellPlaced(env)
  {
    env.callerAt.Some? && env.selfAt.Some? &&
    TenantAt(env.input, env.callerAt.value).Some? &&
    TenantAt(env.input, env.callerAt.value) == TenantAt(env.input, env.selfAt.value)
  }

  function Call(env: Env, op: byte, st: Machine): Step
    requires WellPlaced(env)
  {
    if |st.stack| < 2 then Fault(Unit)
    else if op == CALL_TENANT_MATCH then Push(st.ip, Below(st, 2), RBool(TenantMatch(env)))
    else if !Top(st, 1).Raw? || Top(st, 2).Raw? || Top(st, 2).ArrayAt? then Fault(Unit)
    else
      match HasRole(env.input, env.callerAt, Top(st, 1).s)
      case Malformed => Fault(Unit)
      case Ok(b) => Push(st.ip, Below(st, 2), RBool(b))
  }

  function Terminal(op: byte, st: Machine): Step {
    if op == DENY then Halt(false)
    else if op == ALLOW then Halt(true)
    else if |st.stack| >= 1 && Top(st, 1).RBool? then Halt(Top(st, 1).b)
    else Fault(Unit)
  }

  function Execute(env: Env, op: byte, st: Machine): Step
    requires WellPlaced(env)
  {
    if LIT_NULL <= op <= LIT_DURATION_SECS then Literal(env.ir, op, st)
    else if op == LOAD_CALLER then Load(env, env.callerAt, st)
    else if op == LOAD_SELF then Load(env, env.selfAt, st)
    else if EQ <= op <= GE then Comparison(env.fl, op, st)
    else if AND <= op <= NOT then Logic(op, st)
    else if op == IN || op == NOT_IN then Membership(env.fl, env.input, op, st)
    else if op == CALL_HAS_ROLE || op == CALL_TENANT_MATCH then Call(env, op, st)
    else if op >= RESULT then Terminal(op, st)
    else Fault(Unit)
  }

  /** One turn of the loop. The instruction pointer grows and the stack keeps within its cap. */
  function StepAt(env: Env, st: Machine): (r: Step)
    requires WellPlaced(env)
    ensures r.Go? ==> st.ip < |env.ir| && st.ip < r.next.ip
    ensures r.Go? && |st.stack| <= MAX_STACK ==> |r.next.stack| <= MAX_STACK
  {
    if st.ip >= |env.ir| then Fault(Unit)
    else Execute(env, env.ir[st.ip], Machine(st.ip + 1, st.stack))
  }

  function RunFrom(env: Env, st: Machine): Read<bool>
    requires WellPlaced(env)
    decreases |env.ir| - st.ip
  {
    match StepAt(env, st)
    case Fault(_) => Malformed
    case Halt(b) => Ok(b)
    case Go(next) => RunFrom(env, next)
  }

  // ----- The whole evaluation

  datatype Verdict = Allow | Deny | Error

  function RootAt(input: Bytes, key: Bytes): (r: Option<nat>)
    ensures r.Some? ==> r.value <= |input|
  {
    match FindPath(input, [key])
    case Ok(Some((start, _))) => Some(start)
    case _ => None
  }

  function WireAction(input: Bytes): Option<Bytes> {
    match FindPath(input, [ACTION])
    case Ok(Some((start, _))) =>
      (match AsStr(input, start)
       case Ok(s) => Some(s)
       case Malformed => None)
    case _ => None
  }

  function RuleVerdict(env: Env, entry: nat): Verdict
    requires WellPlaced(env)
  {
    if entry >= |env.ir| then Error
    else
      match RunFrom(env, Machine(entry, []))
      case Ok(true) => Allow
      case Ok(false) => Deny
      case Malformed => Error
  }

  function Evaluation(fl: Floats, input: Bytes, section: Bytes): Verdict {
    match Payload(section)
    case None => Error
    case Some(ir) =>
      match WireAction(input)
      case None => Error
      case Some(action) =>
        if ir == [] || ir[0] == 0 then Deny
        else if |ir| < 1 + 3 * (ir[0] as int) then Error
        else
          match ActionBitFor(action)
          case None => Error
          case Some(bit) =>
            match Dispatch(ir, bit)
            case NoRule => Deny
            case BadTable => Error
            case Enter(entry) =>
              RuleVerdict(Env(fl, ir, input, RootAt(input, CALLER), RootAt(input, RECORD)), entry)
  }
}
