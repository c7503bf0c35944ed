/** The host interpreter: the bytecode run over a parsed JSON tree. */
module PolicyHost {
  import opened Wrappers
  import opened JsonText
  import opened JsonValue
  import opened PolicyIr

  datatype IrError =
    | BadMagic
    | BadLength
    | UnknownOpcode(op: byte)
    | StackUnderflow
    | StackOverflow
    | TypeMismatch
    | UnexpectedEof
    | UnknownAction

  datatype Checked<+T> = Done(value: T) | Failed(error: IrError)

  datatype NativeVal =
    | VNull
    | VBool(b: bool)
    | VI64(n: int)
    | VF64(f: F64)
    | VStr(s: Bytes)
    | VArray(items: seq<Value>)

  datatype Env = Env(fl: Floats, ir: Bytes, caller: Value, record: Value)
  datatype State = State(ip: nat, stack: seq<NativeVal>)

  type Step = Outcome<State, IrError>

  function NativeOf(v: Value): NativeVal {
    match v
    case Null => VNull
    case Object(_) => VNull
    case Bool(b) => VBool(b)
    case Number(I64(n)) => VI64(n)
    case Number(F64(f)) => VF64(f)
    case String(s) => VStr(s)
    case Array(items) => VArray(items)
  }

  predicate EqNative(fl: Floats, a: NativeVal, b: NativeVal) {
    match (a, b)
    case (VNull, VNull) => true
    case (VBool(x), VBool(y)) => x == y
    case (VI64(x), VI64(y)) => x == y
    case (VF64(x), VF64(y)) => fl.eq(x, y)
    case (VI64(x), VF64(y)) => fl.eq(fl.widen(x), y)
    case (VF64(y), VI64(x)) => fl.eq(fl.widen(x), y)
    case (VStr(x), VStr(y)) => x == y
    case _ => false
  }

  function AsFloat(fl: Floats, v: NativeVal): Option<F64> {
    match v
    case VI64(n) => Some(fl.widen(n))
    case VF64(f) => Some(f)
    case _ => None
  }

  function Push(ip: nat, stack: seq<NativeVal>, v: NativeVal): Step {
    if |stack| >= MAX_STACK then Fault(StackOverflow) else Go(State(ip, stack + [v]))
  }

  // ----- Opcodes, group by group; `st.ip` is already past the opcode

  function Literal(ir: Bytes, op: byte, st: State): Step {
    if op == LIT_NULL then Push(st.ip, st.stack, VNull)
    else if op == LIT_BOOL then
      match ByteAtIp(ir, st.ip)
      case None => Fault(UnexpectedEof)
      case Some((b, ip)) => Push(ip, st.stack, VBool(b != 0))
    else if op == LIT_STR then
      match BlobAt(ir, st.ip)
      case None => Fault(UnexpectedEof)
      case Some((s, ip)) => if ValidUtf8(s) then Push(ip, st.stack, VStr(s)) else Fault(TypeMismatch)
    else
      match Word64At(ir, st.ip)
      case None => Fault(UnexpectedEof)
      case Some((w, ip)) => Push(ip, st.stack, if op == LIT_F64 then VF64(ToF64(w)) else VI64(ToI64(w)))
  }

  /** Follow `n` more segments from `cursor`; a missing key ends the walk at once, with the remaining
    * segments unread. */
  function Walk(ir: Bytes, ip: nat, n: nat, cursor: Value): (r: Checked<(NativeVal, nat)>)
    ensures r.Done? ==> ip <= r.value.1
    decreases n
  {
    if n == 0 then Done((NativeOf(cursor), ip))
    else
      match BlobAt(ir, ip)
      case None => Failed(UnexpectedEof)
      case Some((seg, next)) =>
        if !ValidUtf8(seg) then Failed(TypeMismatch)
        else
          match Get(cursor, seg)
          case None => Done((VNull, next))
          case Some(v) => Walk(ir, next, n - 1, v)
  }

  function LoadPath(ir: Bytes, ip: nat, root: Value): (r: Checked<(NativeVal, nat)>)
    ensures r.Done? ==> ip < r.value.1
  {
    match ByteAtIp(ir, ip)
    case None => Failed(UnexpectedEof)
    case Some((n, next)) => Walk(ir, next, n, root)
  }

  method ReadPath(ir: Bytes, start: nat, root: Value) returns (r: Checked<(NativeVal, nat)>)
    ensures r == LoadPath(ir, start, root)
  {
    if start >= |ir| {
      return Failed(UnexpectedEof);
    }
    var n: nat := ir[start];
    var ip := start + 1;
    var cursor := root;
    for i := 0 to n
      invariant Walk(ir, ip, n - i, cursor) == LoadPath(ir, start, root)
    {
      var blob := BlobAt(ir, ip);
      if blob.None? {
        return Failed(UnexpectedEof);
      }
      var (seg, next) := blob.value;
      if !ValidUtf8(seg) {
        return Failed(TypeMismatch);
      }
      ip := next;
      var member := Get(cursor, seg);
      if member.None? {
        return Done((VNull, ip));
      }
      cursor := member.value;
    }
    return Done((NativeOf(cursor), ip));
  }

  /** The cap is checked before the path is read. */
  function Load(ir: Bytes, root: Value, st: State): Step {
    if |st.stack| >= MAX_STACK then Fault(StackOverflow)
    else
      match LoadPath(ir, st.ip, root)
      case Failed(e) => Fault(e)
      case Done((v, ip)) => Push(ip, st.stack, v)
  }

  function Below(st: State, n: nat): seq<NativeVal>
    requires n <= |st.stack|
  {
    st.stack[..|st.stack| - n]
  }

  function Top(st: State, n: nat): NativeVal
    requires 1 <= n <= |st.stack|
  {
    st.stack[|st.stack| - n]
  }

  /** EQ, NE, LT, LE, GT, GE */
  function Comparison(fl: Floats, op: byte, st: State): Step {
    if |st.stack| < 2 then Fault(StackUnderflow)
    else
      var b, a := Top(st, 1), Top(st, 2);
      if op == EQ || op == NE then
        Push(st.ip, Below(st, 2), VBool(if op == EQ then EqNative(fl, a, b) else !EqNative(fl, a, b)))
      else
        match (AsFloat(fl, a), AsFloat(fl, b))
        case (Some(x), Some(y)) => Push(st.ip, Below(st, 2), VBool(Compare(fl, op, x, y)))
        case _ => Fault(TypeMismatch)
  }

  /** AND, OR, NOT */
  function Logic(op: byte, st: State): Step {
    if |st.stack| < 1 then Fault(StackUnderflow)
    else if !Top(st, 1).VBool? then Fault(TypeMismatch)
    else if op == NOT then Push(st.ip, Below(st, 1), VBool(!Top(st, 1).b))
    else if |st.stack| < 2 then Fault(StackUnderflow)
    else if !Top(st, 2).VBool? then Fault(TypeMismatch)
    else
      var b, a := Top(st, 1).b, Top(st, 2).b;
      Push(st.ip, Below(st, 2), VBool(if op == AND then a && b else a || b))
  }

  predicate Contains(fl: Floats, items: seq<Value>, needle: NativeVal) {
    exists v | v in items :: EqNative(fl, needle, NativeOf(v))
  }

  /** IN, NOT_IN */
  function Membership(fl: Floats, op: byte, st: State): Step {
    if |st.stack| < 2 then Fault(StackUnderflow)
    else
      var haystack, needle := Top(st, 1), Top(st, 2);
      if !haystack.VArray? then Fault(TypeMismatch)
      else
        var found := Contains(fl, haystack.items, needle);
        Push(st.ip, Below(st, 2), VBool(if op == IN then found else !found))
  }

  predicate HasRole(caller: Value, role: Bytes) {
    var roles := Get(caller, ROLES);
    roles.Some? && roles.value.Array? && String(role) in roles.value.items
  }

  predicate TenantMatch(caller: Value, record: Value) {
    var ct, st := Get(caller, TENANT), Get(record, TENANT);
    ct.Some? && st.Some? && ct.value.String? && ct.value == st.value
  }

  /** CALL_HAS_ROLE, CALL_TENANT_MATCH */
  function Call(op: byte, caller: Value, record: Value, st: State): Step {
    if |st.stack| < 2 then Fault(StackUnderflow)
    else if op == CALL_TENANT_MATCH then Push(st.ip, Below(st, 2), VBool(TenantMatch(caller, record)))
    else if !Top(st, 1).VStr? then Fault(TypeMismatch)
    else Push(st.ip, Below(st, 2), VBool(HasRole(caller, Top(st, 1).s)))
  }

  function Terminal(op: byte, st: State): Step {
    if op == DENY then Halt(false)
    else if op == ALLOW then Halt(true)
    else if |st.stack| < 1 then Fault(StackUnderflow)
    else if Top(st, 1).VBool? then Halt(Top(st, 1).b)
    else Fault(TypeMismatch)
  }

  function Execute(env: Env, op: byte, st: State): Step {
    if LIT_NULL <= op <= LIT_DURATION_SECS then Literal(env.ir, op, st)
    else if op == LOAD_CALLER then Load(env.ir, env.caller, st)
    else if op == LOAD_SELF then Load(env.ir, env.record, st)
    else if EQ <= op <= GE then Comparison(env.fl, op, st)
    else if AND <= op <= NOT then Logic(op, st)
    else if op == IN || op == NOT_IN then Membership(env.fl, op, st)
    else if op == CALL_HAS_ROLE || op == CALL_TENANT_MATCH then Call(op, env.caller, env.record, st)
    else if op >= RESULT then Terminal(op, st)
    else Fault(UnknownOpcode(op))
  }

  /** One turn of the loop. The instruction pointer grows and the stack keeps within its cap. */
  function StepAt(env: Env, st: State): (r: Step)
    ensures r.Go? ==> st.ip < |env.ir| && st.ip < r.next.ip
    ensures r.Go? && |st.stack| <= MAX_STACK ==> |r.next.stack| <= MAX_STACK
  {
    if st.ip >= |env.ir| then Fault(UnexpectedEof)
    else Execute(env, env.ir[st.ip], State(st.ip + 1, st.stack))
  }

  function RunFrom(env: Env, st: State): Checked<bool>
    decreases |env.ir| - st.ip
  {
    match StepAt(env, st)
    case Fault(e) => Failed(e)
    case Halt(b) => Done(b)
    case Go(next) => RunFrom(env, next)
  }

  method Run(env: Env, entry: nat) returns (r: Checked<bool>)
    ensures r == RunFrom(env, State(entry, []))
  {
    var ip := entry;
    var stack: seq<NativeVal> := [];
    while true
      invariant |stack| <= MAX_STACK
      invariant RunFrom(env, State(ip, stack)) == RunFrom(env, State(entry, []))
      decreases |env.ir| - ip
    {
      match StepAt(env, State(ip, stack)) {
        case Fault(e) => return Failed(e);
        case Halt(b) => return Done(b);
        case Go(next) =>
          ip := next.ip;
          stack := next.stack;
      }
    }
  }

  function Verdict(fl: Floats, section: Bytes, caller: Value, record: Value, action: byte): Checked<bool> {
    if |section| < 8 || section[0..4] != MAGIC then Failed(BadMagic)
    else
      match Payload(section)
      case None => Failed(BadLength)
      case Some(ir) =>
        match Dispatch(ir, action)
        case NoRule => Done(false)
        case BadTable => Failed(BadLength)
        case Enter(ip) => RunFrom(Env(fl, ir, caller, record), State(ip, []))
  }

  method Interpret(fl: Floats, section: Bytes, caller: Value, record: Value, action: byte)
    returns (r: Checked<bool>)
    ensures r == Verdict(fl, section, caller, record, action)
  {
    if |section| < 8 || section[0..4] != MAGIC {
      return Failed(BadMagic);
    }
    var payload := Payload(section);
    if payload.None? {
      return Failed(BadLength);
    }
    var rule := FindRule(payload.value, action);
    match rule {
      case NoRule => return Done(false);
      case BadTable => return Failed(BadLength);
      case Enter(ip) => r := Run(Env(fl, payload.value, caller, record), ip);
    }
  }

  function ActionFromWire(name: Bytes): Checked<byte> {
    match ActionBitFor(name)
    case Some(bit) => Done(bit)
    case None => Failed(UnknownAction)
  }
}
