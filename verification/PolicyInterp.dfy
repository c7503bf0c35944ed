/** The runtime's stack machine in place: a fixed array of slots, a stack pointer and an instruction
  * pointer, updated opcode by opcode. Every method is proved to take the step that
  * `PolicyRuntime` specifies. */
module PolicyInterp {
  import opened Wrappers
  import opened JsonText
  import opened JsonValue
  import opened JsonReader
  import opened PolicyIr
  import opened PolicyRuntime

  class Interp {
    const env: Env
    const stack: array<Option<Val>>
    var ip: nat
    var sp: nat
    ghost var contents: seq<Val>

    /** The slots below `sp` hold the operands, the others are empty. */
    ghost predicate Valid()
      reads this, stack
    {
      && WellPlaced(env)
      && stack.Length == MAX_STACK
      && sp == |contents| <= MAX_STACK
      && (forall k :: 0 <= k < sp ==> stack[k] == Some(contents[k]))
      && (forall k :: sp <= k < MAX_STACK ==> stack[k] == None)
    }

    ghost function View(): Machine
      reads this
    {
      Machine(ip, contents)
    }

    constructor (env: Env, entry: nat)
      requires WellPlaced(env)
      ensures Valid() && fresh(stack)
      ensures this.env == env && View() == Machine(entry, [])
    {
      this.env := env;
      stack := new Option<Val>[MAX_STACK](_ => None);
      ip := entry;
      sp := 0;
      contents := [];
    }

    // ----- The stack

    method Push(v: Val) returns (ok: bool)
      requires Valid()
      modifies `sp, `contents, stack
      ensures Valid()
      ensures ok <==> |old(contents)| < MAX_STACK
      ensures contents == if ok then old(contents) + [v] else old(contents)
    {
      if sp >= MAX_STACK {
        return false;
      }
      stack[sp] := Some(v);
      sp := sp + 1;
      contents := contents + [v];
      return true;
    }

    method Pop() returns (v: Option<Val>)
      requires Valid()
      modifies `sp, `contents, stack
      ensures Valid()
      ensures v.Some? <==> old(contents) != []
      ensures v.Some? ==> old(contents) == contents + [v.value]
    {
      if sp == 0 {
        return None;
      }
      sp := sp - 1;
      v := stack[sp];
      stack[sp] := None;
      contents := contents[..sp];
    }

    method PopBool() returns (v: Option<bool>)
      requires Valid()
      modifies `sp, `contents, stack
      ensures Valid()
      ensures v.Some? <==> old(contents) != [] && old(contents)[|old(contents)| - 1].RBool?
      ensures v.Some? ==> old(contents) == contents + [RBool(v.value)]
    {
      var popped := Pop();
      match popped {
        case Some(RBool(b)) => return Some(b);
        case _ => return None;
      }
    }

    /** What every opcode method promises: it took the specified step, or failed with it. */
    ghost predicate Took(ok: bool, step: Step)
      reads this
    {
      (ok <==> step.Go?) && (ok ==> View() == step.next)
    }

    // ----- Literals and loads

    method ExecLiteral(op: byte) returns (ok: bool)
      requires Valid()
      modifies this, stack
      ensures Valid() && Took(ok, Literal(env.ir, op, old(View())))
    {
      if op == LIT_NULL {
        ok := Push(RNull);
      } else if op == LIT_BOOL {
        if ip >= |env.ir| {
          return false;
        }
        var b := env.ir[ip];
        ip := ip + 1;
        ok := Push(RBool(b != 0));
      } else if op == LIT_STR {
        var blob := BlobAt(env.ir, ip);
        if blob.None? {
          return false;
        }
        ip := blob.value.1;
        ok := Push(Raw(blob.value.0));
      } else {
        var word := ReadWord64(env.ir, ip);
        if word.None? {
          return false;
        }
        ip := word.value.1;
        ok := Push(if op == LIT_F64 then RF64(ToF64(word.value.0)) else RI64(ToI64(word.value.0)));
      }
    }

    method ReadSegments() returns (segs: Option<seq<Bytes>>)
      requires Valid()
      modifies `ip
      ensures Valid()
      ensures match ByteAtIp(env.ir, old(ip))
              case None => segs == None
              case Some((n, start)) =>
                match Segments(env.ir, start, n, [])
                case None => segs == None
                case Some((all, next)) => segs == Some(all) && ip == next
    {
      hide BlobAt, U16At;
      if ip >= |env.ir| {
        return None;
      }
      var n: nat := env.ir[ip];
      ip := ip + 1;
      var sofar: seq<Bytes> := [];
      for i := 0 to n
        invariant Valid()
        invariant Segments(env.ir, ip, n - i, sofar) == Segments(env.ir, old(ip) + 1, n, [])
      {
        var blob := BlobAt(env.ir, ip);
        if blob.None? {
          return None;
        }
        ip := blob.value.1;
        if |sofar| >= MAX_SEGMENTS {
          return None;
        }
        sofar := sofar + [blob.value.0];
      }
      return Some(sofar);
    }

    method Locate(root: nat, segs: seq<Bytes>) returns (r: Read<Option<nat>>)
      requires root <= |env.input|
      ensures r == Resolve(env.input, root, segs)
    {
      hide FindPath;
      var cursor: nat := root;
      for i := 0 to |segs|
        invariant cursor <= |env.input|
        invariant Resolve(env.input, cursor, segs[i..]) == Resolve(env.input, root, segs)
      {
        assert segs[i..][1..] == segs[i + 1..];
        var found := ScanPath(env.input[cursor..], [segs[i]]);
        match found {
          case Malformed => return Malformed;
          case Ok(None) => return Ok(None);
          case Ok(Some((s, _))) => cursor := cursor + s;
        }
      }
      return Ok(Some(cursor));
    }

    method ExecLoad(fromCaller: bool) returns (ok: bool)
      requires Valid()
      modifies this, stack
      ensures Valid()
      ensures Took(ok, Load(env, if fromCaller then env.callerAt else env.selfAt, old(View())))
    {
      var segs := ReadSegments();
      if segs.None? {
        return false;
      }
      var root := if fromCaller then env.callerAt else env.selfAt;
      if root.None? || |segs.value| == 0 {
        ok := Push(RNull);
        return;
      }
      var located := Locate(root.value, segs.value);
      match located {
        case Malformed => return false;
        case Ok(None) => ok := Push(RNull);
        case Ok(Some(at)) =>
          match Classify(env.fl, env.input, at) {
            case Malformed => return false;
            case Ok(v) => ok := Push(v);
          }
      }
    }

    // ----- Comparisons and logic

    method CmpEq(invert: bool) returns (ok: bool)
      requires Valid()
      modifies this, stack
      ensures Valid() && Took(ok, Comparison(env.fl, if invert then NE else EQ, old(View())))
    {
      var b := Pop();
      if b.None? {
        return false;
      }
      var a := Pop();
      if a.None? {
        return false;
      }
      var eq := EqVal(env.fl, a.value, b.value);
      ok := Push(RBool(if invert then !eq else eq));
    }

    method CmpOrd(op: byte) returns (ok: bool)
      requires Valid() && LT <= op <= GE
      modifies this, stack
      ensures Valid() && Took(ok, Comparison(env.fl, op, old(View())))
    {
      var b := Pop();
      if b.None? {
        return false;
      }
      var a := Pop();
      if a.None? {
        return false;
      }
      var x, y := AsFloat(env.fl, a.value), AsFloat(env.fl, b.value);
      if x.None? || y.None? {
        return false;
      }
      ok := Push(RBool(Compare(env.fl, op, x.value, y.value)));
    }

    method LogicBinary(op: byte) returns (ok: bool)
      requires Valid() && (op == AND || op == OR)
      modifies this, stack
      ensures Valid() && Took(ok, Logic(op, old(View())))
    {
      var b := PopBool();
      if b.None? {
        return false;
      }
      var a := PopBool();
      if a.None? {
        return false;
      }
      ok := Push(RBool(if op == AND then a.value && b.value else a.value || b.value));
    }

    method LogicNot() returns (ok: bool)
      requires Valid()
      modifies this, stack
      ensures Valid() && Took(ok, Logic(NOT, old(View())))
    {
      var a := PopBool();
      if a.None? {
        return false;
      }
      ok := Push(RBool(!a.value));
    }

    // ----- Membership and calls

    method InOp(invert: bool) returns (ok: bool)
      requires Valid()
      modifies this, stack
      ensures Valid() && Took(ok, Membership(env.fl, env.input, if invert then NOT_IN else IN, old(View())))
    {
      ghost var st := View();
      var haystack := Pop();
      if haystack.None? {
        return false;
      }
      var needle := Pop();
      if needle.None? || !haystack.value.ArrayAt? {
        return false;
      }
      assert Top(st, 1) == haystack.value && Top(st, 2) == needle.value;
      var hit := (at: nat) => ElementIs(env.fl, env.input, needle.value, at);
      var calls, visited := EachElement(env.input, haystack.value.at, (calls: Calls) => Found(hit, calls));
      if !visited {
        return false;
      }
      var found := Found(hit, calls);
      ok := Push(RBool(if invert then !found else found));
    }

    method CallHasRole() returns (ok: bool)
      requires Valid()
      modifies this, stack
      ensures Valid() && Took(ok, Call(env, CALL_HAS_ROLE, old(View())))
    {
      ghost var st := View();
      var role := Pop();
      if role.None? {
        return false;
      }
      var caller := Pop();
      if caller.None? || !role.value.Raw? || caller.value.Raw? || caller.value.ArrayAt? {
        return false;
      }
      assert Top(st, 1) == role.value && Top(st, 2) == caller.value;
      var has := HasRole(env.input, env.callerAt, role.value.s);
      if has.Malformed? {
        return false;
      }
      ok := Push(RBool(has.value));
    }

    method CallTenantMatch() returns (ok: bool)
      requires Valid()
      modifies this, stack
      ensures Valid() && Took(ok, Call(env, CALL_TENANT_MATCH, old(View())))
    {
      var rhs := Pop();
      if rhs.None? {
        return false;
      }
      var lhs := Pop();
      if lhs.None? {
        return false;
      }
      ok := Push(RBool(TenantMatch(env)));
    }

    // ----- The loop

    /** Every opcode but the three terminals; an unknown one fails. */
    method ExecOne(op: byte) returns (ok: bool)
      requires Valid() && op < RESULT
      modifies this, stack
      ensures Valid() && Took(ok, Execute(env, op, old(View()))) && !Execute(env, op, old(View())).Halt?
    {
      if LIT_NULL <= op <= LIT_DURATION_SECS {
        ok := ExecLiteral(op);
      } else if op == LOAD_CALLER {
        ok := ExecLoad(true);
      } else if op == LOAD_SELF {
        ok := ExecLoad(false);
      } else if op == EQ || op == NE {
        ok := CmpEq(op == NE);
      } else if LT <= op <= GE {
        ok := CmpOrd(op);
      } else if op == AND || op == OR {
        ok := LogicBinary(op);
      } else if op == NOT {
        ok := LogicNot();
      } else if op == IN || op == NOT_IN {
        ok := InOp(op == NOT_IN);
      } else if op == CALL_HAS_ROLE {
        ok := CallHasRole();
      } else if op == CALL_TENANT_MATCH {
        ok := CallTenantMatch();
      } else {
        return false;
      }
    }

    method Run() returns (r: Read<bool>)
      requires Valid()
      modifies this, stack
      ensures Valid()
      ensures r == RunFrom(env, old(View()))
    {
      hide Execute;
      while true
        invariant Valid()
        invariant RunFrom(env, View()) == RunFrom(env, old(View()))
        decreases |env.ir| - ip
      {
        if ip >= |env.ir| {
          return Malformed;
        }
        ghost var before := View();
        var op := env.ir[ip];
        ip := ip + 1;
        assert StepAt(env, before) == Execute(env, op, View());
        if op >= RESULT {
          TerminalStep(env, op, View());
          if op == DENY {
            return Ok(false);
          } else if op == ALLOW {
            return Ok(true);
          }
          var b := PopBool();
          return match b case Some(v) => Ok(v) case None => Malformed;
        }
        var ok := ExecOne(op);
        if !ok {
          return Malformed;
        }
      }
    }
  }

  lemma TerminalStep(env: Env, op: byte, st: Machine)
    requires WellPlaced(env) && op >= RESULT
    ensures Execute(env, op, st) == Terminal(op, st)
  {
  }

  /** Run the rule the action table selected. */
  method RunRule(env: Env, entry: nat) returns (v: Verdict)
    requires WellPlaced(env)
    ensures v == RuleVerdict(env, entry)
  {
    hide RunFrom;
    if entry >= |env.ir| {
      return Error;
    }
    var interp := new Interp(env, entry);
    var result := interp.Run();
    return match result case Ok(true) => Allow case Ok(false) => Deny case Malformed => Error;
  }

  method Evaluate(fl: Floats, input: Bytes, section: Bytes) returns (v: Verdict)
    ensures v == Evaluation(fl, input, section)
  {
    hide RuleVerdict, Dispatch, FindPath, AsStr, ActionBitFor;
    var payload := Payload(section);
    if payload.None? {
      return Error;
    }
    var ir := payload.value;
    var callerFound := ScanPath(input, [CALLER]);
    var callerAt := match callerFound case Ok(Some((start, _))) => Some(start) case _ => None;
    var selfFound := ScanPath(input, [RECORD]);
    var selfAt := match selfFound case Ok(Some((start, _))) => Some(start) case _ => None;
    var actionFound := ScanPath(input, [ACTION]);
    if actionFound.Malformed? || actionFound.value.None? {
      return Error;
    }
    var action := ScanStr(input, actionFound.value.value.0);
    if action.Malformed? {
      return Error;
    }
    if |ir| == 0 || ir[0] == 0 {
      return Deny;
    }
    if |ir| < 1 + 3 * (ir[0] as int) {
      return Error;
    }
    var bit := ActionBitFor(action.value);
    if bit.None? {
      return Error;
    }
    var rule := FindRule(ir, bit.value);
    match rule {
      case NoRule => return Deny;
      case BadTable => return Error;
      case Enter(entry) =>
        v := RunRule(Env(fl, ir, input, callerAt, selfAt), entry);
    }
  }
}
