/** A condition under which the two interpreters agree that is read off the bytecode and the request, without
  * running either machine: one pass over the instructions with a stack of kinds in place of values. */
module PolicyStatic {
  import opened Wrappers
  import opened JsonText
  import opened JsonValue
  import opened JsonReader
  import opened JsonReaderProofs
  import opened PolicyIr
  import opened PolicyRefinement
  import opened PolicySimulation
  import H = PolicyHost
  import R = PolicyRuntime

  /** What is known of an operand; `Loaded` may be anything but a float. */
  datatype Kind = Nothing | Truth | Whole | Real | Text | Loaded

  datatype Scan = Refused | Ends | On(ip: nat, kinds: seq<Kind>)

  // ----- The request

  /** Array elements `IN` compares alike whatever the needle. */
  predicate PlainItems(items: seq<Value>) {
    forall v | v in items :: !v.Null? && !v.Object? && !IsFloat(H.NativeOf(v))
  }

  /** No float, and no null or object inside an array. */
  predicate Plain(v: Value) {
    match v
    case Number(n) => n.I64?
    case Array(items) => PlainItems(items)
    case Object(fields) => forall key | key in fields :: Plain(fields[key])
    case _ => true
  }

  // ----- The pass

  function Drop(kinds: seq<Kind>, n: nat): seq<Kind>
    requires n <= |kinds|
  {
    kinds[..|kinds| - n]
  }

  function Peek(kinds: seq<Kind>, n: nat): Kind
    requires 1 <= n <= |kinds|
  {
    kinds[|kinds| - n]
  }

  function ScanLiteral(ir: Bytes, op: byte, ip: nat, kinds: seq<Kind>): (s: Scan)
    ensures s.On? ==> ip <= s.ip
  {
    if op == LIT_NULL then On(ip, kinds + [Nothing])
    else if op == LIT_BOOL then
      match ByteAtIp(ir, ip)
      case None => Ends
      case Some((_, next)) => On(next, kinds + [Truth])
    else if op == LIT_STR then
      match BlobAt(ir, ip)
      case None => Ends
      case Some((s, next)) => if ValidUtf8(s) then On(next, kinds + [Text]) else Refused
    else
      match Word64At(ir, ip)
      case None => Ends
      case Some((_, next)) => On(next, kinds + [if op == LIT_F64 then Real else Whole])
  }

  /** At most eight segments, all UTF-8, and no key missing before the last one. */
  function ScanLoad(ir: Bytes, ip: nat, root: Value, kinds: seq<Kind>): (s: Scan)
    ensures s.On? ==> ip <= s.ip
  {
    match ByteAtIp(ir, ip)
    case None => Ends
    case Some((n, start)) =>
      if n as int > MAX_SEGMENTS || !PathShared(ir, start, n, root) then Refused
      else
        match R.Segments(ir, start, n, [])
        case None => Ends
        case Some((_, next)) => On(next, kinds + [if n == 0 then Nothing else Loaded])
  }

  /** Two operands give way to a truth value. */
  function ScanBinary(ip: nat, kinds: seq<Kind>): Scan {
    if |kinds| < 2 then Ends else On(ip, Drop(kinds, 2) + [Truth])
  }

  function ScanLogic(op: byte, ip: nat, kinds: seq<Kind>): Scan {
    if op != NOT then ScanBinary(ip, kinds)
    else if |kinds| < 1 then Ends
    else On(ip, Drop(kinds, 1) + [Truth])
  }

  /** No float is looked for in an array. */
  function ScanMembership(ip: nat, kinds: seq<Kind>): Scan {
    if |kinds| >= 2 && Peek(kinds, 1).Loaded? && Peek(kinds, 2).Real? then Refused else ScanBinary(ip, kinds)
  }

  /** What lies under a role is neither text nor loaded, and the caller's roles are absent or an array. */
  function ScanRoleCall(caller: Value, ip: nat, kinds: seq<Kind>): Scan {
    if |kinds| >= 2 && (Peek(kinds, 1).Text? || Peek(kinds, 1).Loaded?) &&
       (Peek(kinds, 2).Text? || Peek(kinds, 2).Loaded? || !RolesShared(caller))
    then Refused
    else ScanBinary(ip, kinds)
  }

  function ScanAt(ir: Bytes, caller: Value, record: Value, ip: nat, kinds: seq<Kind>): (s: Scan)
    ensures s.On? ==> ip < s.ip && ip < |ir|
  {
    if ip >= |ir| then Ends
    else
      var op := ir[ip];
      if LIT_NULL <= op <= LIT_DURATION_SECS then ScanLiteral(ir, op, ip + 1, kinds)
      else if op == LOAD_CALLER then ScanLoad(ir, ip + 1, caller, kinds)
      else if op == LOAD_SELF then ScanLoad(ir, ip + 1, record, kinds)
      else if EQ <= op <= GE || op == CALL_TENANT_MATCH then ScanBinary(ip + 1, kinds)
      else if AND <= op <= NOT then ScanLogic(op, ip + 1, kinds)
      else if op == IN || op == NOT_IN then ScanMembership(ip + 1, kinds)
      else if op == CALL_HAS_ROLE then ScanRoleCall(caller, ip + 1, kinds)
      else Ends
  }

  /** The pass meets no instruction it refuses. */
  predicate Passes(ir: Bytes, caller: Value, record: Value, ip: nat, kinds: seq<Kind>)
    decreases |ir| - ip
  {
    match ScanAt(ir, caller, record, ip, kinds)
    case Refused => false
    case Ends => true
    case On(next, deeper) => Passes(ir, caller, record, next, deeper)
  }

  // ----- The pass over-approximates the host's run

  predicate OfKind(kind: Kind, v: H.NativeVal) {
    match kind
    case Nothing => v.VNull?
    case Truth => v.VBool?
    case Whole => v.VI64?
    case Real => v.VF64?
    case Text => v.VStr?
    case Loaded => !IsFloat(v) && (v.VArray? ==> PlainItems(v.items))
  }

  predicate OfKinds(kinds: seq<Kind>, stack: seq<H.NativeVal>) {
    |kinds| == |stack| && forall k :: 0 <= k < |kinds| ==> OfKind(kinds[k], stack[k])
  }

  /** If the host goes on, the pass goes on to the same instruction with kinds that fit the stack. */
  predicate Covers(scan: Scan, step: H.Step) {
    step.Go? ==> scan.On? && scan.ip == step.next.ip && OfKinds(scan.kinds, step.next.stack)
  }

  lemma PushCovered(ip: nat, kinds: seq<Kind>, stack: seq<H.NativeVal>, kind: Kind, v: H.NativeVal)
    requires OfKinds(kinds, stack) && OfKind(kind, v)
    ensures Covers(On(ip, kinds + [kind]), H.Push(ip, stack, v))
  {
    hide OfKind;
  }

  lemma BelowCovered(kinds: seq<Kind>, st: H.State, n: nat)
    requires OfKinds(kinds, st.stack) && n <= |kinds|
    ensures OfKinds(Drop(kinds, n), H.Below(st, n))
  {
    hide OfKind;
  }

  lemma TopCovered(kinds: seq<Kind>, st: H.State, n: nat)
    requires OfKinds(kinds, st.stack) && 1 <= n <= |kinds|
    ensures OfKind(Peek(kinds, n), H.Top(st, n))
  {
  }

  lemma {:induction false} PlainFollow(v: Value, segs: seq<Bytes>)
    requires Plain(v)
    ensures OfKind(Loaded, Follow(v, segs))
    decreases |segs|
  {
    if segs != [] && Get(v, segs[0]).Some? {
      PlainFollow(Get(v, segs[0]).value, segs[1..]);
    }
  }

  lemma LiteralCovered(ir: Bytes, op: byte, st: H.State, kinds: seq<Kind>)
    requires OfKinds(kinds, st.stack)
    ensures Covers(ScanLiteral(ir, op, st.ip, kinds), H.Literal(ir, op, st))
    ensures !ScanLiteral(ir, op, st.ip, kinds).Refused? && op == LIT_STR && BlobAt(ir, st.ip).Some? ==>
              ValidUtf8(BlobAt(ir, st.ip).value.0)
  {
    hide ValidUtf8, OfKinds, Covers, H.Push, ToI64, ToF64, BlobAt, Word64At;
    PushCovered(st.ip, kinds, st.stack, Nothing, H.VNull);
    Unpushed();
    if op == LIT_BOOL && ByteAtIp(ir, st.ip).Some? {
      var (b, ip) := ByteAtIp(ir, st.ip).value;
      PushCovered(ip, kinds, st.stack, Truth, H.VBool(b != 0));
    } else if op == LIT_STR && BlobAt(ir, st.ip).Some? {
      var (s, ip) := BlobAt(ir, st.ip).value;
      PushCovered(ip, kinds, st.stack, Text, H.VStr(s));
    } else if op != LIT_NULL && op != LIT_BOOL && op != LIT_STR && Word64At(ir, st.ip).Some? {
      var (w, ip) := Word64At(ir, st.ip).value;
      PushCovered(ip, kinds, st.stack, Real, H.VF64(ToF64(w)));
      PushCovered(ip, kinds, st.stack, Whole, H.VI64(ToI64(w)));
    }
  }

  lemma Unpushed()
    ensures forall scan: Scan, e :: Covers(scan, Fault(e))
    ensures forall scan: Scan, b :: Covers(scan, Halt(b))
  {
  }

  lemma LoadCovered(ir: Bytes, root: Value, st: H.State, kinds: seq<Kind>)
    requires OfKinds(kinds, st.stack) && Plain(root) && root.Object?
    requires !ScanLoad(ir, st.ip, root, kinds).Refused?
    ensures Covers(ScanLoad(ir, st.ip, root, kinds), H.Load(ir, root, st)) && LoadShared(ir, st.ip, root)
  {
    hide OfKinds, Covers, H.Push, Plain, PathShared, H.Walk, R.Segments, Follow;
    Unpushed();
    if ByteAtIp(ir, st.ip).Some? {
      var (n, start) := ByteAtIp(ir, st.ip).value;
      WalksPath(ir, start, n, root, []);
      if R.Segments(ir, start, n, []).Some? {
        var (segs, ip) := R.Segments(ir, start, n, []).value;
        assert segs[0..] == segs;
        PlainFollow(root, segs);
        var v := Follow(root, segs);
        EmptyPath(root, segs);
        PushCovered(ip, kinds, st.stack, if n == 0 then Nothing else Loaded, v);
      }
    }
  }

  lemma EmptyPath(root: Value, segs: seq<Bytes>)
    requires root.Object?
    ensures segs == [] ==> Follow(root, segs) == H.VNull
  {
  }

  lemma TruthCovered(st: H.State, kinds: seq<Kind>, n: nat)
    requires OfKinds(kinds, st.stack) && |kinds| >= n
    ensures forall ip: nat, b :: Covers(On(ip, Drop(kinds, n) + [Truth]), H.Push(ip, H.Below(st, n), H.VBool(b)))
  {
    hide Covers, H.Push;
    BelowCovered(kinds, st, n);
    forall ip: nat, b ensures Covers(On(ip, Drop(kinds, n) + [Truth]), H.Push(ip, H.Below(st, n), H.VBool(b))) {
      PushCovered(ip, Drop(kinds, n), H.Below(st, n), Truth, H.VBool(b));
    }
  }

  lemma LogicCovered(op: byte, st: H.State, kinds: seq<Kind>)
    requires OfKinds(kinds, st.stack)
    ensures Covers(ScanLogic(op, st.ip, kinds), H.Logic(op, st))
  {
    hide Covers, H.Push, OfKind;
    Unpushed();
    if |kinds| >= 1 {
      TruthCovered(st, kinds, 1);
      if |kinds| >= 2 {
        TruthCovered(st, kinds, 2);
      }
    }
  }

  lemma ComparisonCovered(fl: Floats, op: byte, st: H.State, kinds: seq<Kind>)
    requires OfKinds(kinds, st.stack)
    ensures Covers(ScanBinary(st.ip, kinds), H.Comparison(fl, op, st))
  {
    hide Covers, H.Push, OfKind, H.EqNative, Compare;
    Unpushed();
    if |kinds| >= 2 {
      TruthCovered(st, kinds, 2);
    }
  }

  lemma MembershipCovered(fl: Floats, op: byte, st: H.State, kinds: seq<Kind>)
    requires OfKinds(kinds, st.stack) && !ScanMembership(st.ip, kinds).Refused?
    ensures Covers(ScanMembership(st.ip, kinds), H.Membership(fl, op, st))
    ensures |st.stack| >= 2 && H.Top(st, 1).VArray? ==> InShared(fl, H.Top(st, 1).items, H.Top(st, 2))
  {
    hide Covers, H.Push, H.EqNative, H.Contains;
    Unpushed();
    if |kinds| >= 2 {
      TruthCovered(st, kinds, 2);
      TopCovered(kinds, st, 1);
      TopCovered(kinds, st, 2);
    }
  }

  lemma CallCovered(env: H.Env, op: byte, st: H.State, kinds: seq<Kind>)
    requires OfKinds(kinds, st.stack) && (op == CALL_HAS_ROLE || op == CALL_TENANT_MATCH)
    ensures Covers(ScanBinary(st.ip, kinds), H.Call(op, env.caller, env.record, st))
    ensures op == CALL_HAS_ROLE && !ScanRoleCall(env.caller, st.ip, kinds).Refused? ==>
              |st.stack| >= 2 && H.Top(st, 1).VStr? ==>
              !H.Top(st, 2).VStr? && !H.Top(st, 2).VArray? && RolesShared(env.caller)
  {
    hide Covers, H.Push, H.HasRole, H.TenantMatch, RolesShared;
    Unpushed();
    if |kinds| >= 2 {
      TruthCovered(st, kinds, 2);
      TopCovered(kinds, st, 1);
      TopCovered(kinds, st, 2);
    }
  }

  /** An instruction the pass accepts lies in the shared fragment, and the pass keeps up with the host. */
  lemma StepCovered(env: H.Env, st: H.State, kinds: seq<Kind>)
    requires OfKinds(kinds, st.stack)
    requires Plain(env.caller) && env.caller.Object? && Plain(env.record) && env.record.Object?
    requires !ScanAt(env.ir, env.caller, env.record, st.ip, kinds).Refused?
    ensures Shared(env, st)
    ensures Covers(ScanAt(env.ir, env.caller, env.record, st.ip, kinds), H.StepAt(env, st))
  {
    hide OfKinds, Plain, Covers, ScanLiteral, ScanLoad, ScanBinary, ScanLogic, H.Literal, H.Load, H.Comparison,
      H.Logic, H.Membership, H.Call, LoadShared, InShared, RolesShared, ValidUtf8, BlobAt;
    Unpushed();
    if st.ip < |env.ir| {
      var op := env.ir[st.ip];
      var st' := H.State(st.ip + 1, st.stack);
      if LIT_NULL <= op <= LIT_DURATION_SECS {
        LiteralCovered(env.ir, op, st', kinds);
      } else if op == LOAD_CALLER {
        LoadCovered(env.ir, env.caller, st', kinds);
      } else if op == LOAD_SELF {
        LoadCovered(env.ir, env.record, st', kinds);
      } else if EQ <= op <= GE {
        ComparisonCovered(env.fl, op, st', kinds);
      } else if AND <= op <= NOT {
        LogicCovered(op, st', kinds);
      } else if op == IN || op == NOT_IN {
        MembershipCovered(env.fl, op, st', kinds);
      } else if op == CALL_HAS_ROLE || op == CALL_TENANT_MATCH {
        CallCovered(env, op, st', kinds);
      }
    }
  }

  /** A rule that passes runs in the shared fragment, whatever the values it meets. */
  lemma {:induction false} PassingRunsShared(env: H.Env, st: H.State, kinds: seq<Kind>)
    requires OfKinds(kinds, st.stack)
    requires Plain(env.caller) && env.caller.Object? && Plain(env.record) && env.record.Object?
    requires Passes(env.ir, env.caller, env.record, st.ip, kinds)
    ensures RunShared(env, st)
    decreases |env.ir| - st.ip
  {
    hide OfKinds, Plain, ScanAt, H.StepAt, Shared;
    StepCovered(env, st, kinds);
    if H.StepAt(env, st).Go? {
      var scan := ScanAt(env.ir, env.caller, env.record, st.ip, kinds);
      PassingRunsShared(env, H.StepAt(env, st).next, scan.kinds);
    }
  }

  // ----- Whole evaluations

  /** The rule this evaluation selects, if any, passes. */
  predicate SectionPasses(section: Bytes, caller: Value, record: Value, bit: byte) {
    Payload(section).Some? ==>
      var ir := Payload(section).value;
      match Dispatch(ir, bit)
      case Enter(ip) => Passes(ir, caller, record, ip, [])
      case _ => true
  }

  /** Where the selected rule passes and neither caller nor record holds a float, nor an array with null or
    * an object in it, the runtime on the bytes and the host on the trees reach one verdict. */
  lemma PassingVerdictsAgree(fl: Floats, section: Bytes, before: Space, wire: Members, after: Space,
                             caller: Doc, record: Doc, action: Bytes, bit: byte)
    requires FaithfulMembers(wire) && IsObjectDoc(caller) && IsObjectDoc(record)
    requires MemberAt(wire, CALLER).Some? && MemberAt(wire, CALLER).value.1 == caller
    requires MemberAt(wire, RECORD).Some? && MemberAt(wire, RECORD).value.1 == record
    requires MemberAt(wire, ACTION).Some? && MemberAt(wire, ACTION).value.1.DString?
    requires MemberAt(wire, ACTION).value.1.raw == action && H.ActionFromWire(action) == H.Done(bit)
    requires Plain(Tree(fl, caller)) && Plain(Tree(fl, record))
    requires SectionPasses(section, Tree(fl, caller), Tree(fl, record), bit)
    ensures SameVerdict(H.Verdict(fl, section, Tree(fl, caller), Tree(fl, record), bit),
                        R.Evaluation(fl, WireText(before, wire, after), section))
  {
    hide Tree, Plain, FaithfulMembers, MemberAt, Passes, RunShared, Payload, Dispatch, SameVerdict, H.Verdict,
      R.Evaluation, WireText;
    ContainerTrees(fl, caller);
    ContainerTrees(fl, record);
    if Payload(section).Some? && Dispatch(Payload(section).value, bit).Enter? {
      var ir := Payload(section).value;
      PassingRunsShared(H.Env(fl, ir, Tree(fl, caller), Tree(fl, record)), H.State(Dispatch(ir, bit).ip, []), []);
    }
    VerdictsAgree(fl, section, before, wire, after, caller, record, action, bit);
  }
}
