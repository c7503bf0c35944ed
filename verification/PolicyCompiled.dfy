/** Compiled predicates mean what they say: the host interpreter, run on what the compiler emits, gives the value
  * of the predicate. */
module PolicyCompiled {
  import opened Wrappers
  import opened JsonText
  import opened JsonValue
  import opened PolicyIr
  import opened CslSyntax
  import opened PolicyRefinement
  import opened PolicyMeaning
  import opened PolicyCompiler
  import opened PolicyDecoding
  import H = PolicyHost
  import Printer = CslPrinter

  function Root(segs: seq<string>, caller: Value, record: Value): Value {
    if segs != [] && segs[0] == "caller" then caller else record
  }

  /** On every path the predicate loads, only the last key may be missing. */
  predicate PathsReach(e: Expr, caller: Value, record: Value)
    decreases e
  {
    match e
    case Path(segs) => segs != [] ==> OnlyLastMissing(Root(segs, caller, record), Keys(segs[1..]))
    case Unary(_, arg) => PathsReach(arg, caller, record)
    case Binary(_, l, r) => PathsReach(l, caller, record) && PathsReach(r, caller, record)
    case Call(_, args) => forall a | a in args :: PathsReach(a, caller, record)
    case _ => true
  }

  // ----- Values on the stack

  lemma CollapsedNative(v: Value)
    ensures H.NativeOf(Collapsed(v)) == H.NativeOf(v)
  {
  }

  lemma {:induction false} AtPlain(v: Value, path: seq<Bytes>)
    ensures !At(v, path).Object?
    decreases |path|
  {
    if path != [] && v.Object? && path[0] in v.fields {
      AtPlain(v.fields[path[0]], path[1..]);
    }
  }

  lemma {:induction false} MeaningPlain(fl: Floats, e: Expr, caller: Value, record: Value)
    ensures Meaning(fl, e, caller, record).Some? ==> !Meaning(fl, e, caller, record).value.Object?
  {
    hide At, Keys;
    if e.Path? && e.segs != [] {
      AtPlain(caller, Keys(e.segs[1..]));
      AtPlain(record, Keys(e.segs[1..]));
    }
  }

  lemma SameIsEqual(fl: Floats, a: Value, b: Value)
    ensures Same(fl, a, b) <==> H.EqNative(fl, H.NativeOf(a), H.NativeOf(b))
  {
  }

  lemma TwoOnTop(ip: nat, base: seq<H.NativeVal>, x: H.NativeVal, y: H.NativeVal)
    ensures
      var st := H.State(ip, base + [x, y]);
      |st.stack| == |base| + 2 && H.Top(st, 1) == y && H.Top(st, 2) == x && H.Below(st, 2) == base
  {
  }

  // ----- Instructions

  lemma LiteralStep(env: H.Env, lit: Literal, code: Bytes, ip: nat, stack: seq<H.NativeVal>)
    requires LowerLiteral(env.fl, lit) == Some(code) && CodeAt(env.ir, ip, code)
    ensures LiteralMeans(env.fl, lit).Some?
    ensures H.StepAt(env, H.State(ip, stack)) ==
            H.Push(ip + |code|, stack, H.NativeOf(LiteralMeans(env.fl, lit).value))
  {
    hide LeBytes, ToI64, ToF64, BlobAt, Word64At, ValidUtf8, Bytes8, CodeAt;
    var head, tail := [code[0]], code[1..];
    assert code == head + tail;
    CodeSplits(env.ir, ip, head, tail);
    ByteReads(env.ir, ip, code[0]);
    match lit {
      case LNull =>
      case LBool(b) => ByteReads(env.ir, ip + 1, tail[0]);
      case LInteger(n) =>
        WordReads(env.ir, ip + 1, Word(n));
        SignedReads(n);
      case LFloat(text) =>
        var f := env.fl.parse(Bytes8(text)).value;
        WordReads(env.ir, ip + 1, f);
        FloatReads(f);
      case LString(s) =>
        BlobReads(env.ir, ip + 1, Bytes8(s));
        TextIsUtf8(s);
    }
  }

  lemma KeysLength(segs: seq<string>)
    ensures |Keys(segs)| == |segs|
  {
  }

  lemma {:induction false} WalkReads(ir: Bytes, ip: nat, segs: seq<string>, code: Bytes, cursor: Value)
    requires LowerSegments(segs) == Some(code) && CodeAt(ir, ip, code)
    requires OnlyLastMissing(cursor, Keys(segs))
    ensures H.Walk(ir, ip, |segs|, cursor) == H.Done((H.NativeOf(At(cursor, Keys(segs))), ip + |code|))
    decreases |segs|
  {
    hide ValidUtf8, BlobAt, LeBytes, Bytes8, CodeAt, H.NativeOf;
    if segs == [] {
      CollapsedNative(cursor);
    } else {
      var key, blob, more := Bytes8(segs[0]), LowerText(segs[0]).value, LowerSegments(segs[1..]).value;
      CodeSplits(ir, ip, blob, more);
      BlobReads(ir, ip, key);
      TextIsUtf8(segs[0]);
      KeysLength(segs);
      assert Keys(segs)[0] == key && Keys(segs)[1..] == Keys(segs[1..]);
      if Get(cursor, key).Some? {
        WalkReads(ir, ip + |blob|, segs[1..], more, Get(cursor, key).value);
      } else {
        assert |segs| == 1;
        assert H.NativeOf(Null) == H.VNull by { NullNative(); }
      }
    }
  }

  lemma NullNative()
    ensures H.NativeOf(Null) == H.VNull
  {
  }

  lemma PathStep(env: H.Env, segs: seq<string>, code: Bytes, ip: nat, stack: seq<H.NativeVal>)
    requires LowerPath(segs) == Some(code) && CodeAt(env.ir, ip, code)
    requires OnlyLastMissing(Root(segs, env.caller, env.record), Keys(segs[1..]))
    ensures PathMeans(segs, env.caller, env.record).Some?
    ensures H.StepAt(env, H.State(ip, stack)) ==
            H.Push(ip + |code|, stack, H.NativeOf(PathMeans(segs, env.caller, env.record).value))
  {
    hide LowerSegments, CodeAt, H.Walk, At, OnlyLastMissing, Keys, H.NativeOf;
    var op, n, blobs := code[0], |segs| - 1, LowerSegments(segs[1..]).value;
    assert code == [op] + ([n] + blobs);
    CodeSplits(env.ir, ip, [op], [n] + blobs);
    CodeSplits(env.ir, ip + 1, [n], blobs);
    ByteReads(env.ir, ip, op);
    ByteReads(env.ir, ip + 1, n);
    var root := Root(segs, env.caller, env.record);
    WalkReads(env.ir, ip + 2, segs[1..], blobs, root);
    assert |code| == 2 + |blobs|;
    LoadPushes(env, root, H.State(ip + 1, stack), n, H.NativeOf(At(root, Keys(segs[1..]))), ip + |code|);
  }

  lemma LoadPushes(env: H.Env, root: Value, st: H.State, n: byte, v: H.NativeVal, end: nat)
    requires ByteAtIp(env.ir, st.ip) == Some((n, st.ip + 1))
    requires H.Walk(env.ir, st.ip + 1, n, root) == H.Done((v, end))
    ensures H.Load(env.ir, root, st) == H.Push(end, st.stack, v)
  {
    hide H.Walk;
  }

  /** An instruction on two operands: what `truth` says, or a fault. */
  predicate StepGives(step: H.Step, ip: nat, base: seq<H.NativeVal>, truth: Option<bool>) {
    match truth
    case Some(b) => step == Go(H.State(ip, base + [H.VBool(b)]))
    case None => step.Fault?
  }

  lemma ComparisonStep(env: H.Env, op: BinaryOp, ip: nat, base: seq<H.NativeVal>, a: Value, b: Value)
    requires op in {Eq, Ne, Lt, Le, Gt, Ge} && |base| + 2 <= MAX_STACK && !a.Object? && !b.Object?
    ensures StepGives(H.Comparison(env.fl, Opcode(op).value, H.State(ip, base + [H.NativeOf(a), H.NativeOf(b)])),
                    ip, base, Applied(env.fl, op, a, b))
  {
    TwoOnTop(ip, base, H.NativeOf(a), H.NativeOf(b));
    SameIsEqual(env.fl, a, b);
    hide H.EqNative, Same;
  }

  lemma LogicStep(env: H.Env, op: BinaryOp, ip: nat, base: seq<H.NativeVal>, a: Value, b: Value)
    requires op in {BinaryOp.And, BinaryOp.Or} && |base| + 2 <= MAX_STACK && !a.Object? && !b.Object?
    ensures StepGives(H.Logic(Opcode(op).value, H.State(ip, base + [H.NativeOf(a), H.NativeOf(b)])),
                    ip, base, Applied(env.fl, op, a, b))
  {
    TwoOnTop(ip, base, H.NativeOf(a), H.NativeOf(b));
  }

  lemma ContainsSame(fl: Floats, a: Value, items: seq<Value>)
    ensures H.Contains(fl, items, H.NativeOf(a)) <==> exists x | x in items :: Same(fl, a, x)
  {
    forall x | x in items ensures Same(fl, a, x) <==> H.EqNative(fl, H.NativeOf(a), H.NativeOf(x)) {
      SameIsEqual(fl, a, x);
    }
    hide H.EqNative, Same, H.NativeOf;
  }

  lemma MembershipStep(env: H.Env, op: BinaryOp, ip: nat, base: seq<H.NativeVal>, a: Value, b: Value)
    requires op in {In, NotIn} && |base| + 2 <= MAX_STACK && !a.Object? && !b.Object?
    ensures StepGives(H.Membership(env.fl, Opcode(op).value, H.State(ip, base + [H.NativeOf(a), H.NativeOf(b)])),
                    ip, base, Applied(env.fl, op, a, b))
  {
    TwoOnTop(ip, base, H.NativeOf(a), H.NativeOf(b));
    if b.Array? {
      ContainsSame(env.fl, a, b.items);
    }
    hide H.Contains, Same;
  }

  lemma BinaryStep(env: H.Env, op: BinaryOp, tag: byte, ip: nat, base: seq<H.NativeVal>, a: Value, b: Value)
    requires Opcode(op) == Some(tag) && CodeAt(env.ir, ip, [tag])
    requires |base| + 2 <= MAX_STACK && !a.Object? && !b.Object?
    ensures StepGives(H.StepAt(env, H.State(ip, base + [H.NativeOf(a), H.NativeOf(b)])), ip + 1, base,
                    Applied(env.fl, op, a, b))
  {
    hide CodeAt, Applied, StepGives, H.Comparison, H.Logic, H.Membership, H.Literal, H.Load, H.Call, H.Terminal, H.NativeOf;
    ByteReads(env.ir, ip, tag);
    if op in {Eq, Ne, Lt, Le, Gt, Ge} {
      ComparisonStep(env, op, ip + 1, base, a, b);
    } else if op in {BinaryOp.And, BinaryOp.Or} {
      LogicStep(env, op, ip + 1, base, a, b);
    } else {
      MembershipStep(env, op, ip + 1, base, a, b);
    }
  }

  lemma NotStep(env: H.Env, ip: nat, base: seq<H.NativeVal>, a: Value)
    requires CodeAt(env.ir, ip, [NOT]) && |base| + 1 <= MAX_STACK && !a.Object?
    ensures StepGives(H.StepAt(env, H.State(ip, base + [H.NativeOf(a)])), ip + 1, base,
                    if a.Bool? then Some(!a.b) else None)
  {
    ByteReads(env.ir, ip, NOT);
    hide CodeAt;
    var st := H.State(ip + 1, base + [H.NativeOf(a)]);
    assert H.Top(st, 1) == H.NativeOf(a) && H.Below(st, 1) == base;
  }

  /** What a call answers. */
  function CallApplied(path: seq<string>, caller: Value, record: Value, b: Value): Option<bool> {
    if Printer.PathText(path) == "has_role" then if b.String? then Some(Plays(caller, b.s)) else None
    else if Printer.PathText(path) == "tenant_match" then Some(SameTenant(caller, record))
    else None
  }

  lemma RolesKey()
    ensures Bytes8("roles") == ROLES && Bytes8("tenant") == TENANT
  {
    KeyText("roles", ROLES);
    KeyText("tenant", TENANT);
  }

  /** ASCII text is its own bytes. */
  lemma {:induction false} KeyText(s: string, b: Bytes)
    requires |s| == |b| && forall k :: 0 <= k < |s| ==> s[k] as int == b[k] < 0x80
    ensures Bytes8(s) == b
  {
    if s != "" {
      KeyText(s[1..], b[1..]);
      assert b == [b[0]] + b[1..];
    }
  }

  lemma OneKey(v: Value, key: Bytes)
    ensures At(v, [key]) == if Get(v, key).Some? then Collapsed(Get(v, key).value) else Null
  {
    assert [key][1..] == [];
  }

  lemma CallsAgree(caller: Value, record: Value)
    ensures forall role :: Plays(caller, role) <==> H.HasRole(caller, role)
    ensures SameTenant(caller, record) <==> H.TenantMatch(caller, record)
  {
    RolesKey();
    hide Bytes8;
    OneKey(caller, ROLES);
    OneKey(caller, TENANT);
    OneKey(record, TENANT);
  }

  lemma CallStep(env: H.Env, path: seq<string>, tag: byte, ip: nat, base: seq<H.NativeVal>, a: Value, b: Value)
    requires CallOpcode(path) == Some(tag) && CodeAt(env.ir, ip, [tag])
    requires |base| + 2 <= MAX_STACK && !a.Object? && !b.Object?
    ensures StepGives(H.StepAt(env, H.State(ip, base + [H.NativeOf(a), H.NativeOf(b)])), ip + 1, base,
                    CallApplied(path, env.caller, env.record, b))
  {
    ByteReads(env.ir, ip, tag);
    TwoOnTop(ip + 1, base, H.NativeOf(a), H.NativeOf(b));
    CallsAgree(env.caller, env.record);
    hide CodeAt, Plays, SameTenant, H.HasRole, H.TenantMatch, Printer.PathText;
  }

  // ----- Whole predicates

  /** What running the code leaves: the predicate's value on the stack, if it has one and there is room. */
  predicate Leaves(env: H.Env, ip: nat, end: nat, stack: seq<H.NativeVal>, value: Option<Value>) {
    match value
    case Some(v) =>
      H.RunFrom(env, H.State(ip, stack)) == H.RunFrom(env, H.State(end, stack + [H.NativeOf(v)]))
    case None => H.RunFrom(env, H.State(ip, stack)).Failed?
  }

  /** The value, where `depth` more operands fit. */
  function Fitting(used: nat, depth: nat, value: Option<Value>): Option<Value> {
    if used + depth <= MAX_STACK then value else None
  }

  lemma LeafLeaves(env: H.Env, ip: nat, end: nat, stack: seq<H.NativeVal>, v: Value)
    requires H.StepAt(env, H.State(ip, stack)) == H.Push(end, stack, H.NativeOf(v))
    ensures Leaves(env, ip, end, stack, Fitting(|stack|, 1, Some(v)))
  {
    hide H.StepAt;
  }

  lemma StepLeaves(env: H.Env, ip: nat, base: seq<H.NativeVal>, stack: seq<H.NativeVal>, truth: Option<bool>)
    requires StepGives(H.StepAt(env, H.State(ip, stack)), ip + 1, base, truth)
    ensures truth.Some? ==> H.RunFrom(env, H.State(ip, stack)) == H.RunFrom(env, H.State(ip + 1, base + [H.VBool(truth.value)]))
    ensures truth.None? ==> H.RunFrom(env, H.State(ip, stack)).Failed?
  {
    hide H.StepAt;
  }

  /** From the first byte of the compiled code the run comes to the byte behind it with the predicate's value on
    * top of the stack; it fails exactly when the predicate has no value or the stack has no room. */
  lemma {:induction false} CodeRuns(env: H.Env, e: Expr, code: Bytes, ip: nat, stack: seq<H.NativeVal>)
    requires LowerExpr(env.fl, e) == Some(code) && CodeAt(env.ir, ip, code)
    requires PathsReach(e, env.caller, env.record) && |stack| <= MAX_STACK
    ensures Leaves(env, ip, ip + |code|, stack,
                   Fitting(|stack|, Depth(e), Meaning(env.fl, e, env.caller, env.record)))
    decreases e
  {
    hide CodeAt, Leaves, LowerLiteral, LowerPath, LiteralMeans, PathMeans, Applied, CallApplied, H.StepAt, H.RunFrom, Opcode,
      CallOpcode, OnlyLastMissing, Keys, Plays, SameTenant, Printer.PathText;
    match e {
      case Lit(lit) =>
        LiteralStep(env, lit, code, ip, stack);
        LeafLeaves(env, ip, ip + |code|, stack, LiteralMeans(env.fl, lit).value);
      case Path(segs) =>
        PathIsLowered(segs);
        PathStep(env, segs, code, ip, stack);
        LeafLeaves(env, ip, ip + |code|, stack, PathMeans(segs, env.caller, env.record).value);
      case Unary(_, arg) =>
        var inner := LowerExpr(env.fl, arg).value;
        CodeSplits(env.ir, ip, inner, [NOT]);
        CodeRuns(env, arg, inner, ip, stack);
        NotLeaves(env, arg, ip, ip + |inner|, stack);
      case Binary(op, l, r) =>
        var a, b := LowerExpr(env.fl, l).value, LowerExpr(env.fl, r).value;
        var tag := Opcode(op).value;
        CodeSplits(env.ir, ip, a + b, [tag]);
        CodeSplits(env.ir, ip, a, b);
        CodeRuns(env, l, a, ip, stack);
        var x := Meaning(env.fl, l, env.caller, env.record);
        DepthPositive(l);
        if x.Some? && |stack| + Depth(l) <= MAX_STACK {
          CodeRuns(env, r, b, ip + |a|, stack + [H.NativeOf(x.value)]);
        }
        BinaryLeaves(env, op, l, r, tag, ip, ip + |a|, ip + |a| + |b|, stack);
      case Call(path, args) =>
        var l, r := args[0], args[1];
        var a, b := LowerExpr(env.fl, l).value, LowerExpr(env.fl, r).value;
        var tag := CallOpcode(path).value;
        CodeSplits(env.ir, ip, a + b, [tag]);
        CodeSplits(env.ir, ip, a, b);
        CodeRuns(env, l, a, ip, stack);
        var x := Meaning(env.fl, l, env.caller, env.record);
        DepthPositive(l);
        if x.Some? && |stack| + Depth(l) <= MAX_STACK {
          CodeRuns(env, r, b, ip + |a|, stack + [H.NativeOf(x.value)]);
        }
        CallLeaves(env, path, args, tag, ip, ip + |a|, ip + |a| + |b|, stack);
    }
  }

  lemma PathIsLowered(segs: seq<string>)
    requires LowerPath(segs).Some?
    ensures segs != []
  {
  }

  lemma DepthPositive(e: Expr)
    ensures Depth(e) >= 1
  {
  }

  lemma NotLeaves(env: H.Env, arg: Expr, ip: nat, mid: nat, stack: seq<H.NativeVal>)
    requires Leaves(env, ip, mid, stack, Fitting(|stack|, Depth(arg), Meaning(env.fl, arg, env.caller, env.record)))
    requires CodeAt(env.ir, mid, [NOT])
    ensures
      var e := Unary(UnaryOp.Not, arg);
      Leaves(env, ip, mid + 1, stack, Fitting(|stack|, Depth(e), Meaning(env.fl, e, env.caller, env.record)))
  {
    hide CodeAt, H.StepAt, H.RunFrom;
    MeaningPlain(env.fl, arg, env.caller, env.record);
    DepthPositive(arg);
    var x := Fitting(|stack|, Depth(arg), Meaning(env.fl, arg, env.caller, env.record));
    if x.Some? {
      var truth := if x.value.Bool? then Some(!x.value.b) else None;
      NotStep(env, mid, stack, x.value);
      StepLeaves(env, mid, stack, stack + [H.NativeOf(x.value)], truth);
    }
  }

  /** Two operands, then an instruction on them. */
  lemma TwoLeave(env: H.Env, l: Expr, r: Expr, ip: nat, mid: nat, end: nat, stack: seq<H.NativeVal>, a: Value,
                 b: Value, truth: Option<bool>)
    requires |stack| + Depth(l) <= MAX_STACK && |stack| + 1 + Depth(r) <= MAX_STACK
    requires Leaves(env, ip, mid, stack, Some(a)) && Leaves(env, mid, end, stack + [H.NativeOf(a)], Some(b))
    requires StepGives(H.StepAt(env, H.State(end, stack + [H.NativeOf(a), H.NativeOf(b)])), end + 1, stack, truth)
    ensures Leaves(env, ip, end + 1, stack, if truth.Some? then Some(Bool(truth.value)) else None)
  {
    hide H.StepAt, H.RunFrom, StepGives;
    assert stack + [H.NativeOf(a)] + [H.NativeOf(b)] == stack + [H.NativeOf(a), H.NativeOf(b)];
    StepLeaves(env, end, stack, stack + [H.NativeOf(a), H.NativeOf(b)], truth);
  }

  /** Both operands are evaluated before the instruction; a failure of either is a failure. */
  predicate BothRun(env: H.Env, l: Expr, r: Expr, ip: nat, mid: nat, end: nat, stack: seq<H.NativeVal>) {
    var x := Meaning(env.fl, l, env.caller, env.record);
    && Leaves(env, ip, mid, stack, Fitting(|stack|, Depth(l), x))
    && (x.Some? && |stack| + Depth(l) <= MAX_STACK ==>
          Leaves(env, mid, end, stack + [H.NativeOf(x.value)],
                 Fitting(|stack| + 1, Depth(r), Meaning(env.fl, r, env.caller, env.record))))
  }

  lemma OneFails(env: H.Env, l: Expr, r: Expr, ip: nat, mid: nat, end: nat, stack: seq<H.NativeVal>)
    requires BothRun(env, l, r, ip, mid, end, stack)
    requires
      || Meaning(env.fl, l, env.caller, env.record).None? || Meaning(env.fl, r, env.caller, env.record).None?
      || |stack| + Depth(l) > MAX_STACK || |stack| + 1 + Depth(r) > MAX_STACK
    ensures forall e: nat :: Leaves(env, ip, e, stack, None)
  {
    hide H.StepAt, H.RunFrom, Meaning, Depth;
  }

  lemma BinaryLeaves(env: H.Env, op: BinaryOp, l: Expr, r: Expr, tag: byte, ip: nat, mid: nat, end: nat,
                     stack: seq<H.NativeVal>)
    requires BothRun(env, l, r, ip, mid, end, stack) && Opcode(op) == Some(tag) && CodeAt(env.ir, end, [tag])
    ensures
      var e := Binary(op, l, r);
      Leaves(env, ip, end + 1, stack, Fitting(|stack|, Depth(e), Meaning(env.fl, e, env.caller, env.record)))
  {
    hide CodeAt, H.StepAt, Applied, Opcode, Leaves;
    var x, y := Meaning(env.fl, l, env.caller, env.record), Meaning(env.fl, r, env.caller, env.record);
    if x.None? || y.None? || |stack| + Depth(l) > MAX_STACK || |stack| + 1 + Depth(r) > MAX_STACK {
      OneFails(env, l, r, ip, mid, end, stack);
    } else {
      MeaningPlain(env.fl, l, env.caller, env.record);
      MeaningPlain(env.fl, r, env.caller, env.record);
      DepthPositive(r);
      BinaryStep(env, op, tag, end, stack, x.value, y.value);
      TwoLeave(env, l, r, ip, mid, end, stack, x.value, y.value, Applied(env.fl, op, x.value, y.value));
    }
  }

  lemma CallLeaves(env: H.Env, path: seq<string>, args: seq<Expr>, tag: byte, ip: nat, mid: nat, end: nat,
                   stack: seq<H.NativeVal>)
    requires |args| == 2 && BothRun(env, args[0], args[1], ip, mid, end, stack)
    requires CallOpcode(path) == Some(tag) && CodeAt(env.ir, end, [tag])
    ensures
      var e := Call(path, args);
      Leaves(env, ip, end + 1, stack, Fitting(|stack|, Depth(e), Meaning(env.fl, e, env.caller, env.record)))
  {
    hide CodeAt, H.StepAt, CallOpcode, Leaves, Plays, SameTenant, Printer.PathText;
    var l, r := args[0], args[1];
    var x, y := Meaning(env.fl, l, env.caller, env.record), Meaning(env.fl, r, env.caller, env.record);
    if x.None? || y.None? || |stack| + Depth(l) > MAX_STACK || |stack| + 1 + Depth(r) > MAX_STACK {
      OneFails(env, l, r, ip, mid, end, stack);
    } else {
      MeaningPlain(env.fl, l, env.caller, env.record);
      MeaningPlain(env.fl, r, env.caller, env.record);
      DepthPositive(r);
      CallStep(env, path, tag, end, stack, x.value, y.value);
      TwoLeave(env, l, r, ip, mid, end, stack, x.value, y.value, CallApplied(path, env.caller, env.record, y.value));
    }
  }
}
