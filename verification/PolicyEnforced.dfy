/** The runtime interpreter, on offsets into the request's bytes, computes what compiled predicates mean for the
  * caller and the record in the request; it needs no key of a path to be there. */
module PolicyEnforced {
  import opened Wrappers
  import opened JsonText
  import opened JsonValue
  import opened JsonReader
  import opened JsonReaderProofs
  import opened PolicyIr
  import opened CslSyntax
  import opened PolicyRefinement
  import opened PolicySimulation
  import opened PolicyMeaning
  import opened PolicyCompiler
  import opened PolicyDecoding
  import opened PolicyCompiled
  import H = PolicyHost
  import R = PolicyRuntime
  import Printer = CslPrinter

  /** What the runtime reads as the host does: paths of at most eight keys to a value that is no float, and what is
    * looked for in an array with `in`. */
  predicate Reads(fl: Floats, e: Expr, caller: Value, record: Value)
    decreases e
  {
    match e
    case Path(segs) =>
      segs != [] ==>
        |segs| - 1 <= MAX_SEGMENTS && !IsFloat(H.NativeOf(At(Root(segs, caller, record), Keys(segs[1..]))))
    case Unary(_, arg) => Reads(fl, arg, caller, record)
    case Binary(op, l, r) =>
      && Reads(fl, l, caller, record) && Reads(fl, r, caller, record)
      && (op == In || op == NotIn ==>
            Seeks(fl, Meaning(fl, l, caller, record), Meaning(fl, r, caller, record)))
    case Call(path, args) =>
      && (forall a | a in args :: Reads(fl, a, caller, record))
      && (|args| == 2 && Printer.PathText(path) == "has_role" ==>
            NoText(Meaning(fl, args[0], caller, record)) && RolesShared(caller))
    case _ => true
  }

  /** Null in an array with neither null nor object, an integer in one without floats, a float where it equals no
    * element; text and truth values anywhere. */
  predicate Seeks(fl: Floats, needle: Option<Value>, haystack: Option<Value>) {
    needle.Some? && haystack.Some? && haystack.value.Array? ==>
      InShared(fl, haystack.value.items, H.NativeOf(needle.value))
  }

  predicate NoText(v: Option<Value>) {
    v.Some? ==> !v.value.String? && !v.value.Array?
  }

  // ----- Paths

  lemma {:induction false} SegmentsReads(ir: Bytes, ip: nat, segs: seq<string>, code: Bytes, sofar: seq<Bytes>)
    requires LowerSegments(segs) == Some(code) && CodeAt(ir, ip, code)
    requires |sofar| + |segs| <= MAX_SEGMENTS
    ensures R.Segments(ir, ip, |segs|, sofar) == Some((sofar + Keys(segs), ip + |code|))
    decreases |segs|
  {
    hide BlobAt, LeBytes, Bytes8, CodeAt;
    if segs == [] {
      assert sofar + [] == sofar;
    } else {
      var key, blob, more := Bytes8(segs[0]), LowerText(segs[0]).value, LowerSegments(segs[1..]).value;
      CodeSplits(ir, ip, blob, more);
      BlobReads(ir, ip, key);
      SegmentsReads(ir, ip + |blob|, segs[1..], more, sofar + [key]);
      assert (sofar + [key]) + Keys(segs[1..]) == sofar + Keys(segs);
    }
  }

  lemma {:induction false} FollowIsAt(v: Value, path: seq<Bytes>)
    ensures Follow(v, path) == H.NativeOf(At(v, path))
    decreases |path|
  {
    if path == [] {
      CollapsedNative(v);
    } else if v.Object? && path[0] in v.fields {
      FollowIsAt(v.fields[path[0]], path[1..]);
    }
  }

  /** The runtime's step pushes the value, as the host's would. */
  ghost predicate Pushes(rEnv: R.Env, hs: seq<H.NativeVal>, rs: seq<R.Val>, ip: nat, end: nat, v: Value)
    requires R.WellPlaced(rEnv)
  {
    SameStep(rEnv.fl, rEnv.input, H.Push(end, hs, H.NativeOf(v)), R.StepAt(rEnv, R.Machine(ip, rs)))
  }

  lemma LoadReads(rEnv: R.Env, at: nat, d: Doc, segs: seq<string>, blobs: Bytes, n: byte, hs: seq<H.NativeVal>,
                  st: R.Machine)
    requires Located(rEnv.input, at, d) && Faithful(d) && IsObjectDoc(d) && at <= |rEnv.input|
    requires SameStack(rEnv.fl, rEnv.input, hs, st.stack)
    requires n as int == |segs| <= MAX_SEGMENTS && ByteAtIp(rEnv.ir, st.ip) == Some((n, st.ip + 1))
    requires LowerSegments(segs) == Some(blobs) && CodeAt(rEnv.ir, st.ip + 1, blobs)
    requires !IsFloat(H.NativeOf(At(Tree(rEnv.fl, d), Keys(segs))))
    ensures SameStep(rEnv.fl, rEnv.input,
                     H.Push(st.ip + 1 + |blobs|, hs, H.NativeOf(At(Tree(rEnv.fl, d), Keys(segs)))),
                     R.Load(rEnv, Some(at), st))
  {
    hide Located, Faithful, Tree, R.LoadedValue, SameStack, SameStep, R.Segments, SameValue, Follow, At, CodeAt, LowerSegments,
      H.NativeOf, H.Push, R.Push;
    SegmentsReads(rEnv.ir, st.ip + 1, segs, blobs, []);
    assert [] + Keys(segs) == Keys(segs);
    FollowIsAt(Tree(rEnv.fl, d), Keys(segs));
    SameLoaded(rEnv, at, d, Keys(segs));
    var v := R.LoadedValue(rEnv, Some(at), Keys(segs)).value;
    SamePush(rEnv.fl, rEnv.input, st.ip + 1 + |blobs|, hs, st.stack, Follow(Tree(rEnv.fl, d), Keys(segs)), v);
  }

  lemma PathPushes(hEnv: H.Env, rEnv: R.Env, caller: Doc, record: Doc, segs: seq<string>, code: Bytes, ip: nat,
                   hs: seq<H.NativeVal>, rs: seq<R.Val>)
    requires Linked(hEnv, rEnv, caller, record) && SameStack(hEnv.fl, rEnv.input, hs, rs)
    requires LowerPath(segs) == Some(code) && CodeAt(rEnv.ir, ip, code)
    requires Reads(hEnv.fl, Path(segs), hEnv.caller, hEnv.record)
    ensures PathMeans(segs, hEnv.caller, hEnv.record).Some?
    ensures Pushes(rEnv, hs, rs, ip, ip + |code|, PathMeans(segs, hEnv.caller, hEnv.record).value)
  {
    hide Located, Faithful, Tree, LowerSegments, CodeAt, At, Keys, H.NativeOf, H.Push, SameStep, SameStack, R.Load;
    var op, n, blobs := code[0], |segs| - 1, LowerSegments(segs[1..]).value;
    assert code == [op] + ([n] + blobs);
    CodeSplits(rEnv.ir, ip, [op], [n] + blobs);
    CodeSplits(rEnv.ir, ip + 1, [n], blobs);
    ByteReads(rEnv.ir, ip, op);
    ByteReads(rEnv.ir, ip + 1, n);
    var st := R.Machine(ip + 1, rs);
    if segs[0] == "caller" {
      LoadReads(rEnv, rEnv.callerAt.value, caller, segs[1..], blobs, n, hs, st);
    } else {
      LoadReads(rEnv, rEnv.selfAt.value, record, segs[1..], blobs, n, hs, st);
    }
  }

  lemma LiteralPushes(hEnv: H.Env, rEnv: R.Env, caller: Doc, record: Doc, lit: Literal, code: Bytes, ip: nat,
                      hs: seq<H.NativeVal>, rs: seq<R.Val>)
    requires Linked(hEnv, rEnv, caller, record) && SameStack(hEnv.fl, rEnv.input, hs, rs)
    requires LowerLiteral(hEnv.fl, lit) == Some(code) && CodeAt(rEnv.ir, ip, code)
    ensures LiteralMeans(hEnv.fl, lit).Some?
    ensures Pushes(rEnv, hs, rs, ip, ip + |code|, LiteralMeans(hEnv.fl, lit).value)
  {
    hide Linked, LiteralMeans, SameStep, SameStack, H.StepAt, R.StepAt, Shared, LowerLiteral;
    SameCode(hEnv, rEnv, caller, record);
    LiteralStep(hEnv, lit, code, ip, hs);
    LiteralShared(hEnv, lit, code, ip, hs);
    StepsAgree(hEnv, rEnv, caller, record, H.State(ip, hs), R.Machine(ip, rs));
  }

  lemma SameCode(hEnv: H.Env, rEnv: R.Env, caller: Doc, record: Doc)
    requires Linked(hEnv, rEnv, caller, record)
    ensures hEnv.fl == rEnv.fl && hEnv.ir == rEnv.ir && R.WellPlaced(rEnv)
  {
  }

  lemma LiteralShared(hEnv: H.Env, lit: Literal, code: Bytes, ip: nat, hs: seq<H.NativeVal>)
    requires LowerLiteral(hEnv.fl, lit) == Some(code) && CodeAt(hEnv.ir, ip, code)
    ensures Shared(hEnv, H.State(ip, hs))
  {
    hide LeBytes, BlobAt, ValidUtf8, Bytes8, CodeAt;
    var head, tail := [code[0]], code[1..];
    assert code == head + tail;
    CodeSplits(hEnv.ir, ip, head, tail);
    ByteReads(hEnv.ir, ip, code[0]);
    if lit.LString? {
      BlobReads(hEnv.ir, ip + 1, Bytes8(lit.s));
      TextIsUtf8(lit.s);
    }
  }

  // ----- Whole predicates

  /** What running the code leaves: a stack with the value on top, if there is one. */
  ghost predicate Yields(rEnv: R.Env, ip: nat, end: nat, hs: seq<H.NativeVal>, rs: seq<R.Val>, value: Option<Value>)
    requires R.WellPlaced(rEnv)
  {
    match value
    case Some(v) => exists rs' ::
        && SameStack(rEnv.fl, rEnv.input, hs + [H.NativeOf(v)], rs')
        && R.RunFrom(rEnv, R.Machine(ip, rs)) == R.RunFrom(rEnv, R.Machine(end, rs'))
    case None => R.RunFrom(rEnv, R.Machine(ip, rs)).Malformed?
  }

  lemma LeafYields(rEnv: R.Env, ip: nat, end: nat, hs: seq<H.NativeVal>, rs: seq<R.Val>, v: Value)
    requires R.WellPlaced(rEnv) && Pushes(rEnv, hs, rs, ip, end, v)
    ensures Yields(rEnv, ip, end, hs, rs, Fitting(|hs|, 1, Some(v)))
  {
    hide R.StepAt, SameStack, H.NativeOf;
  }

  /** An instruction the host answers, in the shared fragment. */
  lemma StepYields(hEnv: H.Env, rEnv: R.Env, caller: Doc, record: Doc, ip: nat, base: seq<H.NativeVal>,
                   hs: seq<H.NativeVal>, rs: seq<R.Val>, truth: Option<bool>)
    requires Linked(hEnv, rEnv, caller, record) && SameStack(hEnv.fl, rEnv.input, hs, rs)
    requires Shared(hEnv, H.State(ip, hs)) && StepGives(H.StepAt(hEnv, H.State(ip, hs)), ip + 1, base, truth)
    ensures R.WellPlaced(rEnv)
    ensures Yields(rEnv, ip, ip + 1, base, rs, if truth.Some? then Some(Bool(truth.value)) else None)
  {
    hide Linked, Shared, SameStack, H.StepAt, R.StepAt;
    SameCode(hEnv, rEnv, caller, record);
    StepsAgree(hEnv, rEnv, caller, record, H.State(ip, hs), R.Machine(ip, rs));
    if truth.Some? {
      var next := R.StepAt(rEnv, R.Machine(ip, rs)).next;
      BoolNative(truth.value);
      assert R.RunFrom(rEnv, R.Machine(ip, rs)) == R.RunFrom(rEnv, R.Machine(ip + 1, next.stack));
    }
  }

  lemma BoolNative(b: bool)
    ensures H.NativeOf(Bool(b)) == H.VBool(b)
  {
  }

  /** Running on from where a part of the code has left the machine. */
  lemma YieldsOn(rEnv: R.Env, ip: nat, mid: nat, end: nat, base: seq<H.NativeVal>, rs: seq<R.Val>, rs': seq<R.Val>,
                 value: Option<Value>)
    requires R.WellPlaced(rEnv)
    requires R.RunFrom(rEnv, R.Machine(ip, rs)) == R.RunFrom(rEnv, R.Machine(mid, rs'))
    requires Yields(rEnv, mid, end, base, rs', value)
    ensures Yields(rEnv, ip, end, base, rs, value)
  {
    hide R.StepAt, R.RunFrom, SameStack;
  }

  lemma StackOf(rEnv: R.Env, ip: nat, end: nat, hs: seq<H.NativeVal>, rs: seq<R.Val>, v: Value) returns (rs': seq<R.Val>)
    requires R.WellPlaced(rEnv) && Yields(rEnv, ip, end, hs, rs, Some(v))
    ensures SameStack(rEnv.fl, rEnv.input, hs + [H.NativeOf(v)], rs')
    ensures R.RunFrom(rEnv, R.Machine(ip, rs)) == R.RunFrom(rEnv, R.Machine(end, rs'))
  {
    hide SameStack, R.RunFrom;
    rs' :|
      && SameStack(rEnv.fl, rEnv.input, hs + [H.NativeOf(v)], rs')
      && R.RunFrom(rEnv, R.Machine(ip, rs)) == R.RunFrom(rEnv, R.Machine(end, rs'));
  }

  lemma BinaryShared(hEnv: H.Env, op: BinaryOp, tag: byte, ip: nat, base: seq<H.NativeVal>, a: Value, b: Value)
    requires Opcode(op) == Some(tag) && CodeAt(hEnv.ir, ip, [tag])
    requires op == In || op == NotIn ==> Seeks(hEnv.fl, Some(a), Some(b))
    ensures Shared(hEnv, H.State(ip, base + [H.NativeOf(a), H.NativeOf(b)]))
  {
    ByteReads(hEnv.ir, ip, tag);
    TwoOnTop(ip, base, H.NativeOf(a), H.NativeOf(b));
    hide CodeAt, InShared;
  }

  lemma CallShared(hEnv: H.Env, path: seq<string>, tag: byte, ip: nat, base: seq<H.NativeVal>, a: Value, b: Value)
    requires CallOpcode(path) == Some(tag) && CodeAt(hEnv.ir, ip, [tag])
    requires Printer.PathText(path) == "has_role" ==> NoText(Some(a)) && RolesShared(hEnv.caller)
    ensures Shared(hEnv, H.State(ip, base + [H.NativeOf(a), H.NativeOf(b)]))
  {
    ByteReads(hEnv.ir, ip, tag);
    TwoOnTop(ip, base, H.NativeOf(a), H.NativeOf(b));
    hide CodeAt, RolesShared, Printer.PathText;
  }

  lemma NotShared(hEnv: H.Env, ip: nat, hs: seq<H.NativeVal>)
    requires CodeAt(hEnv.ir, ip, [NOT])
    ensures Shared(hEnv, H.State(ip, hs))
  {
    ByteReads(hEnv.ir, ip, NOT);
    hide CodeAt;
  }

  lemma StackRoom(fl: Floats, input: Bytes, hs: seq<H.NativeVal>, a: Value, b: Value)
    ensures hs + [H.NativeOf(a)] + [H.NativeOf(b)] == hs + [H.NativeOf(a), H.NativeOf(b)]
    ensures |hs + [H.NativeOf(a)]| == |hs| + 1
  {
  }

  /** From the first byte of the compiled code the runtime comes to the byte behind it with the predicate's value on
    * top of its stack; it fails exactly when the predicate has no value or the stack has no room. */
  lemma {:induction false} CodeEnforced(hEnv: H.Env, rEnv: R.Env, caller: Doc, record: Doc, e: Expr, code: Bytes, ip: nat,
                                        hs: seq<H.NativeVal>, rs: seq<R.Val>)
    requires Linked(hEnv, rEnv, caller, record) && SameStack(hEnv.fl, rEnv.input, hs, rs) && |hs| <= MAX_STACK
    requires LowerExpr(hEnv.fl, e) == Some(code) && CodeAt(hEnv.ir, ip, code)
    requires Reads(hEnv.fl, e, hEnv.caller, hEnv.record)
    ensures R.WellPlaced(rEnv)
    ensures Yields(rEnv, ip, ip + |code|, hs, rs,
                   Fitting(|hs|, Depth(e), Meaning(hEnv.fl, e, hEnv.caller, hEnv.record)))
    decreases e, 2
  {
    hide Linked, CodeAt, Yields, SameStack, LowerLiteral, LowerPath, LiteralMeans, PathMeans, Applied, Opcode, CallOpcode,
      Keys, At, Plays, SameTenant, Seeks, NoText, RolesShared, Printer.PathText, Pushes, H.NativeOf;
    SameCode(hEnv, rEnv, caller, record);
    match e {
      case Lit(lit) =>
        LiteralPushes(hEnv, rEnv, caller, record, lit, code, ip, hs, rs);
        LeafYields(rEnv, ip, ip + |code|, hs, rs, LiteralMeans(hEnv.fl, lit).value);
      case Path(segs) =>
        PathPushes(hEnv, rEnv, caller, record, segs, code, ip, hs, rs);
        LeafYields(rEnv, ip, ip + |code|, hs, rs, PathMeans(segs, hEnv.caller, hEnv.record).value);
      case Unary(_, arg) =>
        var inner := LowerExpr(hEnv.fl, arg).value;
        CodeSplits(hEnv.ir, ip, inner, [NOT]);
        CodeEnforced(hEnv, rEnv, caller, record, arg, inner, ip, hs, rs);
        NotYields(hEnv, rEnv, caller, record, arg, ip, ip + |inner|, hs, rs);
      case Binary(_, _, _) => BinaryEnforced(hEnv, rEnv, caller, record, e, code, ip, hs, rs);
      case Call(_, _) => CallEnforced(hEnv, rEnv, caller, record, e, code, ip, hs, rs);
    }
  }

  /** The first operand, and the second on top of it if the first has a value and fits. */
  lemma {:induction false} OperandsEnforced(hEnv: H.Env, rEnv: R.Env, caller: Doc, record: Doc, e: Expr, l: Expr, r: Expr,
                                            a: Bytes, b: Bytes, ip: nat, hs: seq<H.NativeVal>, rs: seq<R.Val>)
    returns (rs': seq<R.Val>)
    requires (e.Binary? && l == e.left && r == e.right) || (e.Call? && e.args == [l, r])
    requires Linked(hEnv, rEnv, caller, record) && SameStack(hEnv.fl, rEnv.input, hs, rs) && |hs| <= MAX_STACK
    requires LowerExpr(hEnv.fl, l) == Some(a) && CodeAt(hEnv.ir, ip, a) && Reads(hEnv.fl, l, hEnv.caller, hEnv.record)
    requires LowerExpr(hEnv.fl, r) == Some(b) && CodeAt(hEnv.ir, ip + |a|, b)
    requires Reads(hEnv.fl, r, hEnv.caller, hEnv.record)
    ensures R.WellPlaced(rEnv)
    ensures
      var x := Meaning(hEnv.fl, l, hEnv.caller, hEnv.record);
      if x.Some? && |hs| + Depth(l) <= MAX_STACK then
        && R.RunFrom(rEnv, R.Machine(ip, rs)) == R.RunFrom(rEnv, R.Machine(ip + |a|, rs'))
        && Yields(rEnv, ip + |a|, ip + |a| + |b|, hs + [H.NativeOf(x.value)], rs',
                  Fitting(|hs| + 1, Depth(r), Meaning(hEnv.fl, r, hEnv.caller, hEnv.record)))
      else
        forall end: nat :: Yields(rEnv, ip, end, hs, rs, None)
    decreases e, 0
  {
    hide Linked, CodeAt, Yields, SameStack, LowerExpr, Meaning, Reads, H.NativeOf, R.RunFrom;
    SameCode(hEnv, rEnv, caller, record);
    assert e.Call? ==> l == e.args[0] && r == e.args[1];
    CodeEnforced(hEnv, rEnv, caller, record, l, a, ip, hs, rs);
    DepthPositive(l);
    var x := Meaning(hEnv.fl, l, hEnv.caller, hEnv.record);
    if x.Some? && |hs| + Depth(l) <= MAX_STACK {
      rs' := StackOf(rEnv, ip, ip + |a|, hs, rs, x.value);
      CodeEnforced(hEnv, rEnv, caller, record, r, b, ip + |a|, hs + [H.NativeOf(x.value)], rs');
    } else {
      rs' := rs;
      FirstFails(rEnv, ip, ip + |a|, hs, rs, Depth(l), x);
    }
  }

  lemma {:induction false} BinaryEnforced(hEnv: H.Env, rEnv: R.Env, caller: Doc, record: Doc, e: Expr, code: Bytes, ip: nat,
                                          hs: seq<H.NativeVal>, rs: seq<R.Val>)
    requires Linked(hEnv, rEnv, caller, record) && SameStack(hEnv.fl, rEnv.input, hs, rs) && |hs| <= MAX_STACK
    requires LowerExpr(hEnv.fl, e) == Some(code) && CodeAt(hEnv.ir, ip, code) && e.Binary?
    requires Reads(hEnv.fl, e, hEnv.caller, hEnv.record)
    ensures R.WellPlaced(rEnv)
    ensures Yields(rEnv, ip, ip + |code|, hs, rs,
                   Fitting(|hs|, Depth(e), Meaning(hEnv.fl, e, hEnv.caller, hEnv.record)))
    decreases e, 1
  {
    hide Linked, CodeAt, Yields, SameStack, Applied, Opcode, Seeks, H.NativeOf, R.RunFrom;
    var l, r := e.left, e.right;
    var a, b, tag := LowerExpr(hEnv.fl, l).value, LowerExpr(hEnv.fl, r).value, Opcode(e.bop).value;
    CodeSplits(hEnv.ir, ip, a + b, [tag]);
    CodeSplits(hEnv.ir, ip, a, b);
    var rs' := OperandsEnforced(hEnv, rEnv, caller, record, e, l, r, a, b, ip, hs, rs);
    if Meaning(hEnv.fl, l, hEnv.caller, hEnv.record).Some? && |hs| + Depth(l) <= MAX_STACK {
      BinaryYields(hEnv, rEnv, caller, record, e.bop, l, r, tag, ip, ip + |a|, ip + |a| + |b|, hs, rs, rs');
    }
  }

  lemma {:induction false} CallEnforced(hEnv: H.Env, rEnv: R.Env, caller: Doc, record: Doc, e: Expr, code: Bytes, ip: nat,
                                        hs: seq<H.NativeVal>, rs: seq<R.Val>)
    requires Linked(hEnv, rEnv, caller, record) && SameStack(hEnv.fl, rEnv.input, hs, rs) && |hs| <= MAX_STACK
    requires LowerExpr(hEnv.fl, e) == Some(code) && CodeAt(hEnv.ir, ip, code) && e.Call?
    requires Reads(hEnv.fl, e, hEnv.caller, hEnv.record)
    ensures R.WellPlaced(rEnv)
    ensures Yields(rEnv, ip, ip + |code|, hs, rs,
                   Fitting(|hs|, Depth(e), Meaning(hEnv.fl, e, hEnv.caller, hEnv.record)))
    decreases e, 1
  {
    hide Linked, CodeAt, Yields, SameStack, CallOpcode, Plays, SameTenant, NoText, RolesShared, Printer.PathText, H.NativeOf,
      R.RunFrom;
    var l, r := e.args[0], e.args[1];
    var a, b, tag := LowerExpr(hEnv.fl, l).value, LowerExpr(hEnv.fl, r).value, CallOpcode(e.path).value;
    CodeSplits(hEnv.ir, ip, a + b, [tag]);
    CodeSplits(hEnv.ir, ip, a, b);
    var rs' := OperandsEnforced(hEnv, rEnv, caller, record, e, l, r, a, b, ip, hs, rs);
    if Meaning(hEnv.fl, l, hEnv.caller, hEnv.record).Some? && |hs| + Depth(l) <= MAX_STACK {
      CallYields(hEnv, rEnv, caller, record, e.path, e.args, tag, ip, ip + |a|, ip + |a| + |b|, hs, rs, rs');
    }
  }

  lemma FirstFails(rEnv: R.Env, ip: nat, mid: nat, hs: seq<H.NativeVal>, rs: seq<R.Val>, depth: nat, x: Option<Value>)
    requires R.WellPlaced(rEnv) && Yields(rEnv, ip, mid, hs, rs, Fitting(|hs|, depth, x))
    requires x.None? || |hs| + depth > MAX_STACK
    ensures forall end: nat :: Yields(rEnv, ip, end, hs, rs, None)
  {
    hide R.RunFrom;
  }

  lemma NotYields(hEnv: H.Env, rEnv: R.Env, caller: Doc, record: Doc, arg: Expr, ip: nat, mid: nat,
                  hs: seq<H.NativeVal>, rs: seq<R.Val>)
    requires Linked(hEnv, rEnv, caller, record) && R.WellPlaced(rEnv)
    requires Yields(rEnv, ip, mid, hs, rs,
                    Fitting(|hs|, Depth(arg), Meaning(hEnv.fl, arg, hEnv.caller, hEnv.record)))
    requires CodeAt(hEnv.ir, mid, [NOT])
    ensures
      var e := Unary(UnaryOp.Not, arg);
      Yields(rEnv, ip, mid + 1, hs, rs, Fitting(|hs|, Depth(e), Meaning(hEnv.fl, e, hEnv.caller, hEnv.record)))
  {
    hide Linked, CodeAt, Yields, SameStack, H.StepAt, Shared, StepGives, H.NativeOf;
    SameCode(hEnv, rEnv, caller, record);
    MeaningPlain(hEnv.fl, arg, hEnv.caller, hEnv.record);
    DepthPositive(arg);
    var m := Meaning(hEnv.fl, arg, hEnv.caller, hEnv.record);
    if m.Some? && |hs| + Depth(arg) <= MAX_STACK {
      var x := m.value;
      var rs' := StackOf(rEnv, ip, mid, hs, rs, x);
      var truth := if x.Bool? then Some(!x.b) else None;
      NotStep(hEnv, mid, hs, x);
      NotShared(hEnv, mid, hs + [H.NativeOf(x)]);
      StepYields(hEnv, rEnv, caller, record, mid, hs, hs + [H.NativeOf(x)], rs', truth);
      YieldsOn(rEnv, ip, mid, mid + 1, hs, rs, rs', if truth.Some? then Some(Bool(truth.value)) else None);
    } else {
      FirstFails(rEnv, ip, mid, hs, rs, Depth(arg), m);
    }
  }

  /** The second operand is there as well; the instruction follows. */
  lemma SecondYields(hEnv: H.Env, rEnv: R.Env, caller: Doc, record: Doc, ip: nat, mid: nat, end: nat,
                     hs: seq<H.NativeVal>, rs: seq<R.Val>, rs': seq<R.Val>, a: Value, b: Value, truth: Option<bool>)
    requires Linked(hEnv, rEnv, caller, record) && R.WellPlaced(rEnv)
    requires R.RunFrom(rEnv, R.Machine(ip, rs)) == R.RunFrom(rEnv, R.Machine(mid, rs'))
    requires Yields(rEnv, mid, end, hs + [H.NativeOf(a)], rs', Some(b))
    requires Shared(hEnv, H.State(end, hs + [H.NativeOf(a), H.NativeOf(b)]))
    requires StepGives(H.StepAt(hEnv, H.State(end, hs + [H.NativeOf(a), H.NativeOf(b)])), end + 1, hs, truth)
    ensures Yields(rEnv, ip, end + 1, hs, rs, if truth.Some? then Some(Bool(truth.value)) else None)
  {
    hide Linked, Yields, SameStack, H.StepAt, R.RunFrom, Shared, StepGives, H.NativeOf;
    SameCode(hEnv, rEnv, caller, record);
    var rs'' := StackOf(rEnv, mid, end, hs + [H.NativeOf(a)], rs', b);
    StackRoom(hEnv.fl, rEnv.input, hs, a, b);
    StepYields(hEnv, rEnv, caller, record, end, hs, hs + [H.NativeOf(a), H.NativeOf(b)], rs'', truth);
    YieldsOn(rEnv, ip, end, end + 1, hs, rs, rs'', if truth.Some? then Some(Bool(truth.value)) else None);
  }

  lemma BinaryYields(hEnv: H.Env, rEnv: R.Env, caller: Doc, record: Doc, op: BinaryOp, l: Expr, r: Expr, tag: byte, ip: nat,
                     mid: nat, end: nat, hs: seq<H.NativeVal>, rs: seq<R.Val>, rs': seq<R.Val>)
    requires Linked(hEnv, rEnv, caller, record) && R.WellPlaced(rEnv)
    requires Opcode(op) == Some(tag) && CodeAt(hEnv.ir, end, [tag])
    requires Meaning(hEnv.fl, l, hEnv.caller, hEnv.record).Some? && |hs| + Depth(l) <= MAX_STACK
    requires R.RunFrom(rEnv, R.Machine(ip, rs)) == R.RunFrom(rEnv, R.Machine(mid, rs'))
    requires Yields(rEnv, mid, end, hs + [H.NativeOf(Meaning(hEnv.fl, l, hEnv.caller, hEnv.record).value)], rs',
                    Fitting(|hs| + 1, Depth(r), Meaning(hEnv.fl, r, hEnv.caller, hEnv.record)))
    requires op == In || op == NotIn ==>
               Seeks(hEnv.fl, Meaning(hEnv.fl, l, hEnv.caller, hEnv.record), Meaning(hEnv.fl, r, hEnv.caller, hEnv.record))
    ensures
      var e := Binary(op, l, r);
      Yields(rEnv, ip, end + 1, hs, rs, Fitting(|hs|, Depth(e), Meaning(hEnv.fl, e, hEnv.caller, hEnv.record)))
  {
    hide Linked, CodeAt, Yields, H.StepAt, R.RunFrom, Shared, StepGives, H.NativeOf, Applied, Opcode, Seeks;
    SameCode(hEnv, rEnv, caller, record);
    MeaningPlain(hEnv.fl, l, hEnv.caller, hEnv.record);
    MeaningPlain(hEnv.fl, r, hEnv.caller, hEnv.record);
    DepthPositive(r);
    var a, m := Meaning(hEnv.fl, l, hEnv.caller, hEnv.record).value, Meaning(hEnv.fl, r, hEnv.caller, hEnv.record);
    if m.Some? && |hs| + 1 + Depth(r) <= MAX_STACK {
      var truth := Applied(hEnv.fl, op, a, m.value);
      BinaryStep(hEnv, op, tag, end, hs, a, m.value);
      BinaryShared(hEnv, op, tag, end, hs, a, m.value);
      SecondYields(hEnv, rEnv, caller, record, ip, mid, end, hs, rs, rs', a, m.value, truth);
    } else {
      SecondFails(rEnv, ip, mid, end, hs, hs + [H.NativeOf(a)], rs, rs', Depth(r), m);
    }
  }

  lemma SecondFails(rEnv: R.Env, ip: nat, mid: nat, end: nat, hs: seq<H.NativeVal>, hs': seq<H.NativeVal>,
                    rs: seq<R.Val>, rs': seq<R.Val>, depth: nat, m: Option<Value>)
    requires R.WellPlaced(rEnv) && R.RunFrom(rEnv, R.Machine(ip, rs)) == R.RunFrom(rEnv, R.Machine(mid, rs'))
    requires Yields(rEnv, mid, end, hs', rs', Fitting(|hs| + 1, depth, m))
    requires m.None? || |hs| + 1 + depth > MAX_STACK
    ensures forall e: nat :: Yields(rEnv, ip, e, hs, rs, None)
  {
    hide R.RunFrom, SameStack;
  }

  lemma CallYields(hEnv: H.Env, rEnv: R.Env, caller: Doc, record: Doc, path: seq<string>, args: seq<Expr>, tag: byte, ip: nat,
                   mid: nat, end: nat, hs: seq<H.NativeVal>, rs: seq<R.Val>, rs': seq<R.Val>)
    requires Linked(hEnv, rEnv, caller, record) && R.WellPlaced(rEnv) && |args| == 2
    requires CallOpcode(path) == Some(tag) && CodeAt(hEnv.ir, end, [tag])
    requires Meaning(hEnv.fl, args[0], hEnv.caller, hEnv.record).Some? && |hs| + Depth(args[0]) <= MAX_STACK
    requires R.RunFrom(rEnv, R.Machine(ip, rs)) == R.RunFrom(rEnv, R.Machine(mid, rs'))
    requires Yields(rEnv, mid, end, hs + [H.NativeOf(Meaning(hEnv.fl, args[0], hEnv.caller, hEnv.record).value)], rs',
                    Fitting(|hs| + 1, Depth(args[1]), Meaning(hEnv.fl, args[1], hEnv.caller, hEnv.record)))
    requires Printer.PathText(path) == "has_role" ==>
               NoText(Meaning(hEnv.fl, args[0], hEnv.caller, hEnv.record)) && RolesShared(hEnv.caller)
    ensures
      var e := Call(path, args);
      Yields(rEnv, ip, end + 1, hs, rs, Fitting(|hs|, Depth(e), Meaning(hEnv.fl, e, hEnv.caller, hEnv.record)))
  {
    hide Linked, CodeAt, Yields, H.StepAt, R.RunFrom, Shared, StepGives, H.NativeOf, CallOpcode, Plays, SameTenant, NoText,
      RolesShared, Printer.PathText;
    SameCode(hEnv, rEnv, caller, record);
    MeaningPlain(hEnv.fl, args[0], hEnv.caller, hEnv.record);
    MeaningPlain(hEnv.fl, args[1], hEnv.caller, hEnv.record);
    DepthPositive(args[1]);
    var a, m := Meaning(hEnv.fl, args[0], hEnv.caller, hEnv.record).value, Meaning(hEnv.fl, args[1], hEnv.caller, hEnv.record);
    if m.Some? && |hs| + 1 + Depth(args[1]) <= MAX_STACK {
      var truth := CallApplied(path, hEnv.caller, hEnv.record, m.value);
      CallStep(hEnv, path, tag, end, hs, a, m.value);
      CallShared(hEnv, path, tag, end, hs, a, m.value);
      SecondYields(hEnv, rEnv, caller, record, ip, mid, end, hs, rs, rs', a, m.value, truth);
    } else {
      SecondFails(rEnv, ip, mid, end, hs, hs + [H.NativeOf(a)], rs, rs', Depth(args[1]), m);
    }
  }
}
