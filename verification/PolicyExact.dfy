/** Exactly when the two interpreters keep step: from equal stacks, the condition under which both fail, both
  * halt alike, or both go on with equal stacks, opcode by opcode and over whole runs. */
module PolicyExact {
  import opened Wrappers
  import opened JsonText
  import opened JsonValue
  import opened JsonReader
  import opened JsonReaderProofs
  import opened PolicyIr
  import opened PolicyRefinement
  import opened PolicySimulation
  import H = PolicyHost
  import R = PolicyRuntime

  /** Every numeral has a float, and that of a negative zero truncates to zero. */
  ghost predicate TextFloats(fl: Floats) {
    forall num: Numeral {:trigger PrintNumeral(num)} ::
      && fl.parse(PrintNumeral(num)).Some?
      && (num.negative && num.frac == [] && num.exp == [] && IntegerValue(num) == 0 ==>
            fl.truncate(fl.parse(PrintNumeral(num)).value) == 0)
  }

  predicate AllUtf8(segs: seq<Bytes>) {
    forall s | s in segs :: ValidUtf8(s)
  }

  // ----- Paths

  /** The host fails on this operand: a segment it reads is cut off or not UTF-8. */
  predicate Trips(ir: Bytes, ip: nat, n: nat, cursor: Value)
    decreases n
  {
    n > 0 &&
    match BlobAt(ir, ip)
    case None => true
    case Some((seg, next)) =>
      !ValidUtf8(seg) || (Get(cursor, seg).Some? && Trips(ir, next, n - 1, Get(cursor, seg).value))
  }

  lemma {:induction false} WalkFailsExactly(ir: Bytes, ip: nat, n: nat, cursor: Value)
    ensures H.Walk(ir, ip, n, cursor).Failed? <==> Trips(ir, ip, n, cursor)
    decreases n
  {
    hide ValidUtf8, BlobAt, Get;
    if n > 0 && BlobAt(ir, ip).Some? {
      var (seg, next) := BlobAt(ir, ip).value;
      if Get(cursor, seg).Some? {
        WalkFailsExactly(ir, next, n - 1, Get(cursor, seg).value);
      }
    }
  }

  /** Nine segments are one too many for the runtime, whatever they are. */
  lemma {:induction false} SegmentsCapped(ir: Bytes, ip: nat, n: nat, sofar: seq<Bytes>)
    requires |sofar| <= MAX_SEGMENTS < |sofar| + n
    ensures R.Segments(ir, ip, n, sofar).None?
    decreases n
  {
    hide BlobAt;
    if BlobAt(ir, ip).Some? && |sofar| < MAX_SEGMENTS {
      var (seg, next) := BlobAt(ir, ip).value;
      SegmentsCapped(ir, next, n - 1, sofar + [seg]);
    }
  }

  /** Where the runtime reads a whole path, the host reads it whole too exactly when every segment is UTF-8
    * and only the last key may be missing; it then ends on the value of that path. */
  lemma {:induction false} WalksExactly(ir: Bytes, ip: nat, n: nat, cursor: Value, sofar: seq<Bytes>)
    requires R.Segments(ir, ip, n, sofar).Some?
    ensures
      var (all, next) := R.Segments(ir, ip, n, sofar).value;
      var tail := all[|sofar|..];
      var w := H.Walk(ir, ip, n, cursor);
      && (w.Done? && w.value.1 == next <==> AllUtf8(tail) && OnlyLastMissing(cursor, tail))
      && (w.Done? && w.value.1 == next ==> w.value.0 == Follow(cursor, tail))
    decreases n
  {
    hide ValidUtf8, BlobAt, Get;
    SegmentsExtend(ir, ip, n, sofar);
    if n == 0 {
      NoSegments(R.Segments(ir, ip, n, sofar).value.0[|sofar|..]);
    } else {
      var (seg, next) := BlobAt(ir, ip).value;
      var deeper := sofar + [seg];
      SegmentsExtend(ir, next, n - 1, deeper);
      var all := R.Segments(ir, ip, n, sofar).value.0;
      var tail := all[|sofar|..];
      assert all[|sofar|] == all[..|deeper|][|sofar|] == seg;
      assert tail[0] == seg && tail[1..] == all[|deeper|..];
      Utf8First(tail);
      if Get(cursor, seg).Some? {
        WalksExactly(ir, next, n - 1, Get(cursor, seg).value, deeper);
      } else {
        assert n == 1 ==> R.Segments(ir, next, 0, deeper) == Some((deeper, next));
        assert n == 1 ==> tail[1..] == [];
      }
    }
  }

  lemma NoSegments(segs: seq<Bytes>)
    requires segs == []
    ensures AllUtf8(segs)
  {
  }

  lemma Utf8First(segs: seq<Bytes>)
    requires segs != []
    ensures AllUtf8(segs) <==> ValidUtf8(segs[0]) && AllUtf8(segs[1..])
  {
    hide ValidUtf8;
    assert segs == [segs[0]] + segs[1..];
  }

  lemma ClassifiesFloat(fl: Floats, input: Bytes, p: nat, num: Numeral)
    requires Located(input, p, DNumber(num)) && TextFloats(fl)
    ensures R.Classify(fl, input, p).Ok? && R.Classify(fl, input, p).value.RI64?
  {
    NoLeadingBlank(input, p, DNumber(num));
    hide SkipWs, R.AsF64, R.ParseI64, R.AsI64;
    NumeralBytes(num);
    ReadsNumeral(fl, input, p, num);
    assert fl.parse(PrintNumeral(num)).Some?;
  }

  /** What the runtime loads is what the host loads, unless that is a float. */
  lemma LoadsExactly(env: R.Env, at: nat, d: Doc, segs: seq<Bytes>)
    requires Located(env.input, at, d) && Faithful(d) && IsObjectDoc(d) && at <= |env.input| && TextFloats(env.fl)
    ensures
      var v := Follow(Tree(env.fl, d), segs);
      var l := R.LoadedValue(env, Some(at), segs);
      l.Ok? && (SameValue(env.fl, env.input, v, l.value) <==> !IsFloat(v))
  {
    hide Located, Faithful, Tree, R.Classify, R.Resolve, TextFloats;
    if !IsFloat(Follow(Tree(env.fl, d), segs)) {
      SameLoaded(env, at, d, segs);
    } else if segs == [] {
      ContainerTrees(env.fl, d);
    } else {
      var e := ResolvesPath(env.fl, env.input, at, d, segs);
      var found := R.Resolve(env.input, at, segs);
      if found.value.Some? {
        FloatIsNumber(env.fl, e);
        ClassifiesFloat(env.fl, env.input, found.value.value, e.num);
      }
    }
  }

  lemma FloatIsNumber(fl: Floats, e: Doc)
    requires IsFloat(H.NativeOf(Tree(fl, e)))
    ensures e.DNumber?
  {
  }

  /** When a load with `depth` values on the stack leads both machines to the same. */
  predicate LoadExact(ir: Bytes, ip: nat, root: Value, depth: nat) {
    depth >= MAX_STACK ||
    match ByteAtIp(ir, ip)
    case None => true
    case Some((n, start)) =>
      match R.Segments(ir, start, n, [])
      case None => Trips(ir, start, n, root)
      case Some((segs, _)) => AllUtf8(segs) && OnlyLastMissing(root, segs) && !IsFloat(Follow(root, segs))
  }

  lemma SamePushExactly(fl: Floats, input: Bytes, ip: nat, jp: nat, hs: seq<H.NativeVal>, rs: seq<R.Val>,
                        hv: H.NativeVal, rv: R.Val)
    requires SameStack(fl, input, hs, rs) && |hs| < MAX_STACK
    ensures SameStep(fl, input, H.Push(ip, hs, hv), R.Push(jp, rs, rv)) <==>
            ip == jp && SameValue(fl, input, hv, rv)
  {
    hide SameValue;
    var hn, rn := hs + [hv], rs + [rv];
    assert hn[|hs|] == hv && rn[|hs|] == rv;
    if ip == jp && SameValue(fl, input, hv, rv) {
      SamePush(fl, input, ip, hs, rs, hv, rv);
    }
  }

  /** A load agrees exactly so: the runtime's nine-segment refusal, a segment that is not UTF-8, a missing
    * key before the last and a float value each part the machines. */
  lemma LoadExactly(env: R.Env, at: nat, d: Doc, h: H.State, r: R.Machine)
    requires Located(env.input, at, d) && Faithful(d) && IsObjectDoc(d) && at <= |env.input| && TextFloats(env.fl)
    requires h.ip == r.ip && SameStack(env.fl, env.input, h.stack, r.stack)
    ensures SameStep(env.fl, env.input, H.Load(env.ir, Tree(env.fl, d), h), R.Load(env, Some(at), r)) <==>
            LoadExact(env.ir, h.ip, Tree(env.fl, d), |h.stack|)
  {
    hide Located, Faithful, Tree, R.LoadedValue, SameStack, R.Segments, H.Walk, SameValue, Follow, TextFloats, Trips,
      AllUtf8, OnlyLastMissing, H.Push, R.Push;
    SameLength(env.fl, env.input, h.stack, r.stack);
    SameFaults(env.fl, env.input);
    FullStack(env.fl, h, r);
    if |h.stack| < MAX_STACK && ByteAtIp(env.ir, h.ip).Some? {
      var (n, start) := ByteAtIp(env.ir, h.ip).value;
      var root := Tree(env.fl, d);
      WalkFailsExactly(env.ir, start, n, root);
      if R.Segments(env.ir, start, n, []).Some? {
        var (segs, ip) := R.Segments(env.ir, start, n, []).value;
        assert segs[0..] == segs;
        WalksExactly(env.ir, start, n, root, []);
        LoadsExactly(env, at, d, segs);
        var v := R.LoadedValue(env, Some(at), segs).value;
        RoomToPush(ip, r, v);
        var w := H.Walk(env.ir, start, n, root);
        if w.Done? {
          SamePushExactly(env.fl, env.input, w.value.1, ip, h.stack, r.stack, w.value.0, v);
        }
      } else {
        GoesOn(env, h, start, n, root);
      }
    }
  }

  lemma RoomToPush(ip: nat, r: R.Machine, v: R.Val)
    requires |r.stack| < MAX_STACK
    ensures R.Push(ip, r.stack, v).Go?
  {
  }

  lemma FullStack(fl: Floats, h: H.State, r: R.Machine)
    requires |h.stack| == |r.stack|
    ensures |r.stack| >= MAX_STACK ==> forall ip, v :: R.Push(ip, r.stack, v) == Fault(R.Unit)
  {
  }

  lemma GoesOn(env: R.Env, h: H.State, start: nat, n: nat, root: Value)
    requires |h.stack| < MAX_STACK
    ensures H.Walk(env.ir, start, n, root).Done? ==>
              H.Push(H.Walk(env.ir, start, n, root).value.1, h.stack, H.Walk(env.ir, start, n, root).value.0).Go?
  {
  }

  /** More than eight segments part the machines unless the host fails as well. */
  lemma CapParts(env: R.Env, at: nat, d: Doc, h: H.State, r: R.Machine, n: byte, start: nat)
    requires Located(env.input, at, d) && Faithful(d) && IsObjectDoc(d) && at <= |env.input| && TextFloats(env.fl)
    requires h.ip == r.ip && SameStack(env.fl, env.input, h.stack, r.stack) && |h.stack| < MAX_STACK
    requires ByteAtIp(env.ir, h.ip) == Some((n, start)) && n as int > MAX_SEGMENTS
    ensures SameStep(env.fl, env.input, H.Load(env.ir, Tree(env.fl, d), h), R.Load(env, Some(at), r)) <==>
            Trips(env.ir, start, n, Tree(env.fl, d))
  {
    hide Located, Faithful, Tree, SameStack, SameStep, TextFloats, Trips, H.Load, R.Load;
    SegmentsCapped(env.ir, start, n, []);
    LoadExactly(env, at, d, h, r);
  }

  // ----- Text literals

  /** A text literal parts the machines exactly when it is not UTF-8 and there is room for it. */
  lemma LiteralExactly(fl: Floats, input: Bytes, ir: Bytes, op: byte, h: H.State, r: R.Machine)
    requires h.ip == r.ip && SameStack(fl, input, h.stack, r.stack)
    ensures SameStep(fl, input, H.Literal(ir, op, h), R.Literal(ir, op, r)) <==>
            (op == LIT_STR && BlobAt(ir, h.ip).Some? && |h.stack| < MAX_STACK ==> ValidUtf8(BlobAt(ir, h.ip).value.0))
  {
    hide ValidUtf8, SameStack, ToI64, ToF64, BlobAt, SameValue;
    SameLength(fl, input, h.stack, r.stack);
    if op == LIT_STR && BlobAt(ir, h.ip).Some? && !ValidUtf8(BlobAt(ir, h.ip).value.0) {
    } else {
      SameLiteral(fl, input, ir, op, h, r);
    }
  }

  // ----- Membership

  predicate TruncatesTo(fl: Floats, v: Value, n: int) {
    v.Number? && (if v.n.I64? then v.n.n == n else fl.truncate(v.n.f) == n)
  }

  /** What `IN` on the bytes finds, told of the tree: floats are truncated before they are compared, and
    * null and float needles are never found. */
  predicate RuntimeFinds(fl: Floats, items: seq<Value>, needle: H.NativeVal) {
    match needle
    case VStr(s) => String(s) in items
    case VBool(b) => Bool(b) in items
    case VI64(n) => exists v | v in items :: TruncatesTo(fl, v, n)
    case _ => false
  }

  lemma OneItem(fl: Floats, v: Value, needle: H.NativeVal)
    ensures RuntimeFinds(fl, [v], needle) <==>
            match needle
            case VStr(s) => v == String(s)
            case VBool(b) => v == Bool(b)
            case VI64(n) => TruncatesTo(fl, v, n)
            case _ => false
  {
    hide TruncatesTo;
    assert [v][0] == v;
  }

  lemma ElementFound(fl: Floats, input: Bytes, hn: H.NativeVal, rn: R.Val, e: Doc)
    requires SameValue(fl, input, hn, rn) && Faithful(e) && TextFloats(fl)
    ensures DocIs(fl, rn, e) <==> RuntimeFinds(fl, [Tree(fl, e)], hn)
  {
    hide H.EqNative, Located, RuntimeFinds;
    OneItem(fl, Tree(fl, e), hn);
    if e.DNumber? {
      hide RuntimeNumber, TextFloats;
      NumberFound(fl, e.num);
    }
  }

  lemma NumberFound(fl: Floats, num: Numeral)
    requires TextFloats(fl)
    ensures RuntimeNumber(fl, num).Some?
    ensures forall n :: RuntimeNumber(fl, num).value == n <==> TruncatesTo(fl, Number(NumberOf(fl, num)), n)
  {
    assert fl.parse(PrintNumeral(num)).Some?;
    if num.frac == [] && num.exp == [] {
      ParsesIntegers(num);
    } else {
      RefusesNonIntegers(num);
    }
  }

  lemma FindsInTrees(fl: Floats, docs: seq<Doc>, items: seq<Value>, hn: H.NativeVal, rn: R.Val)
    requires forall e | e in docs :: Tree(fl, e) in items && (DocIs(fl, rn, e) <==> RuntimeFinds(fl, [Tree(fl, e)], hn))
    requires forall v | v in items :: exists e :: e in docs && Tree(fl, e) == v
    ensures AnyDoc(docs, (e: Doc) => DocIs(fl, rn, e)) <==> RuntimeFinds(fl, items, hn)
  {
    hide DocIs, Tree, TruncatesTo;
    if AnyDoc(docs, (e: Doc) => DocIs(fl, rn, e)) {
      var e :| e in docs && DocIs(fl, rn, e);
      var v := Tree(fl, e);
      assert v in items && RuntimeFinds(fl, [v], hn);
      OneFinds(fl, v, items, hn);
    }
    if RuntimeFinds(fl, items, hn) {
      var v := FoundOne(fl, items, hn);
      var e :| e in docs && Tree(fl, e) == v;
      assert DocIs(fl, rn, e);
    }
  }

  lemma OneFinds(fl: Floats, v: Value, items: seq<Value>, hn: H.NativeVal)
    requires v in items && RuntimeFinds(fl, [v], hn)
    ensures RuntimeFinds(fl, items, hn)
  {
    hide TruncatesTo;
  }

  lemma FoundOne(fl: Floats, items: seq<Value>, hn: H.NativeVal) returns (v: Value)
    requires RuntimeFinds(fl, items, hn)
    ensures v in items && RuntimeFinds(fl, [v], hn)
  {
    hide TruncatesTo;
    match hn {
      case VStr(s) => v := String(s);
      case VBool(b) => v := Bool(b);
      case VI64(n) => v :| v in items && TruncatesTo(fl, v, n);
    }
    assert [v][0] == v;
  }

  /** The visitor over the printed array answers what `RuntimeFinds` says of the tree. */
  lemma FindsExactly(fl: Floats, input: Bytes, at: nat, d: Doc, items: seq<Value>, hn: H.NativeVal, rn: R.Val)
    requires IsArrayDoc(d) && Faithful(d) && Located(input, at, d) && Tree(fl, d) == Array(items)
    requires SameValue(fl, input, hn, rn) && TextFloats(fl)
    ensures AnyElement(input, at, (p: nat) => R.ElementIs(fl, input, rn, p)) == Ok(RuntimeFinds(fl, items, hn))
  {
    hide R.ElementIs, Located, Faithful, SameValue, DocIs, H.EqNative, H.NativeOf, TextFloats, RuntimeFinds;
    ElementsAreTrees(fl, d, items);
    var hit := (p: nat) => R.ElementIs(fl, input, rn, p);
    var test := (e: Doc) => DocIs(fl, rn, e);
    assert Answers(input, Elements(d), hit, test) by {
      forall p: nat, e | e in Elements(d) && Located(input, p, e) ensures hit(p) == test(e) {
        VisitorSees(fl, input, rn, p, e);
      }
    }
    LocatedHolds(input, at, d);
    SearchesArray(input, at, d, hit, test);
    forall e | e in Elements(d) ensures DocIs(fl, rn, e) <==> RuntimeFinds(fl, [Tree(fl, e)], hn) {
      ElementFound(fl, input, hn, rn, e);
    }
    FindsInTrees(fl, Elements(d), items, hn, rn);
  }

  /** When `IN` answers alike. */
  predicate InExact(fl: Floats, items: seq<Value>, needle: H.NativeVal) {
    RuntimeFinds(fl, items, needle) <==> H.Contains(fl, items, needle)
  }

  /** Text and truth values always; null where the array has no null and no object; a float where it equals
    * no element; an integer that stands in the array, and otherwise where truncating the array's floats
    * finds it exactly when comparing them as floats does. */
  lemma InExactCases(fl: Floats, items: seq<Value>, needle: H.NativeVal)
    ensures needle.VStr? || needle.VBool? ==> InExact(fl, items, needle)
    ensures needle.VNull? ==> (InExact(fl, items, needle) <==> forall v | v in items :: !v.Null? && !v.Object?)
    ensures needle.VF64? ==> (InExact(fl, items, needle) <==> !H.Contains(fl, items, needle))
    ensures needle.VI64? ==>
              (InExact(fl, items, needle) <==>
                 || Number(I64(needle.n)) in items
                 || ((exists v | v in items :: v.Number? && v.n.F64? && fl.truncate(v.n.f) == needle.n) <==>
                     (exists v | v in items :: v.Number? && v.n.F64? && fl.eq(fl.widen(needle.n), v.n.f))))
  {
    match needle {
      case VStr(s) => TextInExact(fl, items, s);
      case VBool(b) => TruthInExact(fl, items, b);
      case VI64(n) => IntegerInExact(fl, items, n);
      case _ =>
    }
  }

  lemma TextInExact(fl: Floats, items: seq<Value>, s: Bytes)
    ensures InExact(fl, items, H.VStr(s))
  {
    if String(s) in items {
      assert H.EqNative(fl, H.VStr(s), H.NativeOf(String(s)));
    }
  }

  lemma TruthInExact(fl: Floats, items: seq<Value>, b: bool)
    ensures InExact(fl, items, H.VBool(b))
  {
    if Bool(b) in items {
      assert H.EqNative(fl, H.VBool(b), H.NativeOf(Bool(b)));
    }
  }

  lemma IntegerInExact(fl: Floats, items: seq<Value>, n: int)
    ensures InExact(fl, items, H.VI64(n)) <==>
              || Number(I64(n)) in items
              || ((exists v | v in items :: v.Number? && v.n.F64? && fl.truncate(v.n.f) == n) <==>
                  (exists v | v in items :: v.Number? && v.n.F64? && fl.eq(fl.widen(n), v.n.f)))
  {
    var needle := H.VI64(n);
    if Number(I64(n)) in items {
      assert H.EqNative(fl, needle, H.NativeOf(Number(I64(n))));
      assert TruncatesTo(fl, Number(I64(n)), n);
    } else {
      forall v | v in items
        ensures TruncatesTo(fl, v, n) <==> v.Number? && v.n.F64? && fl.truncate(v.n.f) == n
        ensures H.EqNative(fl, needle, H.NativeOf(v)) <==> v.Number? && v.n.F64? && fl.eq(fl.widen(n), v.n.f)
      {
        if v.Number? && v.n.I64? {
          assert v == Number(I64(v.n.n));
        }
      }
    }
  }

  /** The condition under which the instruction at `ip` agrees for these operands. */
  predicate MembershipExact(fl: Floats, st: H.State) {
    |st.stack| >= 2 && H.Top(st, 1).VArray? ==> InExact(fl, H.Top(st, 1).items, H.Top(st, 2))
  }

  lemma BooleansDiffer(fl: Floats, input: Bytes, ip: nat, hs: seq<H.NativeVal>, rs: seq<R.Val>, a: bool, b: bool)
    requires SameStack(fl, input, hs, rs) && |hs| < MAX_STACK
    ensures SameStep(fl, input, H.Push(ip, hs, H.VBool(a)), R.Push(ip, rs, R.RBool(b))) <==> a == b
  {
    hide SameStack, SameStep, H.Push, R.Push;
    SamePushExactly(fl, input, ip, ip, hs, rs, H.VBool(a), R.RBool(b));
  }

  lemma MembershipExactly(fl: Floats, input: Bytes, op: byte, h: H.State, r: R.Machine)
    requires h.ip == r.ip && SameStack(fl, input, h.stack, r.stack) && |h.stack| <= MAX_STACK && TextFloats(fl)
    ensures SameStep(fl, input, H.Membership(fl, op, h), R.Membership(fl, input, op, r)) <==> MembershipExact(fl, h)
  {
    hide SameStack, SameStep, H.Push, R.Push, H.EqNative, R.EqVal, Located, Faithful, Tree, H.Contains,
      AnyElement, R.ElementIs, RuntimeFinds, TextFloats;
    SameLength(fl, input, h.stack, r.stack);
    SameFaults(fl, input);
    if |h.stack| >= 2 {
      SameBelow(fl, input, h, r, 2);
      var hay, needle := H.Top(h, 1), H.Top(h, 2);
      SameOperands(fl, input, hay, R.Top(r, 1), needle, R.Top(r, 2));
      if hay.VArray? {
        var d :| IsArrayDoc(d) && Faithful(d) && Located(input, R.Top(r, 1).at, d) && Tree(fl, d) == Array(hay.items);
        FindsExactly(fl, input, R.Top(r, 1).at, d, hay.items, needle, R.Top(r, 2));
        var a, b := H.Contains(fl, hay.items, needle), RuntimeFinds(fl, hay.items, needle);
        BooleansDiffer(fl, input, h.ip, H.Below(h, 2), R.Below(r, 2), a, b);
        BooleansDiffer(fl, input, h.ip, H.Below(h, 2), R.Below(r, 2), !a, !b);
      }
    }
  }

  // ----- The role call

  /** A text role is looked up alike exactly when the value under it is neither a text nor an array and
    * the caller's roles are absent or an array. */
  predicate RoleCallExact(caller: Value, st: H.State) {
    |st.stack| >= 2 && H.Top(st, 1).VStr? ==>
      !H.Top(st, 2).VStr? && !H.Top(st, 2).VArray? && RolesShared(caller)
  }

  lemma RoleCallExactly(hEnv: H.Env, rEnv: R.Env, caller: Doc, record: Doc, h: H.State, r: R.Machine)
    requires Linked(hEnv, rEnv, caller, record)
    requires h.ip == r.ip && SameStack(hEnv.fl, rEnv.input, h.stack, r.stack) && |h.stack| <= MAX_STACK
    ensures SameStep(hEnv.fl, rEnv.input, H.Call(CALL_HAS_ROLE, hEnv.caller, hEnv.record, h),
                     R.Call(rEnv, CALL_HAS_ROLE, r))
            <==> RoleCallExact(hEnv.caller, h)
  {
    var fl, input := hEnv.fl, rEnv.input;
    hide SameStack, SameValue, R.Push, H.EqNative, R.EqVal, Located, Faithful, Tree, R.HasRole, H.HasRole, R.TenantMatch,
      H.TenantMatch, RolesShared;
    if RoleCallExact(hEnv.caller, h) {
      SameCall(hEnv, rEnv, caller, record, CALL_HAS_ROLE, h, r);
    } else {
      SameLength(fl, input, h.stack, r.stack);
      SameBelow(fl, input, h, r, 2);
      SameOperands(fl, input, H.Top(h, 1), R.Top(r, 1), H.Top(h, 2), R.Top(r, 2));
      SameOperands(fl, input, H.Top(h, 2), R.Top(r, 2), H.Top(h, 1), R.Top(r, 1));
      RolesAgree(fl, input, rEnv.callerAt.value, caller, H.Top(h, 1).s);
    }
  }

  // ----- Every opcode

  /** The exact condition under which the next step agrees. */
  predicate StepExact(env: H.Env, st: H.State) {
    st.ip < |env.ir| ==>
      var op := env.ir[st.ip];
      if op == LIT_STR then
        BlobAt(env.ir, st.ip + 1).Some? && |st.stack| < MAX_STACK ==> ValidUtf8(BlobAt(env.ir, st.ip + 1).value.0)
      else if op == LOAD_CALLER then LoadExact(env.ir, st.ip + 1, env.caller, |st.stack|)
      else if op == LOAD_SELF then LoadExact(env.ir, st.ip + 1, env.record, |st.stack|)
      else if op == IN || op == NOT_IN then MembershipExact(env.fl, st)
      else if op == CALL_HAS_ROLE then RoleCallExact(env.caller, st)
      else true
  }

  /** From equal stacks within the cap, one step of the two machines agrees if and only if the condition
    * for its opcode holds. */
  lemma StepsAgreeExactly(hEnv: H.Env, rEnv: R.Env, caller: Doc, record: Doc, h: H.State, r: R.Machine)
    requires Linked(hEnv, rEnv, caller, record) && TextFloats(hEnv.fl)
    requires h.ip == r.ip && SameStack(hEnv.fl, rEnv.input, h.stack, r.stack) && |h.stack| <= MAX_STACK
    ensures SameStep(hEnv.fl, rEnv.input, H.StepAt(hEnv, h), R.StepAt(rEnv, r)) <==> StepExact(hEnv, h)
  {
    var fl, input, ir := hEnv.fl, rEnv.input, hEnv.ir;
    hide SameStack, SameStep, SameValue, Located, Faithful, Tree, ValidUtf8, LoadExact, MembershipExact, RoleCallExact,
      TextFloats, H.Literal, R.Literal, H.Load, R.Load, H.Comparison, R.Comparison, H.Logic, R.Logic, H.Membership,
      R.Membership, H.Call, R.Call, H.Terminal, R.Terminal, BlobAt;
    SameFaults(fl, input);
    if h.ip < |ir| {
      var op := ir[h.ip];
      var h', r' := H.State(h.ip + 1, h.stack), R.Machine(r.ip + 1, r.stack);
      if LIT_NULL <= op <= LIT_DURATION_SECS {
        LiteralExactly(fl, input, ir, op, h', r');
      } else if op == LOAD_CALLER {
        LoadExactly(rEnv, rEnv.callerAt.value, caller, h', r');
      } else if op == LOAD_SELF {
        LoadExactly(rEnv, rEnv.selfAt.value, record, h', r');
      } else if op == IN || op == NOT_IN {
        SameMembers(fl, h, h');
        MembershipExactly(fl, input, op, h', r');
      } else if op == CALL_HAS_ROLE {
        SameRole(hEnv.caller, h, h');
        RoleCallExactly(hEnv, rEnv, caller, record, h', r');
      } else {
        StepsAgree(hEnv, rEnv, caller, record, h, r);
      }
    }
  }

  lemma SameMembers(fl: Floats, h: H.State, h': H.State)
    requires h.stack == h'.stack
    ensures MembershipExact(fl, h) <==> MembershipExact(fl, h')
  {
  }

  lemma SameRole(caller: Value, h: H.State, h': H.State)
    requires h.stack == h'.stack
    ensures RoleCallExact(caller, h) <==> RoleCallExact(caller, h')
  {
  }

  // ----- Whole runs

  /** Every step of the host's run meets its condition. */
  predicate RunExact(env: H.Env, st: H.State)
    decreases |env.ir| - st.ip
  {
    StepExact(env, st) &&
    match H.StepAt(env, st)
    case Go(next) => RunExact(env, next)
    case _ => true
  }

  /** The two runs keep step to their end. */
  ghost predicate InStep(hEnv: H.Env, rEnv: R.Env, h: H.State, r: R.Machine)
    requires R.WellPlaced(rEnv)
    decreases |hEnv.ir| - h.ip
  {
    SameStep(hEnv.fl, rEnv.input, H.StepAt(hEnv, h), R.StepAt(rEnv, r)) &&
    match (H.StepAt(hEnv, h), R.StepAt(rEnv, r))
    case (Go(hn), Go(rn)) => InStep(hEnv, rEnv, hn, rn)
    case _ => true
  }

  /** From equal stacks the two runs keep step to the end exactly when every step of the host's run meets
    * its condition; they then allow, deny or fail alike. */
  lemma {:induction false} RunsAgreeExactly(hEnv: H.Env, rEnv: R.Env, caller: Doc, record: Doc, h: H.State,
                                            r: R.Machine)
    requires Linked(hEnv, rEnv, caller, record) && TextFloats(hEnv.fl)
    requires h.ip == r.ip && SameStack(hEnv.fl, rEnv.input, h.stack, r.stack) && |h.stack| <= MAX_STACK
    ensures InStep(hEnv, rEnv, h, r) <==> RunExact(hEnv, h)
    ensures RunExact(hEnv, h) ==> SameResult(H.RunFrom(hEnv, h), R.RunFrom(rEnv, r))
    decreases |hEnv.ir| - h.ip
  {
    hide SameStack, H.StepAt, R.StepAt, Located, Tree, Faithful, StepExact, SameStep, TextFloats;
    StepsAgreeExactly(hEnv, rEnv, caller, record, h, r);
    if StepExact(hEnv, h) {
      NextStates(hEnv.fl, rEnv.input, H.StepAt(hEnv, h), R.StepAt(rEnv, r));
      if H.StepAt(hEnv, h).Go? {
        RunsAgreeExactly(hEnv, rEnv, caller, record, H.StepAt(hEnv, h).next, R.StepAt(rEnv, r).next);
      }
    }
  }
}
