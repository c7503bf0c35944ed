/** Step by step and over whole runs, the two interpreters do the same. */
module PolicySimulation {
  import opened Wrappers
  import opened JsonText
  import opened JsonValue
  import opened JsonReader
  import opened JsonReaderProofs
  import opened PolicyIr
  import opened PolicyRefinement
  import H = PolicyHost
  import R = PolicyRuntime

  /** The two environments describe one evaluation: same bytecode, and at the runtime's offsets the
    * texts of the caller and record objects whose trees the host was given. */
  ghost predicate Linked(h: H.Env, r: R.Env, caller: Doc, record: Doc) {
    && h.fl == r.fl && h.ir == r.ir
    && Faithful(caller) && Faithful(record) && IsObjectDoc(caller) && IsObjectDoc(record)
    && h.caller == Tree(h.fl, caller) && h.record == Tree(h.fl, record)
    && r.callerAt.Some? && Located(r.input, r.callerAt.value, caller) && r.callerAt.value <= |r.input|
    && r.selfAt.Some? && Located(r.input, r.selfAt.value, record) && r.selfAt.value <= |r.input|
  }

  // ----- Elements of arrays

  lemma {:induction false} ItemsAreTrees(fl: Floats, items: Items)
    requires FaithfulItems(items)
    ensures forall e | e in DocsOf(items) :: Faithful(e) && Tree(fl, e) in ItemTrees(fl, items)
    ensures forall v | v in ItemTrees(fl, items) :: exists e :: e in DocsOf(items) && Tree(fl, e) == v
    decreases items
  {
    hide Faithful;
    assert items.doc in DocsOf(items);
    if items.Item? {
      ItemsAreTrees(fl, items.rest);
      assert forall e :: e in DocsOf(items) <==> e == items.doc || e in DocsOf(items.rest);
      assert forall v :: v in ItemTrees(fl, items) <==> v == Tree(fl, items.doc) || v in ItemTrees(fl, items.rest);
    }
  }

  lemma ElementsAreTrees(fl: Floats, d: Doc, items: seq<Value>)
    requires IsArrayDoc(d) && Faithful(d) && Tree(fl, d) == Array(items)
    ensures forall e | e in Elements(d) :: Faithful(e) && Tree(fl, e) in items
    ensures forall v | v in items :: exists e :: e in Elements(d) && Tree(fl, e) == v
    ensures AllSkippable(Elements(d))
  {
    if d.DArray? {
      ItemsAreTrees(fl, d.items);
    }
    forall e | e in Elements(d) ensures Skippable(e) {
      FaithfulSkippable(e);
    }
  }

  lemma LocatedHolds(input: Bytes, at: nat, d: Doc)
    requires Located(input, at, d)
    ensures Holds(input, at, Print(d))
  {
  }

  // ----- Membership

  /** What the runtime's visitor answers, told from the element itself. */
  predicate DocIs(fl: Floats, needle: R.Val, e: Doc) {
    match e
    case DString(raw) => needle == R.Raw(raw)
    case DNumber(num) => needle.RI64? && RuntimeNumber(fl, num) == Some(needle.n)
    case DBool(b) => needle == R.RBool(b)
    case _ => false
  }

  lemma VisitorSees(fl: Floats, input: Bytes, needle: R.Val, p: nat, e: Doc)
    requires Located(input, p, e) && Faithful(e)
    ensures R.ElementIs(fl, input, needle, p) == DocIs(fl, needle, e)
  {
    NoLeadingBlank(input, p, e);
    hide SkipWs, AsStr, R.AsI64, R.ParseI64, Faithful, AllWs, WellEscaped;
    match e {
      case DString(raw) =>
        PlainString(fl, e);
        ReadsString(input, p, raw);
      case DNumber(num) =>
        NumeralBytes(num);
        ReadsNumeral(fl, input, p, num);
      case _ =>
    }
  }

  /** The needles for which `IN` means the same to both: null and floats are never found by the
    * runtime, and an integer is compared to truncated elements. */
  predicate InShared(fl: Floats, items: seq<Value>, needle: H.NativeVal) {
    match needle
    case VNull => forall v | v in items :: H.NativeOf(v) != H.VNull
    case VI64(_) => forall v | v in items :: !IsFloat(H.NativeOf(v))
    case VF64(_) => forall v | v in items :: !H.EqNative(fl, needle, H.NativeOf(v))
    case _ => true
  }

  lemma ElementAgrees(fl: Floats, input: Bytes, hn: H.NativeVal, rn: R.Val, e: Doc)
    requires SameValue(fl, input, hn, rn) && Faithful(e)
    ensures hn.VNull? || hn.VF64? ==> !DocIs(fl, rn, e)
    ensures !hn.VNull? && !hn.VF64? && !(hn.VI64? && IsFloat(H.NativeOf(Tree(fl, e)))) ==>
              (DocIs(fl, rn, e) <==> H.EqNative(fl, hn, H.NativeOf(Tree(fl, e))))
  {
    if e.DNumber? && IsI64Numeral(e.num) {
      ParsesIntegers(e.num);
    }
  }

  /** `IN` agrees for every shared needle; and in an array without floats for no other. */
  lemma MembershipAgrees(fl: Floats, input: Bytes, at: nat, d: Doc, items: seq<Value>, hn: H.NativeVal, rn: R.Val)
    requires IsArrayDoc(d) && Faithful(d) && Located(input, at, d) && Tree(fl, d) == Array(items)
    requires SameValue(fl, input, hn, rn)
    ensures
      var found := AnyElement(input, at, (p: nat) => R.ElementIs(fl, input, rn, p));
      && (InShared(fl, items, hn) ==> found == Ok(H.Contains(fl, items, hn)))
      && ((forall v | v in items :: !IsFloat(H.NativeOf(v))) ==>
            found == Ok(H.Contains(fl, items, hn)) ==> InShared(fl, items, hn))
  {
    hide R.ElementIs, Located, Faithful, SameValue, DocIs, H.EqNative, H.NativeOf;
    ElementsAreTrees(fl, d, items);
    var hit := (p: nat) => R.ElementIs(fl, input, rn, p);
    var test := (e: Doc) => DocIs(fl, rn, e);
    assert Answers(input, Elements(d), hit, test) by {
      forall p: nat, e | e in Elements(d) && Located(input, p, e) ensures hit(p) == test(e) {
        VisitorSees(fl, input, rn, p, e);
      }
    }
    LocatedHolds(input, at, d);
    SearchesArray(input, at, d, hit, test);
    forall e | e in Elements(d)
      ensures hn.VNull? || hn.VF64? ==> !DocIs(fl, rn, e)
      ensures !hn.VNull? && !hn.VF64? && !(hn.VI64? && IsFloat(H.NativeOf(Tree(fl, e)))) ==>
                (DocIs(fl, rn, e) <==> H.EqNative(fl, hn, H.NativeOf(Tree(fl, e))))
    {
      ElementAgrees(fl, input, hn, rn, e);
    }
    FoundAgrees(fl, Elements(d), items, hn, rn);
  }

  lemma FoundAgrees(fl: Floats, docs: seq<Doc>, items: seq<Value>, hn: H.NativeVal, rn: R.Val)
    requires forall e | e in docs :: Tree(fl, e) in items
    requires forall v | v in items :: exists e :: e in docs && Tree(fl, e) == v
    requires forall e | e in docs :: hn.VNull? || hn.VF64? ==> !DocIs(fl, rn, e)
    requires forall e | e in docs :: !hn.VNull? && !hn.VF64? && !(hn.VI64? && IsFloat(H.NativeOf(Tree(fl, e)))) ==>
               (DocIs(fl, rn, e) <==> H.EqNative(fl, hn, H.NativeOf(Tree(fl, e))))
    ensures InShared(fl, items, hn) ==> (AnyDoc(docs, (e: Doc) => DocIs(fl, rn, e)) <==> H.Contains(fl, items, hn))
    ensures (forall v | v in items :: !IsFloat(H.NativeOf(v))) ==>
              (AnyDoc(docs, (e: Doc) => DocIs(fl, rn, e)) <==> H.Contains(fl, items, hn)) ==>
              InShared(fl, items, hn)
  {
    hide DocIs;
    if H.Contains(fl, items, hn) {
      var v :| v in items && H.EqNative(fl, hn, H.NativeOf(v));
      var e :| e in docs && Tree(fl, e) == v;
    }
  }

  // ----- Calls

  predicate RolesShared(caller: Value) {
    var roles := Get(caller, ROLES);
    roles.Some? ==> roles.value.Array?
  }

  /** `CALL_HAS_ROLE` agrees exactly when `roles` is absent or an array: the runtime faults on any
    * other value, the host answers no. */
  lemma RolesAgree(fl: Floats, input: Bytes, at: nat, caller: Doc, role: Bytes)
    requires Located(input, at, caller) && Faithful(caller) && at <= |input|
    ensures R.HasRole(input, Some(at), role) == Ok(H.HasRole(Tree(fl, caller), role))
            <==> RolesShared(Tree(fl, caller))
    ensures !RolesShared(Tree(fl, caller)) ==> R.HasRole(input, Some(at), role) == Malformed
  {
    hide Located, Faithful, Print, FindPath, DocGet, R.RoleIs, Get, AnyElement;
    LooksUp(fl, input, at, caller, ROLES);
    DocGetIsGet(fl, caller, ROLES);
    if DocGet(caller, ROLES).Some? {
      var (off, d) := DocGet(caller, ROLES).value;
      if IsArrayDoc(d) {
        RolesVisited(fl, input, at + off, d, role);
      } else {
        NotAnArray(fl, input, at + off, d, (p: nat) => R.RoleIs(input, role, p));
      }
    }
  }

  lemma NotAnArray(fl: Floats, input: Bytes, at: nat, d: Doc, hit: nat -> bool)
    requires Located(input, at, d) && !IsArrayDoc(d)
    ensures AnyElement(input, at, hit) == Malformed && !Tree(fl, d).Array?
  {
    NoLeadingBlank(input, at, d);
    OnlyObjectsOpenBrace(d);
    ContainerTrees(fl, d);
  }

  lemma RoleSeen(input: Bytes, role: Bytes, p: nat, e: Doc)
    requires Located(input, p, e) && Faithful(e)
    ensures R.RoleIs(input, role, p) <==> e.DString? && e.raw == role
  {
    NoLeadingBlank(input, p, e);
    OnlyObjectsOpenBrace(e);
    if e.DString? {
      PlainHasNoUnicode(e.raw);
      ReadsString(input, p, e.raw);
    }
  }

  lemma RoleTree(fl: Floats, e: Doc, role: Bytes)
    ensures Tree(fl, e) == String(role) <==> e.DString? && e.raw == role
  {
  }

  lemma RolesVisited(fl: Floats, input: Bytes, at: nat, d: Doc, role: Bytes)
    requires IsArrayDoc(d) && Faithful(d) && Located(input, at, d)
    ensures Tree(fl, d).Array?
    ensures AnyElement(input, at, (p: nat) => R.RoleIs(input, role, p)) == Ok(String(role) in Tree(fl, d).items)
  {
    hide Located, Faithful, R.RoleIs, Tree, Elements, AllSkippable, AnyElement, Holds, Print;
    ContainerTrees(fl, d);
    var items := Tree(fl, d).items;
    ElementsAreTrees(fl, d, items);
    var hit := (p: nat) => R.RoleIs(input, role, p);
    var test := (e: Doc) => e.DString? && e.raw == role;
    assert Answers(input, Elements(d), hit, test) by {
      forall p: nat, e | e in Elements(d) && Located(input, p, e) ensures hit(p) == test(e) {
        RoleSeen(input, role, p, e);
      }
    }
    LocatedHolds(input, at, d);
    SearchesArray(input, at, d, hit, test);
    if AnyDoc(Elements(d), test) {
      var e :| e in Elements(d) && test(e);
      RoleTree(fl, e, role);
    }
    if String(role) in items {
      var e :| e in Elements(d) && Tree(fl, e) == String(role);
      RoleTree(fl, e, role);
    }
  }

  lemma TenantRead(fl: Floats, input: Bytes, at: nat, d: Doc)
    requires Located(input, at, d) && Faithful(d) && at <= |input|
    ensures R.TenantAt(input, at) ==
            match Get(Tree(fl, d), TENANT)
            case Some(String(s)) => Some(s)
            case _ => None
  {
    hide Located, Faithful, Print, FindPath, DocGet, Get, AsStr, SkipWs, Tree;
    LooksUp(fl, input, at, d, TENANT);
    DocGetIsGet(fl, d, TENANT);
    if DocGet(d, TENANT).Some? {
      var (off, e) := DocGet(d, TENANT).value;
      TextRead(fl, input, at + off, e);
    }
  }

  lemma TextRead(fl: Floats, input: Bytes, p: nat, e: Doc)
    requires Located(input, p, e) && Faithful(e)
    ensures AsStr(input, SkipWs(input, p)) == if Tree(fl, e).String? then Ok(Tree(fl, e).s) else Malformed
  {
    NoLeadingBlank(input, p, e);
    OnlyObjectsOpenBrace(e);
    if e.DString? {
      PlainHasNoUnicode(e.raw);
      ReadsString(input, p, e.raw);
    }
  }

  lemma TenantsAgree(h: H.Env, r: R.Env, caller: Doc, record: Doc)
    requires Linked(h, r, caller, record)
    ensures R.TenantMatch(r) <==> H.TenantMatch(h.caller, h.record)
  {
    hide R.TenantAt, Tree, Get, Located, Faithful;
    TenantRead(h.fl, r.input, r.callerAt.value, caller);
    TenantRead(h.fl, r.input, r.selfAt.value, record);
  }

  // ----- The shared fragment, step by step

  predicate LoadShared(ir: Bytes, ip: nat, root: Value) {
    match ByteAtIp(ir, ip)
    case None => true
    case Some((n, start)) =>
      n as int <= MAX_SEGMENTS && PathShared(ir, start, n, root) &&
      match H.Walk(ir, start, n, root)
      case Failed(_) => true
      case Done((v, _)) => !IsFloat(v)
  }

  /** The step the host is about to take lies in the fragment both machines interpret alike. */
  predicate Shared(env: H.Env, st: H.State) {
    st.ip < |env.ir| ==>
      var op := env.ir[st.ip];
      if op == LIT_STR then
        BlobAt(env.ir, st.ip + 1).Some? ==> ValidUtf8(BlobAt(env.ir, st.ip + 1).value.0)
      else if op == LOAD_CALLER then LoadShared(env.ir, st.ip + 1, env.caller)
      else if op == LOAD_SELF then LoadShared(env.ir, st.ip + 1, env.record)
      else if op == IN || op == NOT_IN then
        |st.stack| >= 2 && H.Top(st, 1).VArray? ==> InShared(env.fl, H.Top(st, 1).items, H.Top(st, 2))
      else if op == CALL_HAS_ROLE then
        |st.stack| >= 2 && H.Top(st, 1).VStr? ==>
          !H.Top(st, 2).VStr? && !H.Top(st, 2).VArray? && RolesShared(env.caller)
      else true
  }

  lemma SameLiteral(fl: Floats, input: Bytes, ir: Bytes, op: byte, h: H.State, r: R.Machine)
    requires h.ip == r.ip && SameStack(fl, input, h.stack, r.stack)
    requires op == LIT_STR && BlobAt(ir, h.ip).Some? ==> ValidUtf8(BlobAt(ir, h.ip).value.0)
    ensures SameStep(fl, input, H.Literal(ir, op, h), R.Literal(ir, op, r))
  {
    hide ValidUtf8, SameStack, H.Push, R.Push, ToI64, ToF64, BlobAt;
    if op == LIT_NULL {
      SamePush(fl, input, h.ip, h.stack, r.stack, H.VNull, R.RNull);
    } else if op == LIT_BOOL {
      if ByteAtIp(ir, h.ip).Some? {
        var (b, ip) := ByteAtIp(ir, h.ip).value;
        SamePush(fl, input, ip, h.stack, r.stack, H.VBool(b != 0), R.RBool(b != 0));
      }
    } else if op == LIT_STR {
      if BlobAt(ir, h.ip).Some? {
        var (s, ip) := BlobAt(ir, h.ip).value;
        SamePush(fl, input, ip, h.stack, r.stack, H.VStr(s), R.Raw(s));
      }
    } else if Word64At(ir, h.ip).Some? {
      var (w, ip) := Word64At(ir, h.ip).value;
      SamePush(fl, input, ip, h.stack, r.stack, H.VF64(ToF64(w)), R.RF64(ToF64(w)));
      SamePush(fl, input, ip, h.stack, r.stack, H.VI64(ToI64(w)), R.RI64(ToI64(w)));
    }
  }

  lemma SameLoaded(env: R.Env, at: nat, d: Doc, segs: seq<Bytes>)
    requires Located(env.input, at, d) && Faithful(d) && IsObjectDoc(d) && at <= |env.input|
    requires !IsFloat(Follow(Tree(env.fl, d), segs))
    ensures R.LoadedValue(env, Some(at), segs).Ok?
    ensures SameValue(env.fl, env.input, Follow(Tree(env.fl, d), segs), R.LoadedValue(env, Some(at), segs).value)
  {
    hide Located, Faithful, Tree, R.Classify, R.Resolve;
    if segs == [] {
      ContainerTrees(env.fl, d);
    } else {
      var e := ResolvesPath(env.fl, env.input, at, d, segs);
      var found := R.Resolve(env.input, at, segs);
      if found.value.Some? {
        Classifies(env.fl, env.input, found.value.value, e);
      }
    }
  }

  lemma SameLoad(env: R.Env, at: nat, d: Doc, h: H.State, r: R.Machine)
    requires Located(env.input, at, d) && Faithful(d) && IsObjectDoc(d) && at <= |env.input|
    requires h.ip == r.ip && SameStack(env.fl, env.input, h.stack, r.stack)
    requires LoadShared(env.ir, h.ip, Tree(env.fl, d))
    ensures SameStep(env.fl, env.input, H.Load(env.ir, Tree(env.fl, d), h), R.Load(env, Some(at), r))
  {
    hide Located, Faithful, Tree, R.LoadedValue, SameStack, R.Segments, H.Walk, PathShared, SameValue, Follow;
    assert |h.stack| == |r.stack| by { SameLength(env.fl, env.input, h.stack, r.stack); }
    if ByteAtIp(env.ir, h.ip).Some? {
      var (n, start) := ByteAtIp(env.ir, h.ip).value;
      var root := Tree(env.fl, d);
      WalksPath(env.ir, start, n, root, []);
      if R.Segments(env.ir, start, n, []).Some? {
        var (segs, ip) := R.Segments(env.ir, start, n, []).value;
        assert segs[0..] == segs;
        SameLoaded(env, at, d, segs);
        var v := R.LoadedValue(env, Some(at), segs);
        SamePush(env.fl, env.input, ip, h.stack, r.stack, Follow(root, segs), v.value);
      }
    }
  }

  lemma SameLength(fl: Floats, input: Bytes, hs: seq<H.NativeVal>, rs: seq<R.Val>)
    requires SameStack(fl, input, hs, rs)
    ensures |hs| == |rs|
  {
  }

  /** Comparisons look at operands in ways that cannot tell the two machines apart. */
  lemma SameOperands(fl: Floats, input: Bytes, ha: H.NativeVal, ra: R.Val, hb: H.NativeVal, rb: R.Val)
    requires SameValue(fl, input, ha, ra) && SameValue(fl, input, hb, rb)
    ensures H.EqNative(fl, ha, hb) <==> R.EqVal(fl, ra, rb)
    ensures H.AsFloat(fl, ha) == R.AsFloat(fl, ra)
    ensures ha.VBool? <==> ra.RBool?
    ensures ha.VBool? ==> ha.b == ra.b
    ensures ha.VStr? <==> ra.Raw?
    ensures ha.VStr? ==> ha.s == ra.s
    ensures ha.VArray? <==> ra.ArrayAt?
  {
    hide Located, Tree, Faithful;
  }

  lemma SameComparison(fl: Floats, input: Bytes, op: byte, h: H.State, r: R.Machine)
    requires h.ip == r.ip && SameStack(fl, input, h.stack, r.stack)
    ensures SameStep(fl, input, H.Comparison(fl, op, h), R.Comparison(fl, op, r))
  {
    hide SameStack, SameValue, SameStep, H.EqNative, R.EqVal, Compare, H.Push, R.Push;
    SameLength(fl, input, h.stack, r.stack);
    if |h.stack| >= 2 {
      SameBelow(fl, input, h, r, 2);
      SameOperands(fl, input, H.Top(h, 2), R.Top(r, 2), H.Top(h, 1), R.Top(r, 1));
      SameOperands(fl, input, H.Top(h, 1), R.Top(r, 1), H.Top(h, 1), R.Top(r, 1));
      SameFaults(fl, input);
      SamePushBool(fl, input, h.ip, H.Below(h, 2), R.Below(r, 2));
    } else {
      SameFaults(fl, input);
    }
  }

  lemma SameFaults(fl: Floats, input: Bytes)
    ensures forall e :: SameStep(fl, input, Fault(e), Fault(R.Unit))
  {
  }

  lemma SamePushBool(fl: Floats, input: Bytes, ip: nat, hs: seq<H.NativeVal>, rs: seq<R.Val>)
    requires SameStack(fl, input, hs, rs)
    ensures forall b :: SameStep(fl, input, H.Push(ip, hs, H.VBool(b)), R.Push(ip, rs, R.RBool(b)))
  {
    forall b ensures SameStep(fl, input, H.Push(ip, hs, H.VBool(b)), R.Push(ip, rs, R.RBool(b))) {
      SamePush(fl, input, ip, hs, rs, H.VBool(b), R.RBool(b));
    }
  }

  lemma SameLogic(fl: Floats, input: Bytes, op: byte, h: H.State, r: R.Machine)
    requires h.ip == r.ip && SameStack(fl, input, h.stack, r.stack)
    ensures SameStep(fl, input, H.Logic(op, h), R.Logic(op, r))
  {
    hide SameStack, SameValue, SameStep, H.Push, R.Push, H.EqNative, R.EqVal;
    SameLength(fl, input, h.stack, r.stack);
    SameFaults(fl, input);
    if |h.stack| >= 1 {
      SameBelow(fl, input, h, r, 1);
      SamePushBool(fl, input, h.ip, H.Below(h, 1), R.Below(r, 1));
      SameOperands(fl, input, H.Top(h, 1), R.Top(r, 1), H.Top(h, 1), R.Top(r, 1));
      if |h.stack| >= 2 {
        SameBelow(fl, input, h, r, 2);
        SamePushBool(fl, input, h.ip, H.Below(h, 2), R.Below(r, 2));
        SameOperands(fl, input, H.Top(h, 2), R.Top(r, 2), H.Top(h, 1), R.Top(r, 1));
      }
    }
  }

  lemma SameMembership(fl: Floats, input: Bytes, op: byte, h: H.State, r: R.Machine)
    requires h.ip == r.ip && SameStack(fl, input, h.stack, r.stack)
    requires |h.stack| >= 2 && H.Top(h, 1).VArray? ==> InShared(fl, H.Top(h, 1).items, H.Top(h, 2))
    ensures SameStep(fl, input, H.Membership(fl, op, h), R.Membership(fl, input, op, r))
  {
    hide SameStack, SameStep, H.Push, R.Push, H.EqNative, R.EqVal, Located, Faithful, Tree, InShared, H.Contains,
      AnyElement, R.ElementIs;
    SameLength(fl, input, h.stack, r.stack);
    SameFaults(fl, input);
    if |h.stack| >= 2 {
      SameBelow(fl, input, h, r, 2);
      SamePushBool(fl, input, h.ip, H.Below(h, 2), R.Below(r, 2));
      var hay, needle := H.Top(h, 1), H.Top(h, 2);
      SameOperands(fl, input, hay, R.Top(r, 1), needle, R.Top(r, 2));
      if hay.VArray? {
        var d :| IsArrayDoc(d) && Faithful(d) && Located(input, R.Top(r, 1).at, d) && Tree(fl, d) == Array(hay.items);
        MembershipAgrees(fl, input, R.Top(r, 1).at, d, hay.items, needle, R.Top(r, 2));
      }
    }
  }

  lemma SameCall(hEnv: H.Env, rEnv: R.Env, caller: Doc, record: Doc, op: byte, h: H.State, r: R.Machine)
    requires Linked(hEnv, rEnv, caller, record) && (op == CALL_HAS_ROLE || op == CALL_TENANT_MATCH)
    requires h.ip == r.ip && SameStack(hEnv.fl, rEnv.input, h.stack, r.stack)
    requires op == CALL_HAS_ROLE && |h.stack| >= 2 && H.Top(h, 1).VStr? ==>
               !H.Top(h, 2).VStr? && !H.Top(h, 2).VArray? && RolesShared(hEnv.caller)
    ensures SameStep(hEnv.fl, rEnv.input, H.Call(op, hEnv.caller, hEnv.record, h), R.Call(rEnv, op, r))
  {
    var fl, input := hEnv.fl, rEnv.input;
    hide SameStack, SameStep, SameValue, H.Push, R.Push, H.EqNative, R.EqVal, Located, Faithful, Tree, R.HasRole, H.HasRole,
      R.TenantMatch, H.TenantMatch, RolesShared;
    SameLength(fl, input, h.stack, r.stack);
    SameFaults(fl, input);
    if |h.stack| >= 2 {
      SameBelow(fl, input, h, r, 2);
      SamePushBool(fl, input, h.ip, H.Below(h, 2), R.Below(r, 2));
      SameOperands(fl, input, H.Top(h, 1), R.Top(r, 1), H.Top(h, 2), R.Top(r, 2));
      SameOperands(fl, input, H.Top(h, 2), R.Top(r, 2), H.Top(h, 1), R.Top(r, 1));
      TenantsAgree(hEnv, rEnv, caller, record);
      if H.Top(h, 1).VStr? {
        RolesAgree(fl, input, rEnv.callerAt.value, caller, H.Top(h, 1).s);
      }
    }
  }

  lemma SameTerminal(fl: Floats, input: Bytes, op: byte, h: H.State, r: R.Machine)
    requires SameStack(fl, input, h.stack, r.stack)
    ensures SameStep(fl, input, H.Terminal(op, h), R.Terminal(op, r))
  {
    hide SameStack, SameValue, H.EqNative, R.EqVal;
    SameLength(fl, input, h.stack, r.stack);
    if |h.stack| >= 1 {
      SameBelow(fl, input, h, r, 1);
      SameOperands(fl, input, H.Top(h, 1), R.Top(r, 1), H.Top(h, 1), R.Top(r, 1));
    }
  }

  /** One step from equal stacks in the shared fragment: both fault, both stop with one verdict, or
    * both go on with equal instruction pointers and equal stacks. */
  lemma StepsAgree(hEnv: H.Env, rEnv: R.Env, caller: Doc, record: Doc, h: H.State, r: R.Machine)
    requires Linked(hEnv, rEnv, caller, record)
    requires h.ip == r.ip && SameStack(hEnv.fl, rEnv.input, h.stack, r.stack)
    requires Shared(hEnv, h)
    ensures SameStep(hEnv.fl, rEnv.input, H.StepAt(hEnv, h), R.StepAt(rEnv, r))
  {
    var fl, input, ir := hEnv.fl, rEnv.input, hEnv.ir;
    hide SameStack, SameStep, SameValue, Located, Faithful, Tree, ValidUtf8, LoadShared, InShared, RolesShared,
      H.Literal, R.Literal, H.Load, R.Load, H.Comparison, R.Comparison, H.Logic, R.Logic, H.Membership, R.Membership,
      H.Call, R.Call, H.Terminal, R.Terminal, BlobAt;
    SameFaults(fl, input);
    if h.ip < |ir| {
      var op := ir[h.ip];
      var h', r' := H.State(h.ip + 1, h.stack), R.Machine(r.ip + 1, r.stack);
      if LIT_NULL <= op <= LIT_DURATION_SECS {
        SameLiteral(fl, input, ir, op, h', r');
      } else if op == LOAD_CALLER {
        SameLoad(rEnv, rEnv.callerAt.value, caller, h', r');
      } else if op == LOAD_SELF {
        SameLoad(rEnv, rEnv.selfAt.value, record, h', r');
      } else if EQ <= op <= GE {
        SameComparison(fl, input, op, h', r');
      } else if AND <= op <= NOT {
        SameLogic(fl, input, op, h', r');
      } else if op == IN || op == NOT_IN {
        SameMembership(fl, input, op, h', r');
      } else if op == CALL_HAS_ROLE || op == CALL_TENANT_MATCH {
        SameCall(hEnv, rEnv, caller, record, op, h', r');
      } else if op >= RESULT {
        SameTerminal(fl, input, op, h', r');
      }
    }
  }

  // ----- Whole runs

  /** Every step of the host's run lies in the shared fragment. */
  predicate RunShared(env: H.Env, st: H.State)
    decreases |env.ir| - st.ip
  {
    Shared(env, st) &&
    match H.StepAt(env, st)
    case Go(next) => RunShared(env, next)
    case _ => true
  }

  predicate SameResult(h: H.Checked<bool>, r: Read<bool>) {
    match (h, r)
    case (Done(a), Ok(b)) => a == b
    case (Failed(_), Malformed) => true
    case _ => false
  }

  /** A run in the shared fragment allows, denies or fails on both machines alike. */
  lemma {:induction false} RunsAgree(hEnv: H.Env, rEnv: R.Env, caller: Doc, record: Doc, h: H.State, r: R.Machine)
    requires Linked(hEnv, rEnv, caller, record)
    requires h.ip == r.ip && SameStack(hEnv.fl, rEnv.input, h.stack, r.stack)
    requires RunShared(hEnv, h)
    ensures SameResult(H.RunFrom(hEnv, h), R.RunFrom(rEnv, r))
    decreases |hEnv.ir| - h.ip
  {
    hide SameStack, H.StepAt, R.StepAt, Located, Tree, Faithful, Shared, SameStep;
    StepsAgree(hEnv, rEnv, caller, record, h, r);
    NextStates(hEnv.fl, rEnv.input, H.StepAt(hEnv, h), R.StepAt(rEnv, r));
    if H.StepAt(hEnv, h).Go? {
      RunsAgree(hEnv, rEnv, caller, record, H.StepAt(hEnv, h).next, R.StepAt(rEnv, r).next);
    }
  }

  lemma NextStates(fl: Floats, input: Bytes, h: H.Step, r: R.Step)
    requires SameStep(fl, input, h, r)
    ensures h.Go? <==> r.Go?
    ensures h.Halt? <==> r.Halt?
    ensures h.Halt? ==> h.allow == r.allow
    ensures h.Go? ==> h.next.ip == r.next.ip && SameStack(fl, input, h.next.stack, r.next.stack)
  {
  }

  // ----- Whole evaluations

  /** The wire text: an object in any layout, between blanks. */
  function WireText(before: Space, wire: Members, after: Space): Bytes {
    before + Print(DObject(wire)) + after
  }

  lemma FindsRoot(fl: Floats, before: Space, wire: Members, after: Space, key: Bytes)
    requires FaithfulMembers(wire) && MemberAt(wire, key).Some?
    ensures
      var text := WireText(before, wire, after);
      var v := MemberAt(wire, key).value.1;
      && Faithful(v)
      && FindPath(text, [key]).Ok? && FindPath(text, [key]).value.Some?
      && var at := FindPath(text, [key]).value.value.0;
         at <= |text| && Located(text, at, v)
  {
    hide FindPath, Located, PathReadable, Print, Skippable;
    var d := DObject(wire);
    FaithfulObject(wire);
    MemberIsField(fl, wire, key);
    DocGetIsGet(fl, d, key);
    assert DocGet(d, key).Some? && DocGet(d, key).value.1 == MemberAt(wire, key).value.1 by {
      OneKeyPath(d, key);
    }
    assert Delimited(after, 0) by { BlanksDelimit(after); }
    FindsPath(before, d, after, [key]);
  }

  lemma FaithfulObject(wire: Members)
    ensures Faithful(DObject(wire)) <==> FaithfulMembers(wire)
  {
  }

  lemma BlanksDelimit(after: Space)
    ensures Delimited(after, 0)
  {
    if after != [] {
      assert IsWs(after[0]);
    }
  }

  lemma OneKeyPath(d: Doc, key: Bytes)
    requires d.DObject? && MemberAt(d.members, key).Some?
    ensures DocGet(d, key).Some? && DocGet(d, key).value.1 == MemberAt(d.members, key).value.1
  {
    var v := MemberAt(d.members, key).value.1;
    assert [key][1..] == [];
    assert PathAt(v, [key][1..]) == Some((0, v));
  }

  predicate SameVerdict(h: H.Checked<bool>, r: R.Verdict) {
    match h
    case Done(true) => r == R.Allow
    case Done(false) => r == R.Deny
    case Failed(_) => r == R.Error
  }

  /** The rule this evaluation selects, if any, runs in the shared fragment. */
  predicate SectionShared(fl: Floats, section: Bytes, caller: Value, record: Value, bit: byte) {
    Payload(section).Some? ==>
      var ir := Payload(section).value;
      match Dispatch(ir, bit)
      case Enter(ip) => RunShared(H.Env(fl, ir, caller, record), H.State(ip, []))
      case _ => true
  }

  lemma RulesAgree(hEnv: H.Env, rEnv: R.Env, caller: Doc, record: Doc, ip: nat)
    requires Linked(hEnv, rEnv, caller, record) && RunShared(hEnv, H.State(ip, []))
    ensures SameVerdict(H.RunFrom(hEnv, H.State(ip, [])), R.RuleVerdict(rEnv, ip))
  {
    hide Located, Faithful, Tree, SameValue, RunShared;
    RunsAgree(hEnv, rEnv, caller, record, H.State(ip, []), R.Machine(ip, []));
  }

  /** For every bytecode section, every layout of a wire object with an object caller, an object record
    * and a known action: if the selected rule runs in the shared fragment, the runtime on the bytes and
    * the host on the trees reach the same verdict. */
  lemma VerdictsAgree(fl: Floats, section: Bytes, before: Space, wire: Members, after: Space,
                      caller: Doc, record: Doc, action: Bytes, bit: byte)
    requires FaithfulMembers(wire) && IsObjectDoc(caller) && IsObjectDoc(record)
    requires MemberAt(wire, CALLER).Some? && MemberAt(wire, CALLER).value.1 == caller
    requires MemberAt(wire, RECORD).Some? && MemberAt(wire, RECORD).value.1 == record
    requires MemberAt(wire, ACTION).Some? && MemberAt(wire, ACTION).value.1.DString?
    requires MemberAt(wire, ACTION).value.1.raw == action && H.ActionFromWire(action) == H.Done(bit)
    requires SectionShared(fl, section, Tree(fl, caller), Tree(fl, record), bit)
    ensures SameVerdict(H.Verdict(fl, section, Tree(fl, caller), Tree(fl, record), bit),
                        R.Evaluation(fl, WireText(before, wire, after), section))
  {
    hide FindPath, Located, Faithful, FaithfulMembers, Tree, RunShared, H.RunFrom, R.RuleVerdict, Dispatch, WireText,
      MemberAt, Print, Payload;
    var text := WireText(before, wire, after);
    FindsRoot(fl, before, wire, after, CALLER);
    FindsRoot(fl, before, wire, after, RECORD);
    WireActionRead(fl, before, wire, after, action);
    if Payload(section).Some? {
      var ir := Payload(section).value;
      DispatchShape(ir, bit);
      var callerAt, selfAt := R.RootAt(text, CALLER), R.RootAt(text, RECORD);
      var hEnv := H.Env(fl, ir, Tree(fl, caller), Tree(fl, record));
      var rEnv := R.Env(fl, ir, text, callerAt, selfAt);
      assert Linked(hEnv, rEnv, caller, record);
      if Dispatch(ir, bit).Enter? {
        RulesAgree(hEnv, rEnv, caller, record, Dispatch(ir, bit).ip);
      }
    }
    HeaderShape(section);
  }

  lemma WireActionRead(fl: Floats, before: Space, wire: Members, after: Space, action: Bytes)
    requires FaithfulMembers(wire) && MemberAt(wire, ACTION).Some?
    requires MemberAt(wire, ACTION).value.1.DString? && MemberAt(wire, ACTION).value.1.raw == action
    ensures R.WireAction(WireText(before, wire, after)) == Some(action)
  {
    hide FindPath, MemberAt, FaithfulMembers, WireText, Print, SkipWs;
    var text := WireText(before, wire, after);
    FindsRoot(fl, before, wire, after, ACTION);
    var at := FindPath(text, [ACTION]).value.value.0;
    var d := MemberAt(wire, ACTION).value.1;
    PlainString(fl, d);
    StringStands(text, at, d);
    ReadsString(text, at, action);
  }

  lemma StringStands(text: Bytes, at: int, d: Doc)
    requires d.DString? && Located(text, at, d)
    ensures Holds(text, at, PrintString(d.raw))
  {
  }

  lemma DispatchShape(ir: Bytes, bit: byte)
    ensures ir == [] || ir[0] == 0 ==> Dispatch(ir, bit) == NoRule
    ensures ir != [] && ir[0] != 0 && |ir| < 1 + 3 * (ir[0] as int) ==> Dispatch(ir, bit) == BadTable
  {
  }

  lemma HeaderShape(section: Bytes)
    ensures |section| < 8 || section[0..4] != MAGIC ==> Payload(section) == None
  {
  }

  /** An action name outside the four is an error to the host before it interprets anything; the runtime
    * errs exactly when the section is malformed or has a non-empty action table, and denies otherwise. */
  lemma UnknownActionVerdict(fl: Floats, input: Bytes, section: Bytes, name: Bytes)
    requires R.WireAction(input) == Some(name) && H.ActionFromWire(name).Failed?
    ensures
      var empty := Payload(section).Some? && (Payload(section).value == [] || Payload(section).value[0] == 0);
      R.Evaluation(fl, input, section) == if empty then R.Deny else R.Error
  {
    hide R.WireAction;
  }
}
