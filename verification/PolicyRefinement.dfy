/** The runtime over bytes refines the host interpreter over trees. */
module PolicyRefinement {
  import opened Wrappers
  import opened JsonText
  import opened JsonValue
  import opened JsonReader
  import opened JsonReaderProofs
  import opened PolicyIr
  import H = PolicyHost
  import R = PolicyRuntime

  // ----- Documents and their trees

  lemma {:induction false} PlainHasNoUnicode(raw: Bytes)
    requires BACKSLASH !in raw
    ensures !HasUnicodeEscape(raw)
    decreases |raw|
  {
    if raw != [] {
      PlainHasNoUnicode(raw[1..]);
    }
  }

  lemma FaithfulSkippable(d: Doc)
    requires Faithful(d)
    ensures Skippable(d)
  {
    if d.DString? {
      PlainHasNoUnicode(d.raw);
    }
  }

  lemma {:induction false} FieldKeys(fl: Floats, members: Members, key: Bytes)
    ensures key in Fields(fl, members) <==> HasKey(members, key)
    decreases members
  {
    if members.Member? {
      FieldKeys(fl, members.rest, key);
    }
  }

  /** The first member with a key is the field of the tree, and reading up to it meets no escape. */
  lemma {:induction false} MemberIsField(fl: Floats, members: Members, key: Bytes)
    requires FaithfulMembers(members)
    ensures MembersReadable(members, key)
    ensures MemberAt(members, key).None? <==> key !in Fields(fl, members)
    ensures MemberAt(members, key).Some? ==>
              var d := MemberAt(members, key).value.1;
              Faithful(d) && Fields(fl, members)[key] == Tree(fl, d)
    decreases members
  {
    PlainHasNoUnicode(members.key);
    FaithfulSkippable(members.doc);
    if members.Member? {
      MemberIsField(fl, members.rest, key);
      FieldKeys(fl, members.rest, members.key);
    }
  }

  /** A key of a document: where its value starts, and the value. */
  function DocGet(d: Doc, key: Bytes): Option<(nat, Doc)> {
    PathAt(d, [key])
  }

  lemma DocGetIsGet(fl: Floats, d: Doc, key: Bytes)
    requires Faithful(d)
    ensures PathReadable(d, [key])
    ensures DocGet(d, key).None? <==> Get(Tree(fl, d), key).None?
    ensures DocGet(d, key).Some? ==>
              Faithful(DocGet(d, key).value.1) && Get(Tree(fl, d), key) == Some(Tree(fl, DocGet(d, key).value.1))
  {
    assert [key][0] == key && [key][1..] == [];
    if d.DObject? {
      MemberIsField(fl, d.members, key);
      if MemberAt(d.members, key).Some? {
        var v := MemberAt(d.members, key).value.1;
        FaithfulSkippable(v);
        assert PathAt(v, [key][1..]) == Some((0, v));
      }
    }
  }

  /** A one-key lookup on the rest of the buffer finds the value of that key. */
  lemma LooksUp(fl: Floats, input: Bytes, at: nat, d: Doc, key: Bytes)
    requires Located(input, at, d) && Faithful(d)
    ensures at <= |input|
    ensures FindPath(input[at..], [key]) ==
            match DocGet(d, key)
            case None => Ok(None)
            case Some((off, v)) => Ok(Some((off, off + |Print(v)|)))
    ensures DocGet(d, key).Some? ==>
              Located(input, at + DocGet(d, key).value.0, DocGet(d, key).value.1) &&
              at + DocGet(d, key).value.0 <= |input|
  {
    hide Located, PathReadable, PathAt, Print, FindPath, Faithful;
    DocGetIsGet(fl, d, key);
    FindsPathInSlice(input, at, d, [key]);
    if DocGet(d, key).Some? {
      LocatedInSlice(input, at + DocGet(d, key).value.0, DocGet(d, key).value.1);
    }
  }

  // ----- Operands

  /** The same operand on both machines. */
  ghost predicate SameValue(fl: Floats, input: Bytes, h: H.NativeVal, r: R.Val) {
    match h
    case VNull => r == R.RNull
    case VBool(b) => r == R.RBool(b)
    case VI64(n) => r == R.RI64(n)
    case VF64(f) => r == R.RF64(f)
    case VStr(s) => r == R.Raw(s)
    case VArray(items) =>
      r.ArrayAt? && exists d :: IsArrayDoc(d) && Faithful(d) && Located(input, r.at, d) && Tree(fl, d) == Array(items)
  }

  ghost predicate SameStack(fl: Floats, input: Bytes, hs: seq<H.NativeVal>, rs: seq<R.Val>) {
    |hs| == |rs| && forall k :: 0 <= k < |hs| ==> SameValue(fl, input, hs[k], rs[k])
  }

  ghost predicate SameStep(fl: Floats, input: Bytes, h: H.Step, r: R.Step) {
    match (h, r)
    case (Fault(_), Fault(_)) => true
    case (Halt(a), Halt(b)) => a == b
    case (Go(hn), Go(rn)) => hn.ip == rn.ip && SameStack(fl, input, hn.stack, rn.stack)
    case _ => false
  }

  lemma SamePush(fl: Floats, input: Bytes, ip: nat, hs: seq<H.NativeVal>, rs: seq<R.Val>, hv: H.NativeVal, rv: R.Val)
    requires SameStack(fl, input, hs, rs) && SameValue(fl, input, hv, rv)
    ensures SameStep(fl, input, H.Push(ip, hs, hv), R.Push(ip, rs, rv))
  {
    hide SameValue;
  }

  lemma SameBelow(fl: Floats, input: Bytes, hst: H.State, rst: R.Machine, n: nat)
    requires SameStack(fl, input, hst.stack, rst.stack) && n <= |hst.stack|
    ensures SameStack(fl, input, H.Below(hst, n), R.Below(rst, n))
    ensures forall k :: 1 <= k <= |hst.stack| ==> SameValue(fl, input, H.Top(hst, k), R.Top(rst, k))
  {
    hide SameValue;
  }

  // ----- Numbers

  /** What `as_i64` makes of a numeral. */
  function RuntimeNumber(fl: Floats, num: Numeral): Option<int> {
    match R.ParseI64(PrintNumeral(num))
    case Some(n) => Some(n)
    case None =>
      match fl.parse(PrintNumeral(num))
      case Some(f) => Some(fl.truncate(f))
      case None => None
  }

  lemma ParsesIntegers(num: Numeral)
    requires num.frac == [] && num.exp == []
    ensures R.ParseI64(PrintNumeral(num)) == if FitsI64(IntegerValue(num)) then Some(IntegerValue(num)) else None
  {
    var s := PrintNumeral(num);
    if num.negative {
      assert s[1..] == num.digits;
    } else {
      assert s == num.digits;
    }
  }

  lemma RefusesNonIntegers(num: Numeral)
    requires num.frac != [] || num.exp != []
    ensures R.ParseI64(PrintNumeral(num)).None?
  {
    var s := PrintNumeral(num);
    var k := (if num.negative then 1 else 0) + |num.digits|;
    var tail := num.frac + num.exp;
    assert s == (if num.negative then [MINUS] else []) + num.digits + tail;
    assert s[k] == tail[0] && !IsDigit(tail[0]);
    if num.negative {
      assert s[1..][k - 1] == s[k];
    }
  }

  /** Both machines hold the same number exactly when the numeral is a 64-bit integer spelled as one:
    * the runtime truncates every other number, and reads `-0` as an integer. */
  lemma NumbersAgree(fl: Floats, input: Bytes, num: Numeral)
    requires fl.parse(PrintNumeral(num)).Some?
    ensures RuntimeNumber(fl, num).Some?
    ensures SameValue(fl, input, H.NativeOf(Number(NumberOf(fl, num))), R.RI64(RuntimeNumber(fl, num).value))
            <==> IsI64Numeral(num)
  {
    if num.frac == [] && num.exp == [] {
      ParsesIntegers(num);
    } else {
      RefusesNonIntegers(num);
    }
  }

  lemma ReadsNumeral(fl: Floats, input: Bytes, at: nat, num: Numeral)
    requires Located(input, at, DNumber(num))
    ensures R.AsI64(fl, input, at) ==
            match RuntimeNumber(fl, num)
            case Some(n) => Ok(n)
            case None => Malformed
  {
    ReadsNumber(input, at, num);
  }

  // ----- Loading a path

  /** A number the host holds as a float. */
  predicate IsFloat(v: H.NativeVal) {
    v.VF64?
  }

  lemma NoLeadingBlank(input: Bytes, p: nat, d: Doc)
    requires Located(input, p, d)
    ensures p < |input| && input[p] == Print(d)[0] && SkipWs(input, p) == p
  {
    PrintNonEmpty(d);
  }

  lemma Classifies(fl: Floats, input: Bytes, p: nat, d: Doc)
    requires Located(input, p, d) && Faithful(d)
    requires !IsFloat(H.NativeOf(Tree(fl, d)))
    ensures R.Classify(fl, input, p).Ok?
    ensures SameValue(fl, input, H.NativeOf(Tree(fl, d)), R.Classify(fl, input, p).value)
  {
    NoLeadingBlank(input, p, d);
    if d.DNumber? {
      ClassifiesNumber(fl, input, p, d.num);
    } else {
      hide SkipWs, AsStr, R.AsF64, R.AsI64, WellEscaped, AllWs, Faithful, Tree;
      if d.DString? {
        PlainString(fl, d);
        ReadsString(input, p, d.raw);
      } else if IsArrayDoc(d) {
        ContainerTrees(fl, d);
      } else if IsObjectDoc(d) {
        ContainerTrees(fl, d);
      } else {
        ScalarTrees(fl, d);
      }
    }
  }

  lemma PlainString(fl: Floats, d: Doc)
    requires d.DString? && Faithful(d)
    ensures !HasUnicodeEscape(d.raw) && Tree(fl, d) == String(d.raw)
  {
    PlainHasNoUnicode(d.raw);
  }

  lemma ScalarTrees(fl: Floats, d: Doc)
    ensures d.DNull? ==> Tree(fl, d) == Null
    ensures d.DBool? ==> Tree(fl, d) == Bool(d.b)
  {
  }

  lemma ContainerTrees(fl: Floats, d: Doc)
    ensures IsArrayDoc(d) <==> Tree(fl, d).Array?
    ensures IsObjectDoc(d) <==> Tree(fl, d).Object?
  {
  }

  lemma ClassifiesNumber(fl: Floats, input: Bytes, p: nat, num: Numeral)
    requires Located(input, p, DNumber(num)) && IsI64Numeral(num)
    ensures R.Classify(fl, input, p) == Ok(R.RI64(IntegerValue(num)))
  {
    NoLeadingBlank(input, p, DNumber(num));
    hide SkipWs, R.AsF64, R.ParseI64, R.AsI64;
    NumeralBytes(num);
    ReadsNumeral(fl, input, p, num);
    ParsesIntegers(num);
  }

  /** The host's value at the end of a path; a missing key ends it with null. */
  function Follow(v: Value, segs: seq<Bytes>): H.NativeVal
    decreases |segs|
  {
    if segs == [] then H.NativeOf(v)
    else
      match Get(v, segs[0])
      case None => H.VNull
      case Some(w) => Follow(w, segs[1..])
  }

  lemma ResolveStep(fl: Floats, input: Bytes, at: nat, d: Doc, segs: seq<Bytes>)
    requires Located(input, at, d) && Faithful(d) && segs != [] && at <= |input|
    ensures DocGet(d, segs[0]).Some? ==>
              Located(input, at + DocGet(d, segs[0]).value.0, DocGet(d, segs[0]).value.1) &&
              at + DocGet(d, segs[0]).value.0 <= |input|
    ensures R.Resolve(input, at, segs) ==
            if DocGet(d, segs[0]).None? then Ok(None)
            else R.Resolve(input, at + DocGet(d, segs[0]).value.0, segs[1..])
  {
    hide FindPath, Located, Print, Faithful, Tree, DocGet;
    LooksUp(fl, input, at, d, segs[0]);
  }

  /** `Resolve` on bytes finds what `Follow` finds on the tree; `e` is the value at the path's end. */
  lemma {:induction false} ResolvesPath(fl: Floats, input: Bytes, at: nat, d: Doc, segs: seq<Bytes>) returns (e: Doc)
    requires Located(input, at, d) && Faithful(d) && at <= |input|
    ensures R.Resolve(input, at, segs).Ok?
    ensures R.Resolve(input, at, segs).value.None? ==> Follow(Tree(fl, d), segs) == H.VNull
    ensures R.Resolve(input, at, segs).value.Some? ==>
              Located(input, R.Resolve(input, at, segs).value.value, e) && Faithful(e) &&
              Follow(Tree(fl, d), segs) == H.NativeOf(Tree(fl, e))
    decreases |segs|
  {
    hide FindPath, Located, Print, Faithful, Tree, DocGet, Get, H.NativeOf;
    e := d;
    if segs != [] {
      ResolveStep(fl, input, at, d, segs);
      DocGetIsGet(fl, d, segs[0]);
      var m := DocGet(d, segs[0]);
      if m.Some? {
        e := ResolvesPath(fl, input, at + m.value.0, m.value.1, segs[1..]);
      }
    }
  }

  /** The path operand means the same to both machines: every segment is UTF-8 and only the last key
    * may be missing. */
  predicate PathShared(ir: Bytes, ip: nat, n: nat, cursor: Value)
    decreases n
  {
    n > 0 ==>
      match BlobAt(ir, ip)
      case None => true
      case Some((seg, next)) =>
        ValidUtf8(seg) &&
        match Get(cursor, seg)
        case None => n == 1
        case Some(v) => PathShared(ir, next, n - 1, v)
  }

  lemma {:induction false} WalksPath(ir: Bytes, ip: nat, n: nat, cursor: Value, sofar: seq<Bytes>)
    requires PathShared(ir, ip, n, cursor) && |sofar| + n <= MAX_SEGMENTS
    ensures R.Segments(ir, ip, n, sofar).None? ==> H.Walk(ir, ip, n, cursor).Failed?
    ensures R.Segments(ir, ip, n, sofar).Some? ==>
              var (all, next) := R.Segments(ir, ip, n, sofar).value;
              && |all| == |sofar| + n
              && all[..|sofar|] == sofar
              && H.Walk(ir, ip, n, cursor) == H.Done((Follow(cursor, all[|sofar|..]), next))
    decreases n
  {
    hide ValidUtf8, BlobAt, Get;
    if n == 0 {
      assert sofar[..|sofar|] == sofar;
    } else if BlobAt(ir, ip).Some? {
      var (seg, next) := BlobAt(ir, ip).value;
      var deeper := sofar + [seg];
      if Get(cursor, seg).Some? {
        WalksPath(ir, next, n - 1, Get(cursor, seg).value, deeper);
        if R.Segments(ir, ip, n, sofar).Some? {
          var all := R.Segments(ir, ip, n, sofar).value.0;
          assert all[..|sofar|] == all[..|deeper|][..|sofar|] == sofar;
          assert all[|sofar|] == all[..|deeper|][|sofar|] == seg;
          var tail := all[|sofar|..];
          assert tail[0] == seg && tail[1..] == all[|deeper|..];
        }
      } else {
        assert R.Segments(ir, next, 0, deeper) == Some((deeper, next));
        assert deeper[|sofar|..] == [seg];
      }
    }
  }

  /** Where the host stops reading a path operand: at the runtime's instruction pointer exactly when
    * no key before the last one is missing, and short of it otherwise. */
  predicate OnlyLastMissing(v: Value, segs: seq<Bytes>)
    decreases |segs|
  {
    |segs| >= 2 ==> Get(v, segs[0]).Some? && OnlyLastMissing(Get(v, segs[0]).value, segs[1..])
  }

  lemma {:induction false} HostStopsShort(ir: Bytes, ip: nat, n: nat, cursor: Value, sofar: seq<Bytes>)
    requires R.Segments(ir, ip, n, sofar).Some?
    requires forall s | s in R.Segments(ir, ip, n, sofar).value.0[|sofar|..] :: ValidUtf8(s)
    ensures
      var (all, next) := R.Segments(ir, ip, n, sofar).value;
      && |all| == |sofar| + n
      && H.Walk(ir, ip, n, cursor).Done?
      && H.Walk(ir, ip, n, cursor).value.1 <= next
      && (H.Walk(ir, ip, n, cursor).value.1 == next <==> OnlyLastMissing(cursor, all[|sofar|..]))
    decreases n
  {
    hide ValidUtf8, BlobAt, Get;
    SegmentsExtend(ir, ip, n, sofar);
    if n > 0 {
      var (seg, next) := BlobAt(ir, ip).value;
      var deeper := sofar + [seg];
      SegmentsExtend(ir, next, n - 1, deeper);
      var all := R.Segments(ir, ip, n, sofar).value.0;
      var tail := all[|sofar|..];
      assert all[|sofar|] == all[..|deeper|][|sofar|] == seg;
      assert tail[0] == seg && tail[1..] == all[|deeper|..];
      assert seg in tail;
      if Get(cursor, seg).Some? {
        forall s | s in all[|deeper|..] ensures ValidUtf8(s) {
          assert s in tail[1..];
        }
        HostStopsShort(ir, next, n - 1, Get(cursor, seg).value, deeper);
      }
    }
  }

  lemma {:induction false} SegmentsExtend(ir: Bytes, ip: nat, n: nat, sofar: seq<Bytes>)
    requires R.Segments(ir, ip, n, sofar).Some?
    ensures
      var (all, next) := R.Segments(ir, ip, n, sofar).value;
      |all| == |sofar| + n && all[..|sofar|] == sofar && ip <= next && (n > 0 ==> ip < next)
    decreases n
  {
    hide BlobAt;
    if n == 0 {
      assert sofar[..|sofar|] == sofar;
    } else {
      var (seg, next) := BlobAt(ir, ip).value;
      SegmentsExtend(ir, next, n - 1, sofar + [seg]);
      var all := R.Segments(ir, ip, n, sofar).value.0;
      assert all[..|sofar|] == all[..|sofar| + 1][..|sofar|] == sofar;
      assert BlobAt(ir, ip).Some? && ip < next;
    }
  }
}
