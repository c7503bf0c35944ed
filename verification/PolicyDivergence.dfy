/** One rule on which the two interpreters part: `caller.a.b == null`, asked of a caller without `a`. */
module PolicyDivergence {
  import opened Wrappers
  import opened JsonText
  import opened JsonValue
  import opened JsonReader
  import opened JsonReaderProofs
  import opened PolicyIr
  import opened PolicyRefinement
  import opened PolicySimulation
  import H = PolicyHost
  import R = PolicyRuntime

  const A: Bytes := [0x61]
  const B: Bytes := [0x62]

  /** One table entry for reading, then the rule: load `caller.a.b`, push null, compare, return. */
  const RULE: Bytes := [1, READ, 0, 0, LOAD_CALLER, 2, 1, 0, 0x61, 1, 0, 0x62, LIT_NULL, EQ, RESULT]
  const ENTRY: nat := 4
  const SECTION: Bytes := MAGIC + [15, 0, 0, 0] + RULE

  lemma Selected()
    ensures Payload(SECTION) == Some(RULE) && Dispatch(RULE, READ) == Enter(ENTRY)
  {
    assert SECTION[4..8] == [15, 0, 0, 0];
    assert SECTION[8..23] == RULE;
    assert LittleEndian([15, 0, 0, 0]) == 15 by {
      assert [15, 0, 0, 0][1..] == [0, 0, 0];
      assert [0, 0, 0][1..] == [0, 0] && [0, 0][1..] == [0];
    }
    assert Selects(READ, READ);
  }

  lemma Operands()
    ensures BlobAt(RULE, 6) == Some((A, 9)) && BlobAt(RULE, 9) == Some((B, 12))
    ensures R.Segments(RULE, 6, 2, []) == Some(([A, B], 12))
  {
    assert RULE[8..9] == A && RULE[11..12] == B;
    assert [] + [A] == [A] && [A] + [B] == [A, B];
  }

  lemma HostSteps(env: H.Env)
    requires env.ir == RULE && H.Walk(RULE, 6, 2, env.caller) == H.Done((H.VNull, 9))
    ensures H.StepAt(env, H.State(4, [])) == Go(H.State(9, [H.VNull]))
    ensures H.StepAt(env, H.State(9, [H.VNull])) == Go(H.State(10, [H.VNull, H.VNull]))
    ensures H.StepAt(env, H.State(10, [H.VNull, H.VNull])) == Fault(H.UnknownOpcode(0))
  {
    hide H.Walk, H.Comparison, H.Logic, H.Membership, H.Call, H.Terminal, BlobAt, Word64At;
    var none: seq<H.NativeVal> := [];
    assert none + [H.VNull] == [H.VNull];
    assert [H.VNull] + [H.VNull] == [H.VNull, H.VNull];
    assert RULE[4] == LOAD_CALLER && RULE[9] == LIT_NULL && RULE[10] == 0;
    assert ByteAtIp(RULE, 5) == Some((2, 6));
  }

  /** The host leaves the second segment unread and runs into its length bytes. */
  lemma HostFails(env: H.Env)
    requires env.ir == RULE && Get(env.caller, A).None?
    ensures H.RunFrom(env, H.State(ENTRY, [])) == H.Failed(H.UnknownOpcode(0))
  {
    hide H.StepAt, BlobAt;
    Operands();
    HostSteps(env);
    assert H.RunFrom(env, H.State(10, [H.VNull, H.VNull])) == H.Failed(H.UnknownOpcode(0));
    assert H.RunFrom(env, H.State(9, [H.VNull])) == H.Failed(H.UnknownOpcode(0));
  }

  lemma RuntimeSteps(env: R.Env)
    requires env.ir == RULE && R.WellPlaced(env)
    requires R.LoadedValue(env, env.callerAt, [A, B]) == Ok(R.RNull)
    requires R.Segments(RULE, 6, 2, []) == Some(([A, B], 12))
    ensures R.StepAt(env, R.Machine(4, [])) == Go(R.Machine(12, [R.RNull]))
    ensures R.StepAt(env, R.Machine(12, [R.RNull])) == Go(R.Machine(13, [R.RNull, R.RNull]))
    ensures R.StepAt(env, R.Machine(13, [R.RNull, R.RNull])) == Go(R.Machine(14, [R.RBool(true)]))
    ensures R.StepAt(env, R.Machine(14, [R.RBool(true)])) == Halt(true)
  {
    hide R.LoadedValue, R.Segments, R.Logic, R.Membership, R.Call, BlobAt, Word64At;
    var none: seq<R.Val> := [];
    assert none + [R.RNull] == [R.RNull] && none + [R.RBool(true)] == [R.RBool(true)];
    assert [R.RNull] + [R.RNull] == [R.RNull, R.RNull] && [R.RNull, R.RNull][..0] == none;
    assert RULE[4] == LOAD_CALLER && RULE[12] == LIT_NULL && RULE[13] == EQ && RULE[14] == RESULT;
    assert ByteAtIp(RULE, 5) == Some((2, 6));
  }

  /** The runtime reads both segments, loads null, and finds it equal to null. */
  lemma RuntimeAllows(env: R.Env)
    requires env.ir == RULE && R.WellPlaced(env)
    requires R.LoadedValue(env, env.callerAt, [A, B]) == Ok(R.RNull)
    ensures R.RunFrom(env, R.Machine(ENTRY, [])) == Ok(true)
  {
    hide R.StepAt, R.LoadedValue;
    Operands();
    RuntimeSteps(env);
    assert R.RunFrom(env, R.Machine(14, [R.RBool(true)])) == Ok(true);
    assert R.RunFrom(env, R.Machine(13, [R.RNull, R.RNull])) == Ok(true);
  }

  /** For every layout of every request to read, by a caller without `a`, the host fails with an unknown
    * opcode and the runtime allows. */
  lemma VerdictsPart(fl: Floats, before: Space, wire: Members, after: Space, caller: Doc, record: Doc)
    requires FaithfulMembers(wire) && IsObjectDoc(caller) && IsObjectDoc(record)
    requires MemberAt(wire, CALLER).Some? && MemberAt(wire, CALLER).value.1 == caller
    requires MemberAt(wire, RECORD).Some? && MemberAt(wire, RECORD).value.1 == record
    requires MemberAt(wire, ACTION).Some? && MemberAt(wire, ACTION).value.1.DString?
    requires MemberAt(wire, ACTION).value.1.raw == [0x72, 0x65, 0x61, 0x64]
    requires Get(Tree(fl, caller), A).None?
    ensures H.Verdict(fl, SECTION, Tree(fl, caller), Tree(fl, record), READ) == H.Failed(H.UnknownOpcode(0))
    ensures R.Evaluation(fl, WireText(before, wire, after), SECTION) == R.Allow
  {
    hide FindPath, Located, Faithful, FaithfulMembers, Tree, Dispatch, WireText, MemberAt, Print, Payload, Get,
      H.RunFrom, R.RunFrom, R.LoadedValue;
    var text := WireText(before, wire, after);
    Selected();
    FindsRoot(fl, before, wire, after, CALLER);
    FindsRoot(fl, before, wire, after, RECORD);
    WireActionRead(fl, before, wire, after, [0x72, 0x65, 0x61, 0x64]);
    var env := R.Env(fl, RULE, text, R.RootAt(text, CALLER), R.RootAt(text, RECORD));
    HostFails(H.Env(fl, RULE, Tree(fl, caller), Tree(fl, record)));
    assert Follow(Tree(fl, caller), [A, B]) == H.VNull;
    SameLoaded(env, env.callerAt.value, caller, [A, B]);
    RuntimeAllows(env);
  }

  // ----- A request that meets those conditions

  const NOTHING: Doc := DEmptyObject([])
  const READING: Members := LastMember([], ACTION, [], [], DString([0x72, 0x65, 0x61, 0x64]), [])
  const OF_RECORD: Members := Member([], RECORD, [], [], NOTHING, [], READING)

  /** `{"caller":{},"record":{},"action":"read"}` */
  const SMALLEST: Members := Member([], CALLER, [], [], NOTHING, [], OF_RECORD)

  lemma SmallestIsPlain()
    ensures FaithfulMembers(SMALLEST)
    ensures MemberAt(SMALLEST, CALLER).Some? && MemberAt(SMALLEST, CALLER).value.1 == NOTHING
    ensures MemberAt(SMALLEST, RECORD).Some? && MemberAt(SMALLEST, RECORD).value.1 == NOTHING
    ensures MemberAt(SMALLEST, ACTION).Some? && MemberAt(SMALLEST, ACTION).value.1 == READING.doc
  {
    hide PrintKey, Print, WellEscaped;
    assert CALLER[0] != RECORD[0] && CALLER[0] != ACTION[0] && RECORD[0] != ACTION[0];
    assert MemberAt(READING, ACTION).Some? && MemberAt(READING, ACTION).value.1 == READING.doc;
    assert MemberAt(OF_RECORD, ACTION).Some? && MemberAt(OF_RECORD, ACTION).value.1 == READING.doc;
    assert !HasKey(READING, RECORD) && !HasKey(READING, CALLER) && !HasKey(OF_RECORD, CALLER);
    assert FaithfulMembers(READING);
    assert FaithfulMembers(OF_RECORD);
  }

  lemma SmallestParts(fl: Floats)
    ensures H.Verdict(fl, SECTION, Object(map[]), Object(map[]), READ) == H.Failed(H.UnknownOpcode(0))
    ensures R.Evaluation(fl, WireText([], SMALLEST, []), SECTION) == R.Allow
  {
    hide FaithfulMembers, MemberAt, H.Verdict, R.Evaluation;
    SmallestIsPlain();
    VerdictsPart(fl, [], SMALLEST, [], NOTHING, NOTHING);
  }
}
