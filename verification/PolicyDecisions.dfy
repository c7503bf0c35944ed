/** Whole policies: from rules in the policy language, through the bytecode section, to the verdict of either
  * interpreter. */
module PolicyDecisions {
  import opened Wrappers
  import opened JsonText
  import opened JsonValue
  import opened JsonReader
  import opened JsonReaderProofs
  import opened PolicyIr
  import opened CslSyntax
  import opened PolicyRefinement
  import opened PolicySimulation
  import opened PolicyMeaning
  import opened PolicyCompiler
  import opened PolicyDecoding
  import opened PolicyCompiled
  import opened PolicyEnforced
  import H = PolicyHost
  import R = PolicyRuntime

  // ----- The action table

  lemma {:induction false} EntriesOfRules(fl: Floats, rules: seq<PolicyRule>)
    requires Entries(fl, rules).Some?
    ensures |Entries(fl, rules).value| == |rules|
    ensures forall k :: 0 <= k < |rules| ==>
              && Entries(fl, rules).value[k].mask == Mask(rules[k].actions)
              && Stream(fl, rules[k]) == Some(Entries(fl, rules).value[k].stream)
  {
    hide Mask, Stream;
    if rules != [] {
      EntriesOfRules(fl, rules[1..]);
    }
  }

  lemma {:induction false} RowReads(entries: seq<Entry>, offset: nat, k: nat)
    requires k < |entries| && offset + |Streams(entries)| <= 65535
    ensures
      var table := Table(entries, offset);
      && table[3 * k] == entries[k].mask as int
      && Pair(table[3 * k + 1], table[3 * k + 2]) == offset + |Streams(entries[..k])|
  {
    hide LeBytes, Pair;
    var row := [entries[0].mask as int] + LeBytes(offset, 2);
    var rest := Table(entries[1..], offset + |entries[0].stream|);
    var table := Table(entries, offset);
    assert table == row + rest;
    if k == 0 {
      PairReads(offset);
      assert table[1] == LeBytes(offset, 2)[0] && table[2] == LeBytes(offset, 2)[1];
      assert entries[..0] == [];
    } else {
      RowReads(entries[1..], offset + |entries[0].stream|, k - 1);
      assert table[3 * k] == rest[3 * (k - 1)] && table[3 * k + 1] == rest[3 * (k - 1) + 1]
             && table[3 * k + 2] == rest[3 * (k - 1) + 2];
      assert entries[..k] == [entries[0]] + entries[1..][..k - 1];
      StreamsJoin([entries[0]], entries[1..][..k - 1]);
      assert [entries[0]][1..] == [];
    }
  }

  lemma StreamStands(entries: seq<Entry>, k: nat)
    requires k < |entries|
    ensures CodeAt(Streams(entries), |Streams(entries[..k])|, entries[k].stream)
  {
    var before, after := Streams(entries[..k]), Streams(entries[k + 1..]);
    assert entries == entries[..k] + entries[k..] && entries[k..] == [entries[k]] + entries[k + 1..];
    StreamsJoin(entries[..k], entries[k..]);
    assert entries[k..][1..] == entries[k + 1..];
    assert Streams(entries) == before + (entries[k].stream + after);
  }

  lemma StandsBehind(head: Bytes, ir: Bytes, ip: nat, code: Bytes)
    requires CodeAt(ir, ip, code)
    ensures CodeAt(head + ir, |head| + ip, code)
  {
    assert (head + ir)[|head| + ip..|head| + ip + |code|] == ir[ip..ip + |code|];
  }

  /** A section's body: what the compiler emits for the rules. */
  predicate Body(fl: Floats, rules: seq<PolicyRule>, ir: Bytes, entries: seq<Entry>) {
    && Entries(fl, rules) == Some(entries)
    && |entries| <= 255 && |Streams(entries)| <= 65535
    && ir == [|entries|] + Table(entries, 0) + Streams(entries)
  }

  lemma RowAt(fl: Floats, rules: seq<PolicyRule>, ir: Bytes, entries: seq<Entry>, k: nat)
    requires Body(fl, rules, ir, entries) && k < |rules|
    ensures |entries| == |rules| && |ir| >= 1 + 3 * |rules| && ir[0] as int == |rules|
    ensures ir[1 + 3 * k] == Mask(rules[k].actions) as int
    ensures
      var entry := 1 + 3 * |rules| + Pair(ir[2 + 3 * k], ir[3 + 3 * k]);
      Stream(fl, rules[k]).Some? && CodeAt(ir, entry, Stream(fl, rules[k]).value)
  {
    hide LeBytes, Pair, Mask, Stream, Streams, Table, CodeAt;
    EntriesOfRules(fl, rules);
    RowReads(entries, 0, k);
    var table := Table(entries, 0);
    var head := [|entries|] + table;
    assert ir[1 + 3 * k] == table[3 * k] && ir[2 + 3 * k] == table[3 * k + 1] && ir[3 + 3 * k] == table[3 * k + 2];
    StreamStands(entries, k);
    StandsBehind(head, Streams(entries), |Streams(entries[..k])|, entries[k].stream);
  }

  lemma SelectsBits(m: bv8, mask: byte, bit: byte)
    requires mask == m as int && mask as bv8 == m
    ensures Selects(mask, bit) <==> m & (bit as bv8) != 0
  {
  }

  lemma MaskSelectsByte(actions: seq<Action>, a: Action)
    ensures (Mask(actions) as int) < 256 && (Selects(Mask(actions) as int, Bit(a)) <==> a in actions)
  {
    hide Mask, Bit, Selects;
    var m := Mask(actions);
    MaskByte(m);
    MaskSelects(actions, a);
    SelectsBits(m, m as int, Bit(a));
  }

  /** The table is searched as the rules are. */
  lemma {:induction false} TableSearched(fl: Floats, rules: seq<PolicyRule>, ir: Bytes, entries: seq<Entry>, i: nat,
                                         a: Action)
    requires Body(fl, rules, ir, entries) && i <= |rules| && |ir| >= 1 + 3 * |rules|
    ensures
      var k := FirstFor(rules, i, a);
      && (k == |rules| ==> FirstRule(ir, i, |rules|, Bit(a)) == NoRule)
      && (k < |rules| ==>
            FirstRule(ir, i, |rules|, Bit(a)) == Enter(1 + 3 * |rules| + Pair(ir[2 + 3 * k], ir[3 + 3 * k])))
    decreases |rules| - i
  {
    hide Body, Selects, Pair, Mask, Bit;
    if i < |rules| {
      RowAt(fl, rules, ir, entries, i);
      MaskSelectsByte(rules[i].actions, a);
      TableSearched(fl, rules, ir, entries, i + 1, a);
    }
  }

  /** Which code an action enters: that of the first rule that speaks of it. */
  lemma EntersRule(fl: Floats, rules: seq<PolicyRule>, ir: Bytes, a: Action)
    requires LowerRules(fl, rules) == Some(ir)
    ensures
      var k := FirstFor(rules, 0, a);
      if k == |rules| then Dispatch(ir, Bit(a)) == NoRule
      else
        && Dispatch(ir, Bit(a)).Enter? && LowerExpr(fl, rules[k].condition).Some?
        && CodeAt(ir, Dispatch(ir, Bit(a)).ip, LowerExpr(fl, rules[k].condition).value + [RESULT])
  {
    hide Mask, Streams, Table, CodeAt, Bit, Selects, Pair, LowerExpr, Entries;
    var entries := Entries(fl, rules).value;
    var k := FirstFor(rules, 0, a);
    if rules == [] {
      NoEntries(fl);
      assert ir[0] == 0;
    } else {
      RowAt(fl, rules, ir, entries, 0);
      TableSearched(fl, rules, ir, entries, 0, a);
      if k < |rules| {
        RowAt(fl, rules, ir, entries, k);
      }
    }
  }

  lemma NoEntries(fl: Floats)
    ensures Entries(fl, []) == Some([])
  {
  }

  // ----- The host

  predicate Decides(v: H.Checked<bool>, decision: Option<bool>) {
    match decision
    case Some(b) => v == H.Done(b)
    case None => v.Failed?
  }

  lemma ResultStep(env: H.Env, ip: nat, v: Value)
    requires CodeAt(env.ir, ip, [RESULT])
    ensures H.RunFrom(env, H.State(ip, [H.NativeOf(v)])) ==
            if v.Bool? then H.Done(v.b) else H.Failed(H.TypeMismatch)
  {
    ByteReads(env.ir, ip, RESULT);
    hide CodeAt;
  }

  lemma RuleDecides(env: H.Env, e: Expr, code: Bytes, ip: nat)
    requires LowerExpr(env.fl, e) == Some(code) && CodeAt(env.ir, ip, code + [RESULT])
    requires PathsReach(e, env.caller, env.record)
    ensures Decides(H.RunFrom(env, H.State(ip, [])),
                    match Fitting(0, Depth(e), Meaning(env.fl, e, env.caller, env.record))
                    case Some(Bool(b)) => Some(b)
                    case _ => None)
  {
    hide CodeAt, LowerExpr, Meaning, PathsReach, H.RunFrom, H.NativeOf;
    CodeSplits(env.ir, ip, code, [RESULT]);
    CodeRuns(env, e, code, ip, []);
    var m := Fitting(0, Depth(e), Meaning(env.fl, e, env.caller, env.record));
    if m.Some? {
      assert [] + [H.NativeOf(m.value)] == [H.NativeOf(m.value)];
      ResultStep(env, ip + |code|, m.value);
    }
  }

  /** What the compiler emits for a policy, run by the host interpreter for any of the four actions, decides as the
    * first rule for the action says, provided that on the rule's paths only the last key may be missing; whatever
    * bytes follow the section. */
  lemma HostDecides(fl: Floats, rules: seq<PolicyRule>, section: Bytes, padding: Bytes, caller: Value, record: Value,
                    a: Action)
    requires LowerPolicy(fl, rules) == Some(section)
    requires
      var k := FirstFor(rules, 0, a);
      k < |rules| ==> PathsReach(rules[k].condition, caller, record)
    ensures Decides(H.Verdict(fl, section + padding, caller, record, Bit(a)), Decision(fl, rules, caller, record, a))
  {
    hide LeBytes, LowerRules, Payload, Dispatch, CodeAt, LowerExpr, Meaning, PathsReach, H.RunFrom, Bit;
    var ir := LowerRules(fl, rules).value;
    BodySmall(fl, rules);
    HeaderReads(ir, padding);
    HeaderShape(section + padding);
    EntersRule(fl, rules, ir, a);
    var k := FirstFor(rules, 0, a);
    if k < |rules| {
      var e := rules[k].condition;
      RuleDecides(H.Env(fl, ir, caller, record), e, LowerExpr(fl, e).value, Dispatch(ir, Bit(a)).ip);
    }
  }

  lemma BodySmall(fl: Floats, rules: seq<PolicyRule>)
    requires LowerRules(fl, rules).Some?
    ensures |LowerRules(fl, rules).value| < 0x1_0000_0000
  {
    hide Entries, Streams, Table;
  }

  // ----- The runtime

  predicate Enforces(v: R.Verdict, decision: Option<bool>) {
    match decision
    case Some(true) => v == R.Allow
    case Some(false) => v == R.Deny
    case None => v == R.Error
  }

  lemma ResultEnforced(rEnv: R.Env, ip: nat, v: Value, rs: seq<R.Val>)
    requires R.WellPlaced(rEnv) && CodeAt(rEnv.ir, ip, [RESULT])
    requires SameStack(rEnv.fl, rEnv.input, [H.NativeOf(v)], rs)
    ensures R.RunFrom(rEnv, R.Machine(ip, rs)) == if v.Bool? then Ok(v.b) else Malformed
  {
    ByteReads(rEnv.ir, ip, RESULT);
    TopStands(rEnv.fl, rEnv.input, v, rs);
    hide CodeAt, SameStack, SameValue;
  }

  lemma TopStands(fl: Floats, input: Bytes, v: Value, rs: seq<R.Val>)
    requires SameStack(fl, input, [H.NativeOf(v)], rs)
    ensures |rs| == 1 && (rs[0].RBool? <==> v.Bool?) && (v.Bool? ==> rs[0].b == v.b)
  {
    assert SameValue(fl, input, [H.NativeOf(v)][0], rs[0]);
    hide Located, Faithful, Tree;
  }

  lemma RuleEnforces(hEnv: H.Env, rEnv: R.Env, caller: Doc, record: Doc, e: Expr, code: Bytes, ip: nat)
    requires Linked(hEnv, rEnv, caller, record)
    requires LowerExpr(hEnv.fl, e) == Some(code) && CodeAt(hEnv.ir, ip, code + [RESULT])
    requires Reads(hEnv.fl, e, hEnv.caller, hEnv.record)
    ensures R.WellPlaced(rEnv)
    ensures Enforces(R.RuleVerdict(rEnv, ip),
                     match Fitting(0, Depth(e), Meaning(hEnv.fl, e, hEnv.caller, hEnv.record))
                     case Some(Bool(b)) => Some(b)
                     case _ => None)
  {
    hide Linked, LowerExpr, Meaning, Reads, R.RunFrom, H.NativeOf;
    SameCode(hEnv, rEnv, caller, record);
    CodeSplits(hEnv.ir, ip, code, [RESULT]);
    assert ip < |rEnv.ir|;
    hide CodeAt;
    NoneStand(hEnv.fl, rEnv.input);
    CodeEnforced(hEnv, rEnv, caller, record, e, code, ip, [], []);
    var m := Fitting(0, Depth(e), Meaning(hEnv.fl, e, hEnv.caller, hEnv.record));
    if m.Some? {
      var rs := StackOf(rEnv, ip, ip + |code|, [], [], m.value);
      assert [] + [H.NativeOf(m.value)] == [H.NativeOf(m.value)];
      ResultEnforced(rEnv, ip + |code|, m.value, rs);
    }
  }

  lemma NoneStand(fl: Floats, input: Bytes)
    ensures SameStack(fl, input, [], [])
  {
  }

  lemma ActionRead(a: Action)
    ensures ActionBitFor(Bytes8(ActionName(a))) == Some(Bit(a))
  {
    hide Bytes8;
    match a {
      case ToRead => KeyText("read", [0x72, 0x65, 0x61, 0x64]);
      case ToList => KeyText("list", [0x6C, 0x69, 0x73, 0x74]);
      case ToWrite => KeyText("write", [0x77, 0x72, 0x69, 0x74, 0x65]);
      case ToDelete => KeyText("delete", [0x64, 0x65, 0x6C, 0x65, 0x74, 0x65]);
    }
  }

  lemma WireKeys()
    ensures Bytes8("caller") == CALLER && Bytes8("record") == RECORD && Bytes8("action") == ACTION
  {
    hide Bytes8;
    KeyText("caller", CALLER);
    KeyText("record", RECORD);
    KeyText("action", ACTION);
  }

  /** The request: an object with the caller, the record and the action under their keys, among others, in any order
    * and layout. */
  predicate Asks(wire: Members, caller: Doc, record: Doc, a: Action) {
    && FaithfulMembers(wire) && IsObjectDoc(caller) && IsObjectDoc(record)
    && MemberAt(wire, Bytes8("caller")).Some? && MemberAt(wire, Bytes8("caller")).value.1 == caller
    && MemberAt(wire, Bytes8("record")).Some? && MemberAt(wire, Bytes8("record")).value.1 == record
    && MemberAt(wire, Bytes8("action")).Some? && MemberAt(wire, Bytes8("action")).value.1.DString?
    && MemberAt(wire, Bytes8("action")).value.1.raw == Bytes8(ActionName(a))
  }

  /** What is left to do once the request has been looked through. */
  lemma RequestRead(fl: Floats, section: Bytes, ir: Bytes, before: Space, wire: Members, after: Space, caller: Doc,
                    record: Doc, a: Action) returns (rEnv: R.Env)
    requires Payload(section) == Some(ir) && Asks(wire, caller, record, a)
    ensures Linked(H.Env(fl, ir, Tree(fl, caller), Tree(fl, record)), rEnv, caller, record) && R.WellPlaced(rEnv)
    ensures
      var v := R.Evaluation(fl, WireText(before, wire, after), section);
      && (Dispatch(ir, Bit(a)).NoRule? ==> v == R.Deny)
      && (Dispatch(ir, Bit(a)).Enter? ==> v == R.RuleVerdict(rEnv, Dispatch(ir, Bit(a)).ip))
  {
    hide Payload, Dispatch, R.RuleVerdict, Bit, FindPath, Located, Faithful, FaithfulMembers, Tree, WireText, MemberAt, Print,
      Bytes8, ActionBitFor;
    WireKeys();
    ActionRead(a);
    var text := WireText(before, wire, after);
    FindsRoot(fl, before, wire, after, CALLER);
    FindsRoot(fl, before, wire, after, RECORD);
    WireActionRead(fl, before, wire, after, Bytes8(ActionName(a)));
    DispatchShape(ir, Bit(a));
    rEnv := R.Env(fl, ir, text, R.RootAt(text, CALLER), R.RootAt(text, RECORD));
  }

  /** What the compiler emits for a policy, run by the runtime on the bytes of the request, allows, denies or errs as
    * the first rule for the action says of the caller and the record in it; whatever bytes follow the section. */
  lemma RuntimeDecides(fl: Floats, rules: seq<PolicyRule>, section: Bytes, padding: Bytes, before: Space, wire: Members,
                       after: Space, caller: Doc, record: Doc, a: Action)
    requires LowerPolicy(fl, rules) == Some(section) && Asks(wire, caller, record, a)
    requires
      var k := FirstFor(rules, 0, a);
      k < |rules| ==> Reads(fl, rules[k].condition, Tree(fl, caller), Tree(fl, record))
    ensures Enforces(R.Evaluation(fl, WireText(before, wire, after), section + padding),
                     Decision(fl, rules, Tree(fl, caller), Tree(fl, record), a))
  {
    hide LeBytes, LowerRules, Payload, Dispatch, CodeAt, LowerExpr, Meaning, Reads, R.RuleVerdict, R.Evaluation, Bit, Linked,
      Asks, Tree, WireText;
    var ir := LowerRules(fl, rules).value;
    BodySmall(fl, rules);
    HeaderReads(ir, padding);
    EntersRule(fl, rules, ir, a);
    var rEnv := RequestRead(fl, section + padding, ir, before, wire, after, caller, record, a);
    var k := FirstFor(rules, 0, a);
    if k < |rules| {
      var e := rules[k].condition;
      var hEnv := H.Env(fl, ir, Tree(fl, caller), Tree(fl, record));
      RuleEnforces(hEnv, rEnv, caller, record, e, LowerExpr(fl, e).value, Dispatch(ir, Bit(a)).ip);
    }
  }

  // ----- Integers

  const EXACT: int := 0x20_0000_0000_0000

  /** Floats compare integers of up to 53 bits as what they are. */
  ghost predicate ExactIntegers(fl: Floats) {
    forall a, b | -EXACT <= a <= EXACT && -EXACT <= b <= EXACT ::
      (fl.lt(fl.widen(a), fl.widen(b)) <==> a < b) && (fl.le(fl.widen(a), fl.widen(b)) <==> a <= b)
  }

  /** The comparisons mean on integers what they say. */
  lemma IntegersCompare(fl: Floats, a: int, b: int)
    requires ExactIntegers(fl) && -EXACT <= a <= EXACT && -EXACT <= b <= EXACT
    ensures
      var x, y := Number(I64(a)), Number(I64(b));
      && Applied(fl, Eq, x, y) == Some(a == b) && Applied(fl, Ne, x, y) == Some(a != b)
      && Applied(fl, Lt, x, y) == Some(a < b) && Applied(fl, Le, x, y) == Some(a <= b)
      && Applied(fl, Gt, x, y) == Some(a > b) && Applied(fl, Ge, x, y) == Some(a >= b)
  {
  }
}
