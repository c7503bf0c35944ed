/** The compiler from policy predicates to bytecode: expressions in postfix order, an action table, a header. */
module PolicyCompiler {
  import opened Wrappers
  import opened JsonText
  import opened JsonValue
  import opened PolicyIr
  import opened CslSyntax
  import opened PolicyMeaning
  import Numbers
  import Printer = CslPrinter

  const U64: nat := 0x1_0000_0000_0000_0000

  /** The `k` low bytes of `n`, low byte first: `to_le_bytes`. */
  function LeBytes(n: nat, k: nat): (r: Bytes)
    ensures |r| == k
  {
    if k == 0 then [] else [n % 256] + LeBytes(n / 256, k - 1)
  }

  /** Two's complement in 64 bits. */
  function Word(n: int): nat
    requires FitsI64(n)
  {
    if n < 0 then n + U64 else n
  }

  // ----- Expressions

  /** A length-prefixed text. */
  function LowerText(s: string): Option<Bytes> {
    var bytes := Bytes8(s);
    if |bytes| > 65535 then None else Some(LeBytes(|bytes|, 2) + bytes)
  }

  function LowerLiteral(fl: Floats, lit: Literal): Option<Bytes> {
    match lit
    case LNull => Some([LIT_NULL])
    case LBool(b) => Some([LIT_BOOL, if b then 1 else 0])
    case LInteger(n) => if FitsI64(n) then Some([LIT_I64] + LeBytes(Word(n), 8)) else None
    case LFloat(text) =>
      (match fl.parse(Bytes8(text))
       case Some(f) => Some([LIT_F64] + LeBytes(f, 8))
       case None => None)
    case LString(s) =>
      (match LowerText(s)
       case Some(blob) => Some([LIT_STR] + blob)
       case None => None)
    case LDuration(_, _) => None
  }

  function LowerSegments(segs: seq<string>): Option<Bytes> {
    if segs == [] then Some([])
    else
      match (LowerText(segs[0]), LowerSegments(segs[1..]))
      case (Some(blob), Some(more)) => Some(blob + more)
      case _ => None
  }

  function LowerPath(segs: seq<string>): Option<Bytes> {
    if segs == [] || (segs[0] != "caller" && segs[0] != "self") || |segs| - 1 > 255 then None
    else
      match LowerSegments(segs[1..])
      case Some(blobs) => Some([if segs[0] == "caller" then LOAD_CALLER else LOAD_SELF, |segs| - 1] + blobs)
      case None => None
  }

  function Opcode(op: BinaryOp): Option<byte> {
    match op
    case Eq => Some(EQ)
    case Ne => Some(NE)
    case Lt => Some(LT)
    case Le => Some(LE)
    case Gt => Some(GT)
    case Ge => Some(GE)
    case And => Some(AND)
    case Or => Some(OR)
    case In => Some(IN)
    case NotIn => Some(NOT_IN)
    case _ => None
  }

  function CallOpcode(path: seq<string>): Option<byte> {
    var name := Printer.PathText(path);
    if name == "has_role" then Some(CALL_HAS_ROLE)
    else if name == "tenant_match" then Some(CALL_TENANT_MATCH)
    else None
  }

  /** `lower_expr`: what it appends, if the predicate is supported. */
  function LowerExpr(fl: Floats, e: Expr): Option<Bytes>
    decreases e
  {
    match e
    case Lit(lit) => LowerLiteral(fl, lit)
    case Path(segs) => LowerPath(segs)
    case Unary(uop, arg) =>
      (match LowerExpr(fl, arg)
       case Some(code) => if uop == CslSyntax.Not then Some(code + [NOT]) else None
       case None => None)
    case Binary(op, l, r) =>
      (match (LowerExpr(fl, l), LowerExpr(fl, r), Opcode(op))
       case (Some(a), Some(b), Some(tag)) => Some(a + b + [tag])
       case _ => None)
    case Call(path, args) =>
      if |args| != 2 then None
      else
        (match (LowerExpr(fl, args[0]), LowerExpr(fl, args[1]), CallOpcode(path))
         case (Some(a), Some(b), Some(tag)) => Some(a + b + [tag])
         case _ => None)
    case List(_) => None
  }

  method EmitPath(segs: seq<string>, before: Bytes) returns (ok: bool, out: Bytes)
    ensures ok <==> LowerPath(segs).Some?
    ensures ok ==> out == before + LowerPath(segs).value
  {
    hide LowerText;
    out := before;
    if segs == [] || (segs[0] != "caller" && segs[0] != "self") {
      return false, out;
    }
    var rest := segs[1..];
    if |rest| > 255 {
      return false, out;
    }
    var head: Bytes := [if segs[0] == "caller" then LOAD_CALLER else LOAD_SELF, |rest|];
    out := out + head;
    for i := 0 to |rest|
      invariant LowerSegments(rest).Some? <==> LowerSegments(rest[i..]).Some?
      invariant LowerSegments(rest).Some? ==>
                  (before + head) + LowerSegments(rest).value == out + LowerSegments(rest[i..]).value
    {
      assert rest[i..][1..] == rest[i + 1..];
      var blob := LowerText(rest[i]);
      if blob.None? {
        return false, out;
      }
      ghost var was := out;
      out := out + blob.value;
      assert forall more: Bytes :: was + (blob.value + more) == out + more;
    }
    assert out + [] == out;
    assert LowerSegments(rest).Some? ==> (before + head) + LowerSegments(rest).value == before + (head + LowerSegments(rest).value);
    return true, out;
  }

  /** The recursion that pushes onto `out`. */
  method EmitExpr(fl: Floats, e: Expr, before: Bytes) returns (ok: bool, out: Bytes)
    ensures ok <==> LowerExpr(fl, e).Some?
    ensures ok ==> out == before + LowerExpr(fl, e).value
    decreases e
  {
    out := before;
    match e {
      case Lit(lit) =>
        var code := LowerLiteral(fl, lit);
        if code.None? {
          return false, out;
        }
        return true, out + code.value;
      case Path(segs) => ok, out := EmitPath(segs, before);
      case Unary(uop, arg) =>
        ok, out := EmitExpr(fl, arg, out);
        if !ok || uop != CslSyntax.Not {
          return false, out;
        }
        return true, out + [NOT];
      case Binary(op, l, r) =>
        ok, out := EmitExpr(fl, l, out);
        if !ok {
          return false, out;
        }
        ok, out := EmitExpr(fl, r, out);
        if !ok || Opcode(op).None? {
          return false, out;
        }
        return true, out + [Opcode(op).value];
      case Call(path, args) =>
        if CallOpcode(path).None? || |args| != 2 {
          return false, out;
        }
        ok, out := EmitExpr(fl, args[0], out);
        if !ok {
          return false, out;
        }
        ok, out := EmitExpr(fl, args[1], out);
        if !ok {
          return false, out;
        }
        return true, out + [CallOpcode(path).value];
      case List(_) => return false, out;
    }
  }

  // ----- Rules

  function Bit(a: Action): byte {
    match a
    case ToRead => READ
    case ToList => LIST
    case ToWrite => WRITE
    case ToDelete => DELETE
  }

  function Mask(actions: seq<Action>): bv8 {
    if actions == [] then 0 else Mask(actions[..|actions| - 1]) | (Bit(actions[|actions| - 1]) as bv8)
  }

  method ActionMask(actions: seq<Action>) returns (m: bv8)
    ensures m == Mask(actions)
  {
    m := 0;
    for i := 0 to |actions|
      invariant m == Mask(actions[..i])
    {
      assert actions[..i + 1][..i] == actions[..i];
      m := m | (Bit(actions[i]) as bv8);
    }
    assert actions[..|actions|] == actions;
  }

  /** A rule's straight-line code. */
  function Stream(fl: Floats, rule: PolicyRule): Option<Bytes> {
    match LowerExpr(fl, rule.condition)
    case Some(code) => Some(code + [RESULT])
    case None => None
  }

  datatype Entry = Entry(mask: bv8, stream: Bytes)

  function Entries(fl: Floats, rules: seq<PolicyRule>): Option<seq<Entry>> {
    if rules == [] then Some([])
    else
      match (Stream(fl, rules[0]), Entries(fl, rules[1..]))
      case (Some(stream), Some(more)) => Some([Entry(Mask(rules[0].actions), stream)] + more)
      case _ => None
  }

  function Streams(entries: seq<Entry>): Bytes {
    if entries == [] then [] else entries[0].stream + Streams(entries[1..])
  }

  /** The table, each entry with its mask and where its code starts behind the table. */
  function Table(entries: seq<Entry>, offset: nat): (r: Bytes)
    ensures |r| == 3 * |entries|
  {
    if entries == [] then []
    else [entries[0].mask as int] + LeBytes(offset, 2) + Table(entries[1..], offset + |entries[0].stream|)
  }

  /** At most 255 rules and 65535 bytes of code. */
  function LowerRules(fl: Floats, rules: seq<PolicyRule>): Option<Bytes> {
    match Entries(fl, rules)
    case None => None
    case Some(entries) =>
      if |entries| > 255 || |Streams(entries)| > 65535 then None
      else Some([|entries|] + Table(entries, 0) + Streams(entries))
  }

  /** `lower_schema_to_ir`: magic, length, body. A schema without a policy has an empty table. */
  function LowerPolicy(fl: Floats, rules: seq<PolicyRule>): Option<Bytes> {
    match LowerRules(fl, rules)
    case None => None
    case Some(body) => Some(MAGIC + LeBytes(|body|, 4) + body)
  }

  /** First pass: each rule's mask and code. */
  method EmitStreams(fl: Floats, rules: seq<PolicyRule>) returns (ok: bool, entries: seq<Entry>)
    ensures ok <==> Entries(fl, rules).Some?
    ensures ok ==> entries == Entries(fl, rules).value
  {
    hide LowerExpr, Mask;
    entries := [];
    for i := 0 to |rules|
      invariant Entries(fl, rules).Some? <==> Entries(fl, rules[i..]).Some?
      invariant Entries(fl, rules).Some? ==> Entries(fl, rules).value == entries + Entries(fl, rules[i..]).value
    {
      assert rules[i..][1..] == rules[i + 1..];
      var lowered, stream := EmitExpr(fl, rules[i].condition, []);
      if !lowered {
        return false, entries;
      }
      assert stream == LowerExpr(fl, rules[i].condition).value;
      stream := stream + [RESULT];
      var mask := ActionMask(rules[i].actions);
      ghost var was := entries;
      entries := entries + [Entry(mask, stream)];
      assert forall more: seq<Entry> :: was + ([Entry(mask, stream)] + more) == entries + more;
    }
    assert entries + [] == entries;
    return true, entries;
  }

  /** Where each rule's code starts behind the table, if all of it stays below 64 KiB. */
  method EmitOffsets(entries: seq<Entry>) returns (ok: bool, offsets: seq<nat>)
    ensures ok <==> |Streams(entries)| <= 65535
    ensures ok ==> |offsets| == |entries| && forall k :: 0 <= k < |entries| ==> offsets[k] == |Streams(entries[..k])|
  {
    hide Streams;
    offsets := [];
    var running := 0;
    StreamsStart(entries);
    for i := 0 to |entries|
      invariant running <= 65535 && running + |Streams(entries[i..])| == |Streams(entries)|
      invariant |offsets| == i && running == |Streams(entries[..i])|
      invariant forall k :: 0 <= k < i ==> offsets[k] == |Streams(entries[..k])|
    {
      StreamsNext(entries, i);
      offsets := offsets + [running];
      if running + |entries[i].stream| > 65535 {
        return false, offsets;
      }
      running := running + |entries[i].stream|;
    }
    StreamsDone(entries);
    return true, offsets;
  }

  /** Second pass: the count, the table, the code of each rule. */
  method EmitLayout(entries: seq<Entry>, offsets: seq<nat>) returns (out: Bytes)
    requires |entries| <= 255 && |offsets| == |entries|
    requires forall k :: 0 <= k < |entries| ==> offsets[k] == |Streams(entries[..k])|
    ensures out == [|entries|] + Table(entries, 0) + Streams(entries)
  {
    hide Streams, LeBytes;
    out := [|entries|];
    StreamsStart(entries);
    for i := 0 to |entries|
      invariant out + Table(entries[i..], |Streams(entries[..i])|) == [|entries|] + Table(entries, 0)
    {
      StreamsNext(entries, i);
      assert entries[i..][1..] == entries[i + 1..];
      ghost var was := out;
      var row := [entries[i].mask as int] + LeBytes(offsets[i], 2);
      out := out + row;
      assert forall more: Bytes :: was + (row + more) == out + more;
    }
    assert out + [] == out;
    out := EmitCode(entries, out);
  }

  method EmitCode(entries: seq<Entry>, before: Bytes) returns (out: Bytes)
    ensures out == before + Streams(entries)
  {
    out := before;
    for i := 0 to |entries|
      invariant out + Streams(entries[i..]) == before + Streams(entries)
    {
      assert entries[i..][1..] == entries[i + 1..];
      out := out + entries[i].stream;
    }
    assert out + [] == out;
  }

  method EmitRules(fl: Floats, rules: seq<PolicyRule>) returns (r: Option<Bytes>)
    ensures r == LowerRules(fl, rules)
  {
    hide Entries, Streams, Table;
    var ok, entries := EmitStreams(fl, rules);
    if !ok || |entries| > 255 {
      return None;
    }
    var small, offsets := EmitOffsets(entries);
    if !small {
      return None;
    }
    var out := EmitLayout(entries, offsets);
    return Some(out);
  }

  lemma StreamsDone(entries: seq<Entry>)
    ensures Streams(entries[|entries|..]) == []
  {
  }

  lemma StreamsStart(entries: seq<Entry>)
    ensures entries[..0] == [] && entries[0..] == entries
    ensures Streams(entries[..0]) == [] && Streams(entries[0..]) == Streams(entries)
  {
  }

  lemma {:induction false} StreamsJoin(a: seq<Entry>, b: seq<Entry>)
    ensures Streams(a + b) == Streams(a) + Streams(b)
  {
    if a == [] {
      assert a + b == b;
    } else {
      assert (a + b)[1..] == a[1..] + b;
      StreamsJoin(a[1..], b);
    }
  }

  lemma StreamsNext(entries: seq<Entry>, i: nat)
    requires i < |entries|
    ensures |Streams(entries[..i + 1])| == |Streams(entries[..i])| + |entries[i].stream|
    ensures |Streams(entries[i..])| == |entries[i].stream| + |Streams(entries[i + 1..])|
  {
    assert entries[..i + 1] == entries[..i] + [entries[i]];
    StreamsJoin(entries[..i], [entries[i]]);
    assert [entries[i]][1..] == [];
    assert entries[i..][1..] == entries[i + 1..];
  }
}
