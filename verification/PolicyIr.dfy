/** The predicate bytecode: opcodes, operands, action table. Shared by both interpreters. */
module PolicyIr {
  import Numbers
  import opened Wrappers
  import opened JsonText
  import opened JsonValue

  const MAX_STACK: nat := 32
  const MAX_SEGMENTS: nat := 8

  const MAGIC: Bytes := [0x53, 0x4C, 0x49, 0x52]

  const READ: byte := 1
  const LIST: byte := 2
  const WRITE: byte := 4
  const DELETE: byte := 8

  const LIT_NULL: byte := 0x01
  const LIT_BOOL: byte := 0x02
  const LIT_I64: byte := 0x03
  const LIT_F64: byte := 0x04
  const LIT_STR: byte := 0x05
  const LIT_DURATION_SECS: byte := 0x06
  const LOAD_CALLER: byte := 0x10
  const LOAD_SELF: byte := 0x11
  const EQ: byte := 0x20
  const NE: byte := 0x21
  const LT: byte := 0x22
  const LE: byte := 0x23
  const GT: byte := 0x24
  const GE: byte := 0x25
  const AND: byte := 0x30
  const OR: byte := 0x31
  const NOT: byte := 0x32
  const IN: byte := 0x40
  const NOT_IN: byte := 0x41
  const CALL_HAS_ROLE: byte := 0x50
  const CALL_TENANT_MATCH: byte := 0x51
  const RESULT: byte := 0xFD
  const DENY: byte := 0xFE
  const ALLOW: byte := 0xFF

  const ROLES: Bytes := [0x72, 0x6F, 0x6C, 0x65, 0x73]
  const TENANT: Bytes := [0x74, 0x65, 0x6E, 0x61, 0x6E, 0x74]
  const CALLER: Bytes := [0x63, 0x61, 0x6C, 0x6C, 0x65, 0x72]
  const RECORD: Bytes := [0x72, 0x65, 0x63, 0x6F, 0x72, 0x64]
  const ACTION: Bytes := [0x61, 0x63, 0x74, 0x69, 0x6F, 0x6E]

  function ActionBitFor(name: Bytes): Option<byte> {
    if name == [0x72, 0x65, 0x61, 0x64] then Some(READ)
    else if name == [0x6C, 0x69, 0x73, 0x74] then Some(LIST)
    else if name == [0x77, 0x72, 0x69, 0x74, 0x65] then Some(WRITE)
    else if name == [0x64, 0x65, 0x6C, 0x65, 0x74, 0x65] then Some(DELETE)
    else None
  }

  /** What one instruction leads to. */
  datatype Outcome<+S, +E> = Go(next: S) | Halt(allow: bool) | Fault(error: E)

  // ----- Operands: a value and the instruction pointer behind it

  function LittleEndian(b: Bytes): nat {
    if b == [] then 0 else b[0] as int + 256 * LittleEndian(b[1..])
  }

  function Pow256(n: nat): nat {
    if n == 0 then 1 else 256 * Pow256(n - 1)
  }

  lemma {:induction false} LittleEndianBound(b: Bytes)
    ensures LittleEndian(b) < Pow256(|b|)
  {
    if b != [] {
      LittleEndianBound(b[1..]);
    }
  }

  lemma Word64Bound(b: Bytes)
    requires |b| == 8
    ensures LittleEndian(b) < 0x1_0000_0000_0000_0000
  {
    LittleEndianBound(b);
    assert Pow256(4) == 0x1_0000_0000;
    assert Pow256(8) == 256 * (256 * (256 * (256 * Pow256(4))));
  }

  /** Two bytes, low byte first. */
  function Pair(lo: byte, hi: byte): nat {
    lo as int + 256 * (hi as int)
  }

  function ByteAtIp(ir: Bytes, ip: nat): (r: Option<(byte, nat)>)
    ensures r.Some? ==> ip < r.value.1 <= |ir|
  {
    if ip < |ir| then Some((ir[ip], ip + 1)) else None
  }

  function U16At(ir: Bytes, ip: nat): (r: Option<(nat, nat)>)
    ensures r.Some? ==> ip < r.value.1 <= |ir|
  {
    if ip + 1 < |ir| then Some((Pair(ir[ip], ir[ip + 1]), ip + 2)) else None
  }

  /** Eight bytes, as `read_i64` and `read_f64` collect them. */
  function Word64At(ir: Bytes, ip: nat): (r: Option<(Bytes, nat)>)
    ensures r.Some? ==> ip < r.value.1 <= |ir| && |r.value.0| == 8
  {
    if ip + 8 <= |ir| then Some((ir[ip..ip + 8], ip + 8)) else None
  }

  method ReadWord64(ir: Bytes, start: nat) returns (r: Option<(Bytes, nat)>)
    ensures r == Word64At(ir, start)
  {
    var buf: Bytes := [];
    var ip := start;
    while |buf| < 8
      invariant ip == start + |buf| && |buf| <= 8
      invariant ip <= |ir| || buf == []
      invariant start <= ip <= |ir| ==> buf == ir[start..ip]
    {
      if ip >= |ir| {
        return None;
      }
      buf := buf + [ir[ip]];
      ip := ip + 1;
    }
    return Some((buf, ip));
  }

  function ToI64(word: Bytes): (n: int)
    requires |word| == 8
    ensures FitsI64(n)
  {
    Word64Bound(word);
    var v := LittleEndian(word);
    if v > Numbers.I64_MAX then v - 0x1_0000_0000_0000_0000 else v
  }

  function ToF64(word: Bytes): F64
    requires |word| == 8
  {
    Word64Bound(word);
    LittleEndian(word)
  }

  /** A length-prefixed byte string: a literal, or one path segment. */
  function BlobAt(ir: Bytes, ip: nat): (r: Option<(Bytes, nat)>)
    ensures r.Some? ==> ip < r.value.1 <= |ir|
  {
    match U16At(ir, ip)
    case None => None
    case Some((len, start)) =>
      if start + len <= |ir| then Some((ir[start..start + len], start + len)) else None
  }

  /** Section 4 of RFC 3629: what `from_utf8` accepts. */
  predicate ValidUtf8(s: Bytes) {
    if s == [] then true
    else if s[0] < 0x80 then ValidUtf8(s[1..])
    else if 0xC2 <= s[0] <= 0xDF then
      |s| >= 2 && Continues(s[1]) && ValidUtf8(s[2..])
    else if 0xE0 <= s[0] <= 0xEF then
      |s| >= 3 && Continues(s[1]) && Continues(s[2]) &&
      (s[0] == 0xE0 ==> s[1] >= 0xA0) && (s[0] == 0xED ==> s[1] <= 0x9F) && ValidUtf8(s[3..])
    else
      0xF0 <= s[0] <= 0xF4 && |s| >= 4 && Continues(s[1]) && Continues(s[2]) && Continues(s[3]) &&
      (s[0] == 0xF0 ==> s[1] >= 0x90) && (s[0] == 0xF4 ==> s[1] <= 0x8F) && ValidUtf8(s[4..])
  }

  predicate Continues(b: byte) {
    0x80 <= b <= 0xBF
  }

  /** The ordering comparisons, in terms of `<` and `<=` on floats. */
  predicate Compare(fl: Floats, op: byte, x: F64, y: F64) {
    if op == LT then fl.lt(x, y)
    else if op == LE then fl.le(x, y)
    else if op == GT then fl.lt(y, x)
    else fl.le(y, x)
  }

  // ----- Section header and action table

  function Payload(section: Bytes): Option<Bytes> {
    if |section| < 8 || section[0..4] != MAGIC then None
    else
      var declared := LittleEndian(section[4..8]);
      if declared + 8 > |section| then None else Some(section[8..8 + declared])
  }

  predicate Selects(mask: byte, action: byte) {
    (mask as bv8) & (action as bv8) != 0
  }

  datatype Rule = NoRule | BadTable | Enter(ip: nat)

  /** First entry of the table, from entry `i` on, whose mask selects the action. */
  function FirstRule(ir: Bytes, i: nat, count: nat, action: byte): Rule
    requires |ir| >= 1 + 3 * count && i <= count
    decreases count - i
  {
    if i == count then NoRule
    else if Selects(ir[1 + 3 * i], action) then
      Enter(1 + 3 * count + Pair(ir[2 + 3 * i], ir[3 + 3 * i]))
    else FirstRule(ir, i + 1, count, action)
  }

  function Dispatch(ir: Bytes, action: byte): Rule {
    if ir == [] || ir[0] == 0 then NoRule
    else if |ir| < 1 + 3 * (ir[0] as int) then BadTable
    else FirstRule(ir, 0, ir[0], action)
  }

  method FindRule(ir: Bytes, action: byte) returns (rule: Rule)
    ensures rule == Dispatch(ir, action)
  {
    if |ir| == 0 {
      return NoRule;
    }
    var count: nat := ir[0];
    if count == 0 {
      return NoRule;
    }
    var tableEnd := 1 + count * 3;
    if |ir| < tableEnd {
      return BadTable;
    }
    for i := 0 to count
      invariant FirstRule(ir, i, count, action) == FirstRule(ir, 0, count, action)
    {
      var off := 1 + i * 3;
      if Selects(ir[off], action) {
        return Enter(tableEnd + Pair(ir[off + 1], ir[off + 2]));
      }
    }
    return NoRule;
  }
}
