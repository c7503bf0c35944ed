/** What the Qdrant store keeps: payload values translated from JSON and back, and chunk ids written as
  * UUID-shaped text. */
module QdrantPayload {
  import Numbers
  import opened Wrappers
  import FilterDsl

  // ----- Values

  /** A payload value; `Unset` is one without a kind, which the store itself never writes. */
  datatype QValue =
    | Unset
    | NullValue
    | BoolValue(b: bool)
    | IntegerValue(n: int)
    | DoubleValue(r: real)
    | StringValue(s: string)
    | ListValue(values: seq<QValue>)
    | StructValue(fields: map<string, QValue>)

  /** The double nearest to an integer. */
  type Widening = int -> real

  /** `serde_json_to_qvalue`. */
  function ToQValue(widen: Widening, v: FilterDsl.Json): QValue
    decreases v
  {
    match v
    case Null => NullValue
    case Bool(b) => BoolValue(b)
    case Int(n) => if Numbers.I64_MIN <= n <= Numbers.I64_MAX then IntegerValue(n) else DoubleValue(widen(n))
    case Float(r) => DoubleValue(r)
    case Str(s) => StringValue(s)
    case Arr(items) => ListValue(seq(|items|, (k: nat) requires k < |items| => ToQValue(widen, items[k])))
    case Obj(fields) => StructValue(map key | key in fields :: ToQValue(widen, fields[key]))
  }

  /** `qvalue_to_serde_json`, for finite doubles. */
  function FromQValue(q: QValue): FilterDsl.Json
    decreases q
  {
    match q
    case Unset => FilterDsl.Null
    case NullValue => FilterDsl.Null
    case BoolValue(b) => FilterDsl.Bool(b)
    case IntegerValue(n) => FilterDsl.Int(n)
    case DoubleValue(r) => FilterDsl.Float(r)
    case StringValue(s) => FilterDsl.Str(s)
    case ListValue(values) => FilterDsl.Arr(seq(|values|, (k: nat) requires k < |values| => FromQValue(values[k])))
    case StructValue(fields) => FilterDsl.Obj(map key | key in fields :: FromQValue(fields[key]))
  }

  /** No integer anywhere in the value exceeds 64 signed bits. */
  predicate FitsI64(v: FilterDsl.Json)
    decreases v
  {
    match v
    case Int(n) => Numbers.I64_MIN <= n <= Numbers.I64_MAX
    case Arr(items) => forall k :: 0 <= k < |items| ==> FitsI64(items[k])
    case Obj(fields) => forall key :: key in fields ==> FitsI64(fields[key])
    case _ => true
  }

  /** A payload value reads back as it was written exactly when it has no integer beyond 64 signed bits;
    * those come back as doubles. */
  lemma {:induction false} ValueRoundTrip(widen: Widening, v: FilterDsl.Json)
    ensures FromQValue(ToQValue(widen, v)) == v <==> FitsI64(v)
    decreases v
  {
    match v
    case Arr(items) =>
      var back := FromQValue(ToQValue(widen, v)).items;
      assert |back| == |items|;
      forall k | 0 <= k < |items| ensures back[k] == items[k] <==> FitsI64(items[k]) {
        ValueRoundTrip(widen, items[k]);
      }
      assert back == items <==> forall k :: 0 <= k < |items| ==> back[k] == items[k];
    case Obj(fields) =>
      var back := FromQValue(ToQValue(widen, v)).fields;
      assert back.Keys == fields.Keys;
      forall key | key in fields ensures back[key] == fields[key] <==> FitsI64(fields[key]) {
        ValueRoundTrip(widen, fields[key]);
      }
      assert back == fields <==> forall key :: key in fields ==> back[key] == fields[key];
    case _ =>
  }

  // ----- Ids

  function Pow16(k: nat): (r: nat)
    ensures r >= 1
  {
    if k == 0 then 1 else 16 * Pow16(k - 1)
  }

  function HexDigit(d: nat): (c: char)
    requires d < 16
  {
    if d < 10 then ('0' as int + d) as char else ('a' as int + (d - 10)) as char
  }

  function DigitValue(c: char): Option<nat> {
    if '0' <= c <= '9' then Some(c as int - '0' as int)
    else if 'a' <= c <= 'f' then Some(c as int - 'a' as int + 10)
    else if 'A' <= c <= 'F' then Some(c as int - 'A' as int + 10)
    else None
  }

  /** The last `w` hexadecimal digits of a number. */
  function Hex(n: nat, w: nat): (s: string)
    ensures |s| == w
  {
    if w == 0 then "" else Hex(n / 16, w - 1) + [HexDigit(n % 16)]
  }

  /** `uuid_from_ulid`: sixteen bytes in hexadecimal, in groups of 4, 2, 2, 2 and 6. */
  function UuidText(id: nat): string {
    var h := Hex(id, 32);
    h[..8] + "-" + h[8..12] + "-" + h[12..16] + "-" + h[16..20] + "-" + h[20..]
  }

  function HexOnly(s: string): string {
    if s == "" then "" else HexChar(s[0]) + HexOnly(s[1..])
  }

  function HexChar(c: char): string {
    if DigitValue(c).Some? then [c] else ""
  }

  function HexNumber(s: string): nat {
    if s == "" then 0
    else
      var d := DigitValue(s[|s| - 1]);
      16 * HexNumber(s[..|s| - 1]) + (if d.Some? then d.value else 0)
  }

  /** `ulid_from_uuid`: any text with 32 hexadecimal digits in it. */
  function IdOf(s: string): Option<nat> {
    var hex := HexOnly(s);
    if |hex| != 32 then None else Some(HexNumber(hex))
  }

  predicate AllHex(s: string) {
    forall k :: 0 <= k < |s| ==> DigitValue(s[k]).Some?
  }

  lemma {:induction false} HexReads(n: nat, w: nat)
    requires n < Pow16(w)
    ensures HexNumber(Hex(n, w)) == n && AllHex(Hex(n, w))
  {
    if w > 0 {
      HexReads(n / 16, w - 1);
      var s := Hex(n, w);
      assert s[..|s| - 1] == Hex(n / 16, w - 1);
      assert DigitValue(HexDigit(n % 16)) == Some(n % 16);
    }
  }

  lemma Associates(a: string, b: string, c: string)
    ensures (a + b) + c == a + (b + c)
  {
  }

  lemma {:induction false} HexOnlyJoin(a: string, b: string)
    ensures HexOnly(a + b) == HexOnly(a) + HexOnly(b)
  {
    hide HexChar;
    if a == "" {
      assert a + b == b;
    } else {
      HexOnlyJoin(a[1..], b);
      assert (a + b)[1..] == a[1..] + b && (a + b)[0] == a[0];
      hide HexOnly;
      Associates(HexChar(a[0]), HexOnly(a[1..]), HexOnly(b));
    }
  }

  lemma {:induction false} HexOnlyKeeps(s: string)
    requires AllHex(s)
    ensures HexOnly(s) == s
  {
    if s != "" {
      HexOnlyKeeps(s[1..]);
    }
  }

  lemma DashDrops(a: string, b: string)
    requires AllHex(b)
    ensures HexOnly(a + "-" + b) == HexOnly(a) + b
  {
    HexOnlyJoin(a + "-", b);
    HexOnlyJoin(a, "-");
    HexOnlyKeeps(b);
    assert HexOnly("-") == "";
    assert HexOnly(a) + "" == HexOnly(a);
  }

  lemma FiveGroups(a: string, b: string, c: string, d: string, e: string)
    requires AllHex(a) && AllHex(b) && AllHex(c) && AllHex(d) && AllHex(e)
    ensures HexOnly(a + "-" + b + "-" + c + "-" + d + "-" + e) == a + b + c + d + e
  {
    hide HexOnly, AllHex;
    HexOnlyKeeps(a);
    DashDrops(a, b);
    DashDrops(a + "-" + b, c);
    DashDrops(a + "-" + b + "-" + c, d);
    DashDrops(a + "-" + b + "-" + c + "-" + d, e);
  }

  lemma SliceHex(h: string, lo: nat, hi: nat)
    requires AllHex(h) && lo <= hi <= |h|
    ensures AllHex(h[lo..hi])
  {
  }

  lemma Regroups(h: string)
    requires AllHex(h) && |h| == 32
    ensures AllHex(h[..8]) && AllHex(h[8..12]) && AllHex(h[12..16]) && AllHex(h[16..20]) && AllHex(h[20..])
    ensures h[..8] + h[8..12] + h[12..16] + h[16..20] + h[20..] == h
  {
    SliceHex(h, 8, 12);
    SliceHex(h, 12, 16);
    SliceHex(h, 16, 20);
  }

  /** Every 128-bit id reads back from its UUID text. */
  lemma IdRoundTrip(id: nat)
    requires id < Pow16(32)
    ensures IdOf(UuidText(id)) == Some(id)
  {
    hide HexOnly, HexNumber, Hex, AllHex;
    var h := Hex(id, 32);
    HexReads(id, 32);
    Regroups(h);
    FiveGroups(h[..8], h[8..12], h[12..16], h[16..20], h[20..]);
  }

  /** Distinct ids get distinct texts. */
  lemma IdsDiffer(a: nat, b: nat)
    requires a < Pow16(32) && b < Pow16(32) && UuidText(a) == UuidText(b)
    ensures a == b
  {
    hide UuidText, IdOf, Pow16;
    IdRoundTrip(a);
    IdRoundTrip(b);
  }
}
