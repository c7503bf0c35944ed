/** JSON values as the host's parser hands them over, numbers included. */
module JsonValue {
  import Numbers
  import opened Wrappers
  import opened JsonText

  /** An IEEE 754 double as its 64 bits; arithmetic on it is a parameter. */
  type F64 = bits: nat | bits < 0x1_0000_0000_0000_0000

  predicate FitsI64(n: int) {
    Numbers.I64_MIN <= n <= Numbers.I64_MAX
  }

  /** The float operations the interpreters use: nothing is assumed of them. */
  datatype Floats = Floats(
    widen: int -> F64,
    eq: (F64, F64) -> bool,
    lt: (F64, F64) -> bool,
    le: (F64, F64) -> bool,
    parse: Bytes -> Option<F64>,
    truncate: F64 -> int)

  datatype Number = I64(n: int) | F64(f: F64)

  datatype Value =
    | Null
    | Bool(b: bool)
    | Number(n: Number)
    | String(s: Bytes)
    | Array(items: seq<Value>)
    | Object(fields: map<Bytes, Value>)

  function DigitValue(b: byte): nat
    requires IsDigit(b)
  {
    b as int - ZERO as int
  }

  function DigitsValue(s: Bytes): nat
    requires AllDigits(s)
  {
    if s == [] then 0 else 10 * DigitsValue(s[..|s| - 1]) + DigitValue(s[|s| - 1])
  }

  function IntegerValue(num: Numeral): int {
    var magnitude: int := DigitsValue(num.digits);
    if num.negative then -magnitude else magnitude
  }

  /** The numeral is spelled as an integer, fits 64 bits, and is not `-0` (which is a float). */
  predicate IsI64Numeral(num: Numeral) {
    num.frac == [] && num.exp == [] && FitsI64(IntegerValue(num)) && !(num.negative && IntegerValue(num) == 0)
  }

  function NumberOf(fl: Floats, num: Numeral): Number {
    if IsI64Numeral(num) then I64(IntegerValue(num))
    else
      match fl.parse(PrintNumeral(num))
      case Some(f) => F64(f)
      case None => F64(0)
  }

  /** The value a document denotes. When a key repeats, the last member wins. String bodies are
    * taken as they stand, which is their value when they hold no escape. */
  function Tree(fl: Floats, d: Doc): Value
    decreases d
  {
    match d
    case DNull => Null
    case DBool(b) => Bool(b)
    case DNumber(num) => Number(NumberOf(fl, num))
    case DString(raw) => String(raw)
    case DEmptyArray(_) => Array([])
    case DArray(items) => Array(ItemTrees(fl, items))
    case DEmptyObject(_) => Object(map[])
    case DObject(members) => Object(Fields(fl, members))
  }

  function ItemTrees(fl: Floats, items: Items): seq<Value>
    decreases items
  {
    [Tree(fl, items.doc)] + (if items.Item? then ItemTrees(fl, items.rest) else [])
  }

  function Fields(fl: Floats, members: Members): map<Bytes, Value>
    decreases members
  {
    var key: Bytes := members.key;
    map[key := Tree(fl, members.doc)] + (if members.Member? then Fields(fl, members.rest) else map[])
  }

  /** `Value::get` with a string key: anything but an object has no members. */
  function Get(v: Value, key: Bytes): Option<Value> {
    if v.Object? && key in v.fields then Some(v.fields[key]) else None
  }

  // ----- Documents whose bytes and tree tell the same story

  predicate HasKey(members: Members, key: Bytes)
    decreases members
  {
    members.key == key || (members.Member? && HasKey(members.rest, key))
  }

  /** No string or key holds an escape, and no object repeats a key. */
  predicate Faithful(d: Doc)
    decreases d
  {
    match d
    case DString(raw) => BACKSLASH !in raw
    case DArray(items) => FaithfulItems(items)
    case DObject(members) => FaithfulMembers(members)
    case _ => true
  }

  predicate FaithfulItems(items: Items)
    decreases items
  {
    Faithful(items.doc) && (items.Item? ==> FaithfulItems(items.rest))
  }

  predicate FaithfulMembers(members: Members)
    decreases members
  {
    BACKSLASH !in members.key && Faithful(members.doc) &&
    (members.Member? ==> !HasKey(members.rest, members.key) && FaithfulMembers(members.rest))
  }
}
