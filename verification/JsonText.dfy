/** Concrete JSON syntax (sections 2 to 7 of RFC 8259) over bytes.
  *
  * A `Doc` is a JSON text with every blank and every spelling kept, so that quantifying over
  * `Doc` quantifies over all layouts of all values. `Print` is its text.
  */
module JsonText {
  type byte = x: int | 0 <= x < 256
  type Bytes = seq<byte>

  const QUOTE: byte := 0x22
  const PLUS: byte := 0x2B
  const COMMA: byte := 0x2C
  const MINUS: byte := 0x2D
  const DOT: byte := 0x2E
  const ZERO: byte := 0x30
  const NINE: byte := 0x39
  const COLON: byte := 0x3A
  const UPPER_E: byte := 0x45
  const LBRACKET: byte := 0x5B
  const BACKSLASH: byte := 0x5C
  const RBRACKET: byte := 0x5D
  const LOWER_E: byte := 0x65
  const LOWER_F: byte := 0x66
  const LOWER_N: byte := 0x6E
  const LOWER_T: byte := 0x74
  const LOWER_U: byte := 0x75
  const LBRACE: byte := 0x7B
  const RBRACE: byte := 0x7D

  const TRUE: Bytes := [0x74, 0x72, 0x75, 0x65]
  const FALSE: Bytes := [0x66, 0x61, 0x6C, 0x73, 0x65]
  const NULL: Bytes := [0x6E, 0x75, 0x6C, 0x6C]

  predicate IsWs(b: byte) {
    b == 0x20 || b == 0x09 || b == 0x0A || b == 0x0D
  }

  predicate IsDigit(b: byte) {
    ZERO <= b <= NINE
  }

  /** The bytes the number reader runs over. */
  predicate IsNumberByte(b: byte) {
    IsDigit(b) || b == DOT || b == LOWER_E || b == UPPER_E || b == MINUS || b == PLUS
  }

  predicate AllDigits(s: Bytes) {
    forall k :: 0 <= k < |s| ==> IsDigit(s[k])
  }

  predicate AllWs(s: Bytes) {
    forall k :: 0 <= k < |s| ==> IsWs(s[k])
  }

  /** What may stand between the quotes of a string: no bare quote, and no dangling backslash. */
  predicate WellEscaped(raw: Bytes) {
    if raw == [] then true
    else if raw[0] == QUOTE then false
    else if raw[0] == BACKSLASH then |raw| >= 2 && WellEscaped(raw[2..])
    else WellEscaped(raw[1..])
  }

  /** Some escape of a well-escaped body is a `\u` escape. */
  predicate HasUnicodeEscape(raw: Bytes) {
    if raw == [] then false
    else if raw[0] == BACKSLASH then |raw| >= 2 && (raw[1] == LOWER_U || HasUnicodeEscape(raw[2..]))
    else HasUnicodeEscape(raw[1..])
  }

  predicate IsIntegerPart(s: Bytes) {
    s != [] && AllDigits(s) && (s[0] == ZERO ==> |s| == 1)
  }

  predicate IsFraction(s: Bytes) {
    s == [] || (s[0] == DOT && |s| > 1 && AllDigits(s[1..]))
  }

  predicate IsExponent(s: Bytes) {
    s == [] ||
    ((s[0] == LOWER_E || s[0] == UPPER_E) && |s| > 1 &&
     (AllDigits(s[1..]) || ((s[1] == PLUS || s[1] == MINUS) && |s| > 2 && AllDigits(s[2..]))))
  }

  type Space = s: Bytes | AllWs(s)
  type StringBody = s: Bytes | WellEscaped(s)
  type IntegerPart = s: Bytes | IsIntegerPart(s) witness [ZERO]
  type Fraction = s: Bytes | IsFraction(s)
  type Exponent = s: Bytes | IsExponent(s)

  datatype Numeral = Numeral(negative: bool, digits: IntegerPart, frac: Fraction, exp: Exponent)

  datatype Doc =
    | DNull
    | DBool(b: bool)
    | DNumber(num: Numeral)
    | DString(raw: StringBody)
    | DEmptyArray(gap: Space)
    | DArray(items: Items)
    | DEmptyObject(gap: Space)
    | DObject(members: Members)

  datatype Items =
    | LastItem(before: Space, doc: Doc, after: Space)
    | Item(before: Space, doc: Doc, after: Space, rest: Items)

  /** `beforeKey "key" afterKey : before doc after` */
  datatype Members =
    | LastMember(beforeKey: Space, key: StringBody, afterKey: Space, before: Space, doc: Doc, after: Space)
    | Member(beforeKey: Space, key: StringBody, afterKey: Space, before: Space, doc: Doc, after: Space, rest: Members)

  function PrintNumeral(n: Numeral): Bytes {
    (if n.negative then [MINUS] else []) + n.digits + n.frac + n.exp
  }

  function PrintString(raw: Bytes): Bytes {
    [QUOTE] + raw + [QUOTE]
  }

  function PrintBool(b: bool): Bytes {
    if b then TRUE else FALSE
  }

  function Print(d: Doc): Bytes
    decreases d
  {
    match d
    case DNull => NULL
    case DBool(b) => PrintBool(b)
    case DNumber(num) => PrintNumeral(num)
    case DString(raw) => PrintString(raw)
    case DEmptyArray(gap) => [LBRACKET] + gap + [RBRACKET]
    case DArray(items) => [LBRACKET] + PrintItems(items)
    case DEmptyObject(gap) => [LBRACE] + gap + [RBRACE]
    case DObject(members) => [LBRACE] + PrintMembers(members)
  }

  /** The items up to and including the closing bracket. */
  function PrintItems(items: Items): Bytes
    decreases items
  {
    items.before + Print(items.doc) + items.after +
    (match items
     case LastItem(_, _, _) => [RBRACKET]
     case Item(_, _, _, rest) => [COMMA] + PrintItems(rest))
  }

  function PrintKey(members: Members): Bytes {
    members.beforeKey + PrintString(members.key) + members.afterKey + [COLON] + members.before
  }

  /** The members up to and including the closing brace. */
  function PrintMembers(members: Members): Bytes
    decreases members
  {
    PrintKey(members) + Print(members.doc) + members.after +
    (match members
     case LastMember(_, _, _, _, _, _) => [RBRACE]
     case Member(_, _, _, _, _, _, rest) => [COMMA] + PrintMembers(rest))
  }

  predicate IsArrayDoc(d: Doc) {
    d.DArray? || d.DEmptyArray?
  }

  predicate IsObjectDoc(d: Doc) {
    d.DObject? || d.DEmptyObject?
  }

  /** `s` stands at offset `i` of `text`. */
  predicate Holds(text: Bytes, i: int, s: Bytes) {
    0 <= i && i + |s| <= |text| && text[i..i + |s|] == s
  }

  /** A number may end at `i`: the text stops there or goes on with some other byte. */
  predicate Delimited(text: Bytes, i: int) {
    0 <= i && (i < |text| ==> !IsNumberByte(text[i]))
  }

  /** The document stands at offset `i` of `text` and a delimiter (or the end) follows it. */
  predicate Located(text: Bytes, i: int, d: Doc) {
    Holds(text, i, Print(d)) && Delimited(text, i + |Print(d)|)
  }

  lemma HoldsConcat(text: Bytes, i: int, a: Bytes, b: Bytes)
    ensures Holds(text, i, a + b) <==> Holds(text, i, a) && Holds(text, i + |a|, b)
  {
    if Holds(text, i, a + b) {
      assert text[i..i + |a|] == text[i..i + |a + b|][..|a|] == a;
      assert text[i + |a|..i + |a| + |b|] == text[i..i + |a + b|][|a|..] == b;
    }
    if Holds(text, i, a) && Holds(text, i + |a|, b) {
      assert text[i..i + |a + b|] == text[i..i + |a|] + text[i + |a|..i + |a| + |b|];
    }
  }

  lemma HoldsByte(text: Bytes, i: int, b: byte)
    ensures Holds(text, i, [b]) <==> 0 <= i < |text| && text[i] == b
  {
    if 0 <= i < |text| {
      assert text[i..i + 1] == [text[i]];
    }
  }

  lemma PrintNonEmpty(d: Doc)
    ensures |Print(d)| > 0
    ensures !IsWs(Print(d)[0])
  {
    if d.DNumber? {
      assert IsDigit(d.num.digits[0]);
    }
  }
}
