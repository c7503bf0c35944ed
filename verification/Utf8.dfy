/** Characters as UTF-8 bytes. */
module Utf8 {
  type Byte = b: int | 0 <= b < 256

  /** How many bytes a character takes. */
  function Width(c: char): (n: nat)
    ensures 1 <= n <= 4
  {
    if c as int < 0x80 then 1 else if c as int < 0x800 then 2 else if c as int < 0x1_0000 then 3 else 4
  }

  /** A character beyond ASCII has only bytes from 0x80 on. */
  function CharBytes(c: char): (r: seq<Byte>)
    ensures |r| == Width(c)
    ensures if c as int < 0x80 then r == [c as int] else forall k :: 0 <= k < |r| ==> r[k] >= 0x80
  {
    var n := c as int;
    if n < 0x80 then [n]
    else if n < 0x800 then [0xC0 + n / 64, 0x80 + n % 64]
    else if n < 0x1_0000 then [0xE0 + n / 4096, 0x80 + n / 64 % 64, 0x80 + n % 64]
    else [0xF0 + n / 0x4_0000, 0x80 + n / 4096 % 64, 0x80 + n / 64 % 64, 0x80 + n % 64]
  }

  function TextBytes(s: string): seq<Byte> {
    if s == "" then [] else CharBytes(s[0]) + TextBytes(s[1..])
  }

  /** Length in bytes. */
  function ByteLen(s: string): (n: nat)
    ensures n >= |s|
  {
    if s == "" then 0 else Width(s[0]) + ByteLen(s[1..])
  }

  lemma {:induction false} TextBytesLength(s: string)
    ensures |TextBytes(s)| == ByteLen(s)
  {
    hide CharBytes, Width;
    if s != "" {
      TextBytesLength(s[1..]);
    }
  }

  lemma {:induction false} ByteLenJoin(a: string, b: string)
    ensures ByteLen(a + b) == ByteLen(a) + ByteLen(b)
  {
    if a == "" {
      assert a + b == b;
    } else {
      ByteLenJoin(a[1..], b);
      assert (a + b)[1..] == a[1..] + b;
    }
  }

  predicate Ascii(s: string) {
    forall k :: 0 <= k < |s| ==> s[k] as int < 0x80
  }

  /** A text has as many bytes as characters exactly when it is ASCII. */
  lemma {:induction false} AsciiLength(s: string)
    ensures ByteLen(s) == |s| <==> Ascii(s)
  {
    if s != "" {
      AsciiLength(s[1..]);
      assert s == [s[0]] + s[1..];
    }
  }
}
