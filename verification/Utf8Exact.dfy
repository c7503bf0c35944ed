/** The UTF-8 check accepts exactly the encodings of texts. */
module Utf8Exact {
  import opened JsonText
  import opened PolicyIr
  import opened PolicyMeaning
  import PolicyDecoding
  import Utf8

  function Bits(b: byte, lead: int): int {
    b as int - lead
  }

  /** The code point of the first character of checked bytes, and how many bytes it takes. */
  function Head(b: Bytes): (r: (int, nat))
    requires ValidUtf8(b) && b != []
    ensures 0 <= r.0 < 0xD800 || 0xE000 <= r.0 < 0x11_0000
    ensures 1 <= r.1 <= |b| && ValidUtf8(b[r.1..])
  {
    if b[0] < 0x80 then (b[0], 1)
    else if b[0] <= 0xDF then (Bits(b[0], 0xC0) * 64 + Bits(b[1], 0x80), 2)
    else if b[0] <= 0xEF then (Bits(b[0], 0xE0) * 4096 + Bits(b[1], 0x80) * 64 + Bits(b[2], 0x80), 3)
    else (Bits(b[0], 0xF0) * 0x4_0000 + Bits(b[1], 0x80) * 4096 + Bits(b[2], 0x80) * 64 + Bits(b[3], 0x80), 4)
  }

  lemma TwoBytes(x: int, y: int)
    requires 2 <= x < 32 && 0 <= y < 64
    ensures (x * 64 + y) / 64 == x && (x * 64 + y) % 64 == y && 0x80 <= x * 64 + y < 0x800
  {
  }

  lemma ThreeBytes(x: int, y: int, z: int)
    requires 0 <= x < 16 && 0 <= y < 64 && 0 <= z < 64 && (x == 0 ==> y >= 32)
    ensures
      var n := x * 4096 + y * 64 + z;
      n / 4096 == x && n / 64 % 64 == y && n % 64 == z && 0x800 <= n < 0x1_0000
  {
    var n := x * 4096 + y * 64 + z;
    assert n / 64 == x * 64 + y;
  }

  lemma FourBytes(x: int, y: int, z: int, w: int)
    requires 0 <= x <= 4 && 0 <= y < 64 && 0 <= z < 64 && 0 <= w < 64
    requires (x == 0 ==> y >= 16) && (x == 4 ==> y < 16)
    ensures
      var n := x * 0x4_0000 + y * 4096 + z * 64 + w;
      && n / 0x4_0000 == x && n / 4096 % 64 == y && n / 64 % 64 == z && n % 64 == w && 0x1_0000 <= n < 0x11_0000
  {
    var n := x * 0x4_0000 + y * 4096 + z * 64 + w;
    assert n / 64 == x * 4096 + y * 64 + z;
    assert n / 4096 == x * 64 + y;
  }

  lemma CharOfTwo(x: int, y: int)
    requires 2 <= x < 32 && 0 <= y < 64
    ensures Utf8.CharBytes((x * 64 + y) as char) == [0xC0 + x, 0x80 + y]
  {
    TwoBytes(x, y);
  }

  lemma CharOfThree(x: int, y: int, z: int)
    requires 0 <= x < 16 && 0 <= y < 64 && 0 <= z < 64 && (x == 0 ==> y >= 32) && (x == 13 ==> y < 32)
    ensures Utf8.CharBytes((x * 4096 + y * 64 + z) as char) == [0xE0 + x, 0x80 + y, 0x80 + z]
  {
    ThreeBytes(x, y, z);
  }

  lemma CharOfFour(x: int, y: int, z: int, w: int)
    requires 0 <= x <= 4 && 0 <= y < 64 && 0 <= z < 64 && 0 <= w < 64
    requires (x == 0 ==> y >= 16) && (x == 4 ==> y < 16)
    ensures Utf8.CharBytes((x * 0x4_0000 + y * 4096 + z * 64 + w) as char) == [0xF0 + x, 0x80 + y, 0x80 + z, 0x80 + w]
  {
    FourBytes(x, y, z, w);
  }

  lemma HeadBytes(b: Bytes)
    requires ValidUtf8(b) && b != []
    ensures Utf8.CharBytes(Head(b).0 as char) == b[..Head(b).1]
  {
    if b[0] < 0x80 {
    } else if b[0] <= 0xDF {
      CharOfTwo(Bits(b[0], 0xC0), Bits(b[1], 0x80));
      assert b[..2] == [b[0], b[1]];
      hide Utf8.CharBytes;
    } else if b[0] <= 0xEF {
      CharOfThree(Bits(b[0], 0xE0), Bits(b[1], 0x80), Bits(b[2], 0x80));
      assert b[..3] == [b[0], b[1], b[2]];
      hide Utf8.CharBytes;
    } else {
      CharOfFour(Bits(b[0], 0xF0), Bits(b[1], 0x80), Bits(b[2], 0x80), Bits(b[3], 0x80));
      assert b[..4] == [b[0], b[1], b[2], b[3]];
      hide Utf8.CharBytes;
    }
  }

  lemma {:induction false} Decodes(b: Bytes) returns (s: string)
    requires ValidUtf8(b)
    ensures Bytes8(s) == b
    decreases |b|
  {
    if b == [] {
      s := "";
    } else {
      var (n, k) := Head(b);
      HeadBytes(b);
      hide ValidUtf8, Utf8.CharBytes, Head;
      var rest := Decodes(b[k..]);
      s := [n as char] + rest;
      assert s[1..] == rest;
      assert b == b[..k] + b[k..];
    }
  }

  /** Section 3 of RFC 3629, both ways. */
  lemma Utf8Exactly(b: Bytes)
    ensures ValidUtf8(b) <==> exists s :: Bytes8(s) == b
  {
    hide ValidUtf8, Bytes8;
    if ValidUtf8(b) {
      var s := Decodes(b);
    }
    forall s | Bytes8(s) == b ensures ValidUtf8(b) {
      PolicyDecoding.TextIsUtf8(s);
    }
  }
}
