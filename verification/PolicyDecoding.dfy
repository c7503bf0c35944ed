/** What the compiler writes, the instruction readers read: numbers, texts, paths and the action table. */
module PolicyDecoding {
  import opened Wrappers
  import opened JsonText
  import opened JsonValue
  import opened PolicyIr
  import opened PolicyMeaning
  import opened PolicyCompiler
  import Utf8

  /** `code` stands at `ip`. */
  predicate CodeAt(ir: Bytes, ip: nat, code: Bytes) {
    ip + |code| <= |ir| && ir[ip..ip + |code|] == code
  }

  lemma CodeSplits(ir: Bytes, ip: nat, a: Bytes, b: Bytes)
    ensures CodeAt(ir, ip, a + b) <==> CodeAt(ir, ip, a) && CodeAt(ir, ip + |a|, b)
  {
    var n := |a|;
    if ip + n + |b| <= |ir| {
      assert ir[ip..ip + n + |b|] == ir[ip..ip + n] + ir[ip + n..ip + n + |b|];
      if ir[ip..ip + n + |b|] == a + b {
        assert (a + b)[..n] == a && (a + b)[n..] == b;
      }
    }
  }

  lemma ByteReads(ir: Bytes, ip: nat, b: byte)
    requires CodeAt(ir, ip, [b])
    ensures ip < |ir| && ir[ip] == b && ByteAtIp(ir, ip) == Some((b, ip + 1))
  {
    assert ir[ip..ip + 1][0] == ir[ip];
  }

  // ----- Numbers

  lemma {:induction false} LeReads(n: nat, k: nat)
    requires n < Pow256(k)
    ensures LittleEndian(LeBytes(n, k)) == n
  {
    if k > 0 {
      DivBelow(n, Pow256(k - 1));
      LeReads(n / 256, k - 1);
      assert LeBytes(n, k)[1..] == LeBytes(n / 256, k - 1);
    }
  }

  lemma DivBelow(n: nat, p: nat)
    requires n < 256 * p
    ensures n / 256 < p
  {
  }

  lemma Powers()
    ensures Pow256(2) == 65536 && Pow256(4) == 0x1_0000_0000 && Pow256(8) == 0x1_0000_0000_0000_0000
  {
    assert Pow256(2) == 65536;
    assert Pow256(4) == 256 * (256 * Pow256(2));
    assert Pow256(8) == 256 * (256 * (256 * (256 * Pow256(4))));
  }

  lemma PairReads(n: nat)
    requires n <= 65535
    ensures Pair(LeBytes(n, 2)[0], LeBytes(n, 2)[1]) == n
  {
    assert LeBytes(n, 2)[1..] == LeBytes(n / 256, 1);
    assert LeBytes(n, 2)[1] == LeBytes(n, 2)[1..][0];
    assert n / 256 % 256 == n / 256;
  }

  lemma WordReads(ir: Bytes, ip: nat, n: nat)
    requires n < U64 && CodeAt(ir, ip, LeBytes(n, 8))
    ensures Word64At(ir, ip) == Some((LeBytes(n, 8), ip + 8)) && LittleEndian(LeBytes(n, 8)) == n
  {
    hide LeBytes, Pow256;
    Powers();
    LeReads(n, 8);
  }

  lemma SignedReads(n: int)
    requires FitsI64(n)
    ensures ToI64(LeBytes(Word(n), 8)) == n
  {
    hide LeBytes, Pow256;
    Powers();
    LeReads(Word(n), 8);
  }

  lemma FloatReads(f: F64)
    ensures ToF64(LeBytes(f, 8)) == f
  {
    hide LeBytes, Pow256;
    Powers();
    LeReads(f, 8);
  }

  // ----- Texts

  lemma LengthReads(ir: Bytes, ip: nat, n: nat)
    requires n <= 65535 && CodeAt(ir, ip, LeBytes(n, 2))
    ensures U16At(ir, ip) == Some((n, ip + 2))
  {
    var len := LeBytes(n, 2);
    PairReads(n);
    hide LeBytes, Pair;
    assert ir[ip..ip + 2][0] == ir[ip] && ir[ip..ip + 2][1] == ir[ip + 1];
  }

  lemma BlobReads(ir: Bytes, ip: nat, bytes: Bytes)
    requires |bytes| <= 65535 && CodeAt(ir, ip, LeBytes(|bytes|, 2) + bytes)
    ensures BlobAt(ir, ip) == Some((bytes, ip + 2 + |bytes|))
  {
    hide LeBytes, U16At, CodeAt, BlobAt;
    CodeSplits(ir, ip, LeBytes(|bytes|, 2), bytes);
    LengthReads(ir, ip, |bytes|);
    BehindLength(ir, ip, bytes);
  }

  lemma BehindLength(ir: Bytes, ip: nat, bytes: Bytes)
    requires U16At(ir, ip) == Some((|bytes|, ip + 2)) && CodeAt(ir, ip + 2, bytes)
    ensures BlobAt(ir, ip) == Some((bytes, ip + 2 + |bytes|))
  {
    hide U16At;
  }

  lemma CharIsUtf8(c: char, rest: Bytes)
    requires ValidUtf8(rest)
    ensures ValidUtf8(Utf8.CharBytes(c) + rest)
  {
    var n := c as int;
    var s: Bytes := Utf8.CharBytes(c) + rest;
    if n < 0x80 {
      assert s[1..] == rest;
    } else if n < 0x800 {
      assert s[2..] == rest;
    } else if n < 0x1_0000 {
      assert s[3..] == rest;
      assert s[0] == 0xED ==> n < 0xE000;
    } else {
      assert s[4..] == rest;
    }
  }

  /** The bytes of a text are UTF-8. */
  lemma {:induction false} TextIsUtf8(s: string)
    ensures ValidUtf8(Bytes8(s))
  {
    hide ValidUtf8, Utf8.CharBytes;
    if s == "" {
      assert ValidUtf8([]) by { NothingIsUtf8(); }
    } else {
      TextIsUtf8(s[1..]);
      CharIsUtf8(s[0], Bytes8(s[1..]));
    }
  }

  lemma NothingIsUtf8()
    ensures ValidUtf8([])
  {
  }

  // ----- The section

  lemma Parts(a: Bytes, b: Bytes, c: Bytes, d: Bytes)
    ensures
      var s := a + b + c + d;
      && s[0..|a|] == a && s[|a|..|a| + |b|] == b && s[|a| + |b|..|a| + |b| + |c|] == c
  {
  }

  lemma HeaderReads(body: Bytes, padding: Bytes)
    requires |body| < 0x1_0000_0000
    ensures Payload(MAGIC + LeBytes(|body|, 4) + body + padding) == Some(body)
  {
    Powers();
    LeReads(|body|, 4);
    hide LeBytes, Pow256, LittleEndian;
    Parts(MAGIC, LeBytes(|body|, 4), body, padding);
  }

  lemma MaskSelects(actions: seq<Action>, a: Action)
    ensures Mask(actions) & (Bit(a) as bv8) != 0 <==> a in actions
  {
    if actions != [] {
      var n := |actions| - 1;
      MaskSelects(actions[..n], a);
      hide Bit;
      assert a in actions <==> a in actions[..n] || a == actions[n];
      BitsApart(Mask(actions[..n]), actions[n], a);
    }
  }

  lemma BitsApart(m: bv8, a: Action, b: Action)
    ensures (m | (Bit(a) as bv8)) & (Bit(b) as bv8) != 0 <==> (m & (Bit(b) as bv8) != 0) || a == b
  {
    BitValues();
    OrAnd(m, Bit(a) as bv8, Bit(b) as bv8);
  }

  lemma BitValues()
    ensures Bit(ToRead) as bv8 == 1 && Bit(ToList) as bv8 == 2 && Bit(ToWrite) as bv8 == 4 && Bit(ToDelete) as bv8 == 8
  {
  }

  lemma OrAnd(m: bv8, x: bv8, y: bv8)
    ensures (m | x) & y != 0 <==> m & y != 0 || x & y != 0
  {
  }

  lemma MaskByte(m: bv8)
    ensures (m as int) < 256 && (m as int) as bv8 == m
  {
  }
}
