/** The base64 alphabet as one text, and the test vectors of section 10 of RFC 4648. */
module Base64Alphabet {
  import opened Utf8
  import opened Base64

  const UPPER: string := "ABCDEFGHIJKLMNOPQRSTUVWXYZ"
  const LOWER: string := "abcdefghijklmnopqrstuvwxyz"
  const DIGIT: string := "0123456789"
  const ALPHABET: string := UPPER + LOWER + DIGIT + "+/"

  lemma UpperAt(k: nat)
    requires k < 26
    ensures |UPPER| == 26 && UPPER[k] as int == 'A' as int + k
  {
  }

  lemma LowerAt(k: nat)
    requires k < 26
    ensures |LOWER| == 26 && LOWER[k] as int == 'a' as int + k
  {
  }

  lemma DigitAt(k: nat)
    requires k < 10
    ensures |DIGIT| == 10 && DIGIT[k] as int == '0' as int + k
  {
  }

  /** The symbols are the alphabet's characters, in its order. */
  lemma SymbolsAreAlphabet(d: Sextet)
    ensures |ALPHABET| == 64 && Symbol(d) == ALPHABET[d] as int
  {
    UpperAt(if d < 26 then d else 0);
    LowerAt(if 26 <= d < 52 then d - 26 else 0);
    DigitAt(if 52 <= d < 62 then d - 52 else 0);
  }

  /** ASCII text as bytes. */
  function Codes(s: string): seq<Byte> {
    seq(|s|, (k: nat) requires k < |s| => s[k] as int % 0x80)
  }

  lemma SextetsOfThree(p: Byte, q: Byte, r: Byte, rest: seq<Byte>)
    ensures Sextets([p, q, r] + rest) == [DigitA(p), DigitB(p, q), DigitC(q, r), DigitD(r)] + Sextets(rest)
  {
    hide DigitA, DigitB, DigitC, DigitD;
    var x := [p, q, r] + rest;
    assert x[3..] == rest && x[0] == p && x[1] == q && x[2] == r;
  }

  /** One group of four digits for three bytes. */
  lemma GroupEncoded(p: Byte, q: Byte, r: Byte, rest: seq<Byte>)
    ensures Encode([p, q, r] + rest) ==
            [Symbol(p / 4), Symbol(p % 4 * 16 + q / 16), Symbol(q % 16 * 4 + r / 64), Symbol(r % 64)] + Encode(rest)
  {
    hide Symbols, Sextets, Symbol, Padding;
    var ds := [DigitA(p), DigitB(p, q), DigitC(q, r), DigitD(r)];
    SextetsOfThree(p, q, r, rest);
    FourSymbols(ds, Sextets(rest));
    PaddingOfThree(|rest|);
    var four := [Symbol(ds[0]), Symbol(ds[1]), Symbol(ds[2]), Symbol(ds[3])];
    assert (four + Symbols(Sextets(rest))) + Padding(|rest|) == four + (Symbols(Sextets(rest)) + Padding(|rest|));
  }

  lemma PaddingOfThree(n: nat)
    ensures Padding(n + 3) == Padding(n)
  {
  }

  lemma FourSymbols(ds: seq<Sextet>, more: seq<Sextet>)
    requires |ds| == 4
    ensures Symbols(ds + more) == [Symbol(ds[0]), Symbol(ds[1]), Symbol(ds[2]), Symbol(ds[3])] + Symbols(more)
  {
    hide Symbol;
    var a := ds + more;
    assert a[1..][1..][1..][1..] == more;
    assert a[1..][0] == ds[1] && a[1..][1..][0] == ds[2] && a[1..][1..][1..][0] == ds[3];
    assert Symbols(a) == [Symbol(ds[0])] + Symbols(a[1..]);
    assert Symbols(a[1..]) == [Symbol(ds[1])] + Symbols(a[1..][1..]);
    assert Symbols(a[1..][1..]) == [Symbol(ds[2])] + Symbols(a[1..][1..][1..]);
    assert Symbols(a[1..][1..][1..]) == [Symbol(ds[3])] + Symbols(more);
  }

  lemma ThreeSymbols(ds: seq<Sextet>)
    requires |ds| == 3
    ensures Symbols(ds) == [Symbol(ds[0]), Symbol(ds[1]), Symbol(ds[2])]
  {
    hide Symbol;
    assert ds[1..][0] == ds[1] && ds[1..][1..][0] == ds[2] && ds[1..][1..][1..] == [];
    assert Symbols(ds[1..][1..]) == [Symbol(ds[2])];
    assert Symbols(ds[1..]) == [Symbol(ds[1])] + Symbols(ds[1..][1..]);
  }

  lemma TwoSymbols(ds: seq<Sextet>)
    requires |ds| == 2
    ensures Symbols(ds) == [Symbol(ds[0]), Symbol(ds[1])]
  {
    hide Symbol;
    assert ds[1..][0] == ds[1] && ds[1..][1..] == [];
    assert Symbols(ds[1..]) == [Symbol(ds[1])];
  }

  lemma TwoEncoded(p: Byte, q: Byte)
    ensures Encode([p, q]) == [Symbol(p / 4), Symbol(p % 4 * 16 + q / 16), Symbol(q % 16 * 4), '=' as int]
  {
    ThreeSymbols([DigitA(p), DigitB(p, q), DigitC(q, 0)]);
    hide Symbol, Symbols;
  }

  lemma OneEncoded(p: Byte)
    ensures Encode([p]) == [Symbol(p / 4), Symbol(p % 4 * 16), '=' as int, '=' as int]
  {
    TwoSymbols([DigitA(p), DigitB(p, 0)]);
    hide Symbol, Symbols;
  }

  lemma NothingEncoded()
    ensures Encode([]) == []
  {
  }

  lemma Short()
    ensures Encode([102]) == [90, 103, 61, 61] && Encode([102, 111]) == [90, 109, 56, 61]
    ensures Encode([98]) == [89, 103, 61, 61] && Encode([98, 97]) == [89, 109, 69, 61]
  {
    hide Encode;
    OneEncoded(102);
    TwoEncoded(102, 111);
    OneEncoded(98);
    TwoEncoded(98, 97);
  }

  lemma Foo(rest: seq<Byte>)
    ensures Encode([102, 111, 111] + rest) == [90, 109, 57, 118] + Encode(rest)
  {
    hide Encode;
    GroupEncoded(102, 111, 111, rest);
  }

  lemma Bar()
    ensures Encode([98, 97, 114]) == [89, 109, 70, 121]
  {
    hide Encode;
    NothingEncoded();
    GroupEncoded(98, 97, 114, []);
    assert [98, 97, 114] + [] == [98, 97, 114];
  }

  lemma Texts()
    ensures Codes("f") == [102] && Codes("fo") == [102, 111] && Codes("foo") == [102, 111, 111]
    ensures Codes("foob") == [102, 111, 111] + [98] && Codes("fooba") == [102, 111, 111] + [98, 97]
    ensures Codes("foobar") == [102, 111, 111] + [98, 97, 114]
  {
  }

  lemma CodesOf()
    ensures Codes("Zg==") == [90, 103, 61, 61] && Codes("Zm8=") == [90, 109, 56, 61] && Codes("Zm9v") == [90, 109, 57, 118]
    ensures Codes("Zm9vYg==") == [90, 109, 57, 118] + [89, 103, 61, 61]
    ensures Codes("Zm9vYmE=") == [90, 109, 57, 118] + [89, 109, 69, 61]
    ensures Codes("Zm9vYmFy") == [90, 109, 57, 118] + [89, 109, 70, 121]
  {
  }

  /** The encodings of the empty text, `f`, `fo`, `foo`, `foob`, `fooba` and `foobar`. */
  lemma TestVectors()
    ensures Encode([]) == [] && Encode(Codes("f")) == Codes("Zg==") && Encode(Codes("fo")) == Codes("Zm8=")
    ensures Encode(Codes("foo")) == Codes("Zm9v") && Encode(Codes("foob")) == Codes("Zm9vYg==")
    ensures Encode(Codes("fooba")) == Codes("Zm9vYmE=") && Encode(Codes("foobar")) == Codes("Zm9vYmFy")
  {
    Texts();
    CodesOf();
    NothingEncoded();
    Short();
    Bar();
    hide Encode, Codes;
    Foo([]);
    Foo([98]);
    Foo([98, 97]);
    Foo([98, 97, 114]);
    assert [102, 111, 111] + [] == [102, 111, 111] && [90, 109, 57, 118] + [] == [90, 109, 57, 118];
  }

  /** The decoder reads them back. */
  lemma VectorsDecode()
    ensures Meaning(Codes("Zg==")) == Ok(Codes("f")) && Meaning(Codes("Zm8=")) == Ok(Codes("fo"))
    ensures Meaning(Codes("Zm9v")) == Ok(Codes("foo")) && Meaning(Codes("Zm9vYg==")) == Ok(Codes("foob"))
    ensures Meaning(Codes("Zm9vYmE=")) == Ok(Codes("fooba")) && Meaning(Codes("Zm9vYmFy")) == Ok(Codes("foobar"))
  {
    TestVectors();
    hide Encode, Meaning, Codes;
    DecodesEncoded(Codes("f"));
    DecodesEncoded(Codes("fo"));
    DecodesEncoded(Codes("foo"));
    DecodesEncoded(Codes("foob"));
    DecodesEncoded(Codes("fooba"));
    DecodesEncoded(Codes("foobar"));
  }
}
