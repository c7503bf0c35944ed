/** The GitHub connector's base64 decoder (section 4 of RFC 4648), whose 32-bit accumulator wraps and is
  * never cleared, and the white space filter in front of it. */
module Base64 {
  import opened Numbers
  import opened Text
  import opened Utf8
  import opened Wrappers

  type Sextet = d: int | 0 <= d < 64

  const PAD: int := '=' as int
  const U32: nat := 0x1_0000_0000

  datatype Error = BadLength | InvalidChar

  datatype Decoded = Ok(bytes: seq<Byte>) | Err(error: Error)

  // ----- The alphabet

  /** The `d`-th character of A-Z, a-z, 0-9, `+` and `/`. */
  function Symbol(d: Sextet): (b: Byte)
    ensures b != PAD
  {
    if d < 26 then 'A' as int + d
    else if d < 52 then 'a' as int + (d - 26)
    else if d < 62 then '0' as int + (d - 52)
    else if d == 62 then '+' as int
    else '/' as int
  }

  /** The first position of `b` at or after `from`. */
  function PositionFrom(b: Byte, from: nat): (r: Option<Sextet>)
    requires from <= 64
    ensures r.Some? ==> from <= r.value && Symbol(r.value) == b
    ensures r.None? ==> forall d :: from <= d < 64 ==> Symbol(d) != b
    decreases 64 - from
  {
    if from == 64 then None
    else if Symbol(from) == b then Some(from)
    else PositionFrom(b, from + 1)
  }

  function Position(b: Byte): Option<Sextet> {
    PositionFrom(b, 0)
  }

  lemma PositionOfSymbol(d: Sextet)
    ensures Position(Symbol(d)) == Some(d)
  {
    hide PositionFrom;
    var r := PositionFrom(Symbol(d), 0);
    assert r.Some?;
    SymbolInjective(r.value, d);
  }

  lemma SymbolInjective(d: Sextet, e: Sextet)
    requires Symbol(d) == Symbol(e)
    ensures d == e
  {
  }

  // ----- What a text means

  /** The digits before the first padding character; none when another character comes first. */
  function Digits(s: seq<Byte>): Option<seq<Sextet>> {
    if s == [] || s[0] == PAD then Some([])
    else
      var d := Position(s[0]);
      var rest := Digits(s[1..]);
      if d.None? || rest.None? then None else Some([d.value] + rest.value)
  }

  function First(a: Sextet, b: Sextet): Byte {
    a * 4 + b / 16
  }

  function Second(b: Sextet, c: Sextet): Byte {
    b % 16 * 16 + c / 4
  }

  function Third(c: Sextet, d: Sextet): Byte {
    c % 4 * 64 + d
  }

  /** Four digits make three bytes; what is left over makes the whole bytes it covers. */
  function Bytes(ds: seq<Sextet>): seq<Byte> {
    if |ds| >= 4 then [First(ds[0], ds[1]), Second(ds[1], ds[2]), Third(ds[2], ds[3])] + Bytes(ds[4..])
    else if |ds| == 3 then [First(ds[0], ds[1]), Second(ds[1], ds[2])]
    else if |ds| == 2 then [First(ds[0], ds[1])]
    else []
  }

  function Meaning(s: seq<Byte>): Decoded {
    if |s| % 4 != 0 then Err(BadLength)
    else
      var ds := Digits(s);
      if ds.None? then Err(InvalidChar) else Ok(Bytes(ds.value))
  }

  // ----- The decoder

  /** How far into a group of four `n` digits reach. */
  function Phase(n: nat): (r: nat)
    ensures r < 4
  {
    if n < 4 then n else Phase(n - 4)
  }

  /** The byte completed by digit `d` behind `last` in that phase, if it completes one. */
  function Completed(phase: nat, last: Sextet, d: Sextet): seq<Byte> {
    if phase == 0 then [] else [Joint(phase, last, d)]
  }

  function Joint(phase: nat, last: Sextet, d: Sextet): Byte {
    if phase == 1 then First(last, d) else if phase == 2 then Second(last, d) else Third(last, d)
  }

  function Last(ds: seq<Sextet>): Sextet {
    if ds == [] then 0 else ds[|ds| - 1]
  }

  lemma BytesOfFew(a: Sextet, b: Sextet, c: Sextet, d: Sextet)
    ensures Bytes([]) == [] == Bytes([a])
    ensures Bytes([a, b]) == [First(a, b)]
    ensures Bytes([a, b, c]) == [First(a, b), Second(b, c)]
    ensures Bytes([a, b, c, d]) == [First(a, b), Second(b, c), Third(c, d)]
  {
    hide First, Second, Third;
    assert [a, b, c, d][4..] == [];
  }

  lemma Spelled<T>(ds: seq<T>, d: T)
    ensures |ds| == 0 ==> ds == [] && ds + [d] == [d]
    ensures |ds| == 1 ==> ds == [ds[0]] && ds + [d] == [ds[0], d]
    ensures |ds| == 2 ==> ds == [ds[0], ds[1]] && ds + [d] == [ds[0], ds[1], d]
    ensures |ds| == 3 ==> ds == [ds[0], ds[1], ds[2]] && ds + [d] == [ds[0], ds[1], ds[2], d]
  {
  }

  lemma JoinsLast(a: Sextet, b: Sextet, c: Sextet, d: Sextet)
    ensures Bytes([d]) == Bytes([]) + Completed(0, a, d)
    ensures Bytes([a, b]) == Bytes([a]) + Completed(1, a, b)
    ensures Bytes([a, b, c]) == Bytes([a, b]) + Completed(2, b, c)
    ensures Bytes([a, b, c, d]) == Bytes([a, b, c]) + Completed(3, c, d)
  {
    hide First, Second, Third, Bytes;
    BytesOfFew(a, b, c, d);
    BytesOfFew(d, d, d, d);
  }

  lemma BytesShort(ds: seq<Sextet>, d: Sextet)
    requires |ds| < 4
    ensures Bytes(ds + [d]) == Bytes(ds) + Completed(|ds|, Last(ds), d)
  {
    hide Completed, Bytes;
    Spelled(ds, d);
    if |ds| == 0 {
      JoinsLast(Last(ds), d, d, d);
    } else if |ds| == 1 {
      JoinsLast(ds[0], d, d, d);
    } else if |ds| == 2 {
      JoinsLast(ds[0], ds[1], d, d);
    } else {
      JoinsLast(ds[0], ds[1], ds[2], d);
    }
  }

  lemma {:induction false} BytesSnoc(ds: seq<Sextet>, d: Sextet)
    ensures Bytes(ds + [d]) == Bytes(ds) + Completed(Phase(|ds|), Last(ds), d)
  {
    hide Completed;
    if |ds| >= 4 {
      BytesSnoc(ds[4..], d);
      assert (ds + [d])[4..] == ds[4..] + [d];
      if |ds| == 4 {
        assert Completed(0, Last(ds), d) == [] == Completed(0, Last(ds[4..]), d) by { NothingCompleted(ds, d); }
      }
    } else {
      BytesShort(ds, d);
    }
  }

  lemma NothingCompleted(ds: seq<Sextet>, d: Sextet)
    ensures forall last :: Completed(0, last, d) == []
  {
  }

  /** Bits not yet turned into a byte after `n` digits. */
  function PendingBits(n: nat): nat {
    var phase := Phase(n);
    if phase == 0 then 0 else if phase == 1 then 6 else if phase == 2 then 4 else 2
  }

  lemma {:induction false} NextPhase(n: nat)
    ensures Phase(n + 1) == if Phase(n) == 3 then 0 else Phase(n) + 1
    ensures PendingBits(n + 1) == PendingBits(n) + 6 - (if Phase(n) == 0 then 0 else 8)
    ensures PendingBits(n) + 6 >= 8 <==> Phase(n) != 0
  {
    if n >= 4 {
      NextPhase(n - 4);
    }
  }

  lemma SmallPowers()
    ensures Pow2(0) == 1 && Pow2(2) == 4 && Pow2(4) == 16 && Pow2(6) == 64
  {
    assert Pow2(1) == 2 && Pow2(3) == 8 && Pow2(5) == 32;
  }

  /** The accumulator holds the pending bits at its low end; everything above is leftover. */
  predicate Holds(val: nat, ds: seq<Sextet>) {
    ds != [] ==> val % 64 == Last(ds)
  }

  function Shifted(val: nat, d: Sextet): nat {
    (val * 64 + d) % U32
  }

  lemma ShiftKeeps(val: nat, d: Sextet)
    ensures Shifted(val, d) % 64 == d
    ensures Shifted(val, d) / 64 % 64 == val % 64
  {
    var v := val * 64 + d;
    assert U32 == 64 * 0x400_0000;
    var q := v / U32;
    assert Shifted(val, d) == v - q * U32 == 64 * (val - q * 0x400_0000) + d;
    assert val - q * 0x400_0000 >= 0;
    assert (val - q * 0x400_0000) % 64 == val % 64 by {
      assert val == 64 * (q * 0x10_0000) + (val - q * 0x400_0000);
      ModShift(val - q * 0x400_0000, q * 0x10_0000);
    }
  }

  lemma ModShift(a: int, k: int)
    ensures (64 * k + a) % 64 == a % 64
  {
  }

  lemma SplitDiv(k: nat, a: nat, m: nat)
    requires m == 4 || m == 16 || m == 64
    ensures (m * k + a) / m == k + a / m
  {
  }

  lemma SplitMod(k: nat, a: nat)
    requires a < 256
    ensures (256 * k + a) % 256 == a
  {
  }

  lemma PushFirst(w: nat, prev: Sextet, d: Sextet)
    ensures (4096 * w + 64 * prev + d) / 16 % 256 == First(prev, d)
  {
    SplitDiv(256 * w + 4 * prev, d, 16);
    SplitMod(w, 4 * prev + d / 16);
  }

  lemma PushSecond(w: nat, prev: Sextet, d: Sextet)
    ensures (4096 * w + 64 * prev + d) / 4 % 256 == Second(prev, d)
  {
    SplitDiv(1024 * w + 16 * prev, d, 4);
    var hi := prev / 16;
    assert prev == 16 * hi + prev % 16;
    SplitMod(4 * w + hi, prev % 16 * 16 + d / 4);
  }

  lemma PushThird(w: nat, prev: Sextet, d: Sextet)
    ensures (4096 * w + 64 * prev + d) % 256 == Third(prev, d)
  {
    var hi := prev / 4;
    assert prev == 4 * hi + prev % 4;
    SplitMod(16 * w + hi, prev % 4 * 64 + d);
  }

  /** The byte the decoder pushes is the one the digits complete. */
  lemma PushedByte(val: nat, last: Sextet, d: Sextet, phase: nat, bits: nat)
    requires 1 <= phase <= 3 && bits == 6 - 2 * phase
    requires val % 64 == d && val / 64 % 64 == last
    ensures val / Pow2(bits) % 256 == Joint(phase, last, d)
  {
    hide First, Second, Third, Pow2;
    SmallPowers();
    var w := val / 64 / 64;
    assert val == 4096 * w + 64 * last + d;
    PushFirst(w, last, d);
    PushSecond(w, last, d);
    PushThird(w, last, d);
  }

  lemma BitsAfter(n: nat)
    requires Phase(n) != 0
    ensures PendingBits(n + 1) == 6 - 2 * Phase(n)
  {
    NextPhase(n);
  }

  /** One digit more: the accumulator still holds the last digit and yields the completed byte. */
  lemma OneDigit(val: nat, ds: seq<Sextet>, d: Sextet)
    requires Holds(val, ds)
    ensures
      var val' := Shifted(val, d);
      && Holds(val', ds + [d])
      && Bytes(ds + [d]) ==
         Bytes(ds) + (if Phase(|ds|) == 0 then [] else [val' / Pow2(PendingBits(|ds| + 1)) % 256])
  {
    hide Bytes, Joint, Pow2, Shifted, PendingBits;
    BytesSnoc(ds, d);
    ShiftKeeps(val, d);
    if Phase(|ds|) != 0 {
      BitsAfter(|ds|);
      PushedByte(Shifted(val, d), Last(ds), d, Phase(|ds|), PendingBits(|ds| + 1));
    }
  }

  /** The digits of the first `i` characters, none of which is padding or foreign. */
  ghost predicate Scanned(s: seq<Byte>, i: nat, ds: seq<Sextet>) {
    && i <= |s| && |ds| == i
    && Digits(s) == (if Digits(s[i..]).None? then None else Some(ds + Digits(s[i..]).value))
  }

  lemma ScanOne(s: seq<Byte>, i: nat, ds: seq<Sextet>)
    requires Scanned(s, i, ds) && i < |s| && s[i] != PAD && Position(s[i]).Some?
    ensures Scanned(s, i + 1, ds + [Position(s[i]).value])
  {
    hide PositionFrom, Position;
    assert s[i..][1..] == s[i + 1..];
    var rest := Digits(s[i + 1..]);
    if rest.Some? {
      var d := Position(s[i]).value;
      assert ds + ([d] + rest.value) == (ds + [d]) + rest.value;
    }
  }

  /** `base64_lite::decode`. */
  method Decode(s: seq<Byte>) returns (r: Decoded)
    ensures r == Meaning(s)
  {
    hide Digits, Bytes, Position, PositionFrom, Pow2, Shifted, PendingBits, Phase, Holds, Scanned;
    if |s| == 0 {
      EmptyText(s);
      return Ok([]);
    }
    if |s| % 4 != 0 {
      return Err(BadLength);
    }
    var out: seq<Byte> := [];
    var val: nat := 0;
    var bits: nat := 0;
    ghost var ds: seq<Sextet> := [];
    StartText(s);
    for i := 0 to |s|
      invariant Scanned(s, i, ds)
      invariant out == Bytes(ds)
      invariant bits == PendingBits(|ds|)
      invariant Holds(val, ds)
    {
      if s[i] == PAD {
        Stops(s, i, ds);
        return Ok(out);
      }
      var idx := Position(s[i]);
      if idx.None? {
        Foreign(s, i, ds);
        return Err(InvalidChar);
      }
      OneDigit(val, ds, idx.value);
      NextPhase(|ds|);
      ScanOne(s, i, ds);
      val := Shifted(val, idx.value);
      bits := bits + 6;
      if bits >= 8 {
        bits := bits - 8;
        out := out + [val / Pow2(bits) % 256];
      }
      ds := ds + [idx.value];
    }
    Ends(s, ds);
    return Ok(out);
  }

  lemma EmptyText(s: seq<Byte>)
    requires s == []
    ensures Meaning(s) == Ok([])
  {
  }

  lemma StartText(s: seq<Byte>)
    ensures Scanned(s, 0, []) && Bytes([]) == [] && PendingBits(0) == 0 && Holds(0, [])
  {
    assert s[0..] == s;
    if Digits(s).Some? {
      assert [] + Digits(s).value == Digits(s).value;
    }
  }

  lemma Stops(s: seq<Byte>, i: nat, ds: seq<Sextet>)
    requires Scanned(s, i, ds) && i < |s| && s[i] == PAD && |s| % 4 == 0
    ensures Meaning(s) == Ok(Bytes(ds))
  {
    hide Bytes;
    assert ds + [] == ds;
  }

  lemma Foreign(s: seq<Byte>, i: nat, ds: seq<Sextet>)
    requires Scanned(s, i, ds) && i < |s| && s[i] != PAD && Position(s[i]).None? && |s| % 4 == 0
    ensures Meaning(s) == Err(InvalidChar)
  {
    hide Bytes, Position;
  }

  lemma Ends(s: seq<Byte>, ds: seq<Sextet>)
    requires Scanned(s, |s|, ds) && |s| % 4 == 0
    ensures Meaning(s) == Ok(Bytes(ds))
  {
    hide Bytes;
    assert s[|s|..] == [];
    assert ds + [] == ds;
  }

  // ----- The encoding of RFC 4648, section 4

  // The four digits of three bytes, one by one.

  function DigitA(p: Byte): Sextet {
    p / 4
  }

  function DigitB(p: Byte, q: Byte): Sextet {
    p % 4 * 16 + q / 16
  }

  function DigitC(q: Byte, r: Byte): Sextet {
    q % 16 * 4 + r / 64
  }

  function DigitD(r: Byte): Sextet {
    r % 64
  }

  /** Six-bit groups of the bytes, the last one filled up with zero bits. */
  function Sextets(x: seq<Byte>): seq<Sextet> {
    if |x| >= 3 then [DigitA(x[0]), DigitB(x[0], x[1]), DigitC(x[1], x[2]), DigitD(x[2])] + Sextets(x[3..])
    else if |x| == 2 then [DigitA(x[0]), DigitB(x[0], x[1]), DigitC(x[1], 0)]
    else if |x| == 1 then [DigitA(x[0]), DigitB(x[0], 0)]
    else []
  }

  function Symbols(ds: seq<Sextet>): seq<Byte> {
    if ds == [] then [] else [Symbol(ds[0])] + Symbols(ds[1..])
  }

  /** Padding up to a whole group of four characters. */
  function Padding(n: nat): seq<Byte> {
    if n >= 3 then Padding(n - 3) else if n == 2 then [PAD] else if n == 1 then [PAD, PAD] else []
  }

  function Encode(x: seq<Byte>): seq<Byte> {
    Symbols(Sextets(x)) + Padding(|x|)
  }

  lemma DigitsJoin(p: Byte, q: Byte, r: Byte)
    ensures First(DigitA(p), DigitB(p, q)) == p
    ensures Second(DigitB(p, q), DigitC(q, r)) == q
    ensures Third(DigitC(q, r), DigitD(r)) == r
  {
    assert (p % 4 * 16 + q / 16) / 16 == p % 4;
    assert (p % 4 * 16 + q / 16) % 16 == q / 16;
    assert (q % 16 * 4 + r / 64) / 4 == q % 16;
    assert (q % 16 * 4 + r / 64) % 4 == r / 64;
  }

  lemma FourMore(a: Sextet, b: Sextet, c: Sextet, d: Sextet, rest: seq<Sextet>)
    ensures Bytes([a, b, c, d] + rest) == [First(a, b), Second(b, c), Third(c, d)] + Bytes(rest)
  {
    hide First, Second, Third;
    assert ([a, b, c, d] + rest)[4..] == rest;
  }

  lemma Associates<T>(a: seq<T>, b: seq<T>, c: seq<T>)
    ensures (a + b) + c == a + (b + c)
  {
  }

  lemma ThreeFirst<T>(x: seq<T>)
    requires |x| >= 3
    ensures x == [x[0], x[1], x[2]] + x[3..]
  {
  }

  /** The bytes come back from their digits; digits behind them are read as well when the bytes fill
    * whole groups. */
  lemma {:induction false} BytesOfSextets(x: seq<Byte>, more: seq<Sextet>)
    requires |x| % 3 == 0 || more == []
    ensures Bytes(Sextets(x) + more) == x + Bytes(more)
  {
    hide First, Second, Third, DigitA, DigitB, DigitC, DigitD, Bytes;
    if |x| >= 3 {
      var a, b, c, d := DigitA(x[0]), DigitB(x[0], x[1]), DigitC(x[1], x[2]), DigitD(x[2]);
      Associates([a, b, c, d], Sextets(x[3..]), more);
      FourMore(a, b, c, d, Sextets(x[3..]) + more);
      DigitsJoin(x[0], x[1], x[2]);
      BytesOfSextets(x[3..], more);
      ThreeFirst(x);
      Associates([x[0], x[1], x[2]], x[3..], Bytes(more));
    } else {
      BytesOfRest(x, more);
    }
  }

  lemma BytesOfRest(x: seq<Byte>, more: seq<Sextet>)
    requires |x| < 3 && (|x| == 0 || more == [])
    ensures Bytes(Sextets(x) + more) == x + Bytes(more)
  {
    hide First, Second, Third, DigitA, DigitB, DigitC, DigitD, Bytes;
    BytesOfFew(0, 0, 0, 0);
    if |x| == 0 {
      assert Sextets(x) + more == more;
    } else if |x| == 1 {
      BytesOfFew(DigitA(x[0]), DigitB(x[0], 0), 0, 0);
      DigitsJoin(x[0], 0, 0);
      assert Sextets(x) + more == [DigitA(x[0]), DigitB(x[0], 0)];
    } else {
      BytesOfFew(DigitA(x[0]), DigitB(x[0], x[1]), DigitC(x[1], 0), 0);
      DigitsJoin(x[0], x[1], 0);
      assert Sextets(x) + more == [DigitA(x[0]), DigitB(x[0], x[1]), DigitC(x[1], 0)];
    }
  }

  lemma SymbolFirst(d: Sextet, s: seq<Byte>, whole: seq<Byte>)
    requires whole != [] && whole[0] == Symbol(d) && whole[1..] == s && Digits(s).Some?
    ensures Digits(whole) == Some([d] + Digits(s).value)
  {
    hide Symbol, Position;
    PositionOfSymbol(d);
  }

  lemma {:induction false} DigitsOfSymbols(ds: seq<Sextet>, s: seq<Byte>)
    requires Digits(s).Some?
    ensures Digits(Symbols(ds) + s) == Some(ds + Digits(s).value)
  {
    hide Symbol, Position, Digits;
    if ds == [] {
      assert Symbols(ds) + s == s;
      assert ds + Digits(s).value == Digits(s).value;
    } else {
      DigitsOfSymbols(ds[1..], s);
      SymbolFirst(ds[0], Symbols(ds[1..]) + s, Symbols(ds) + s);
      assert ds + Digits(s).value == [ds[0]] + (ds[1..] + Digits(s).value);
    }
  }

  lemma {:induction false} PaddingStops(n: nat, tail: seq<Byte>)
    ensures n % 3 == 0 ==> Padding(n) == []
    ensures n % 3 != 0 ==> Digits(Padding(n) + tail) == Some([])
  {
    hide Position;
    if n >= 3 {
      PaddingStops(n - 3, tail);
    }
  }

  /** Text behind an encoding is decoded as well when the encoding has no padding, and dropped unread when
    * it has. */
  lemma EncodedPrefix(x: seq<Byte>, tail: seq<Byte>)
    requires |x| % 3 == 0 ==> Digits(tail).Some?
    ensures Digits(Encode(x) + tail).Some?
    ensures Bytes(Digits(Encode(x) + tail).value) == if |x| % 3 == 0 then x + Bytes(Digits(tail).value) else x
  {
    hide Symbols, Digits, Padding, Bytes, Sextets;
    PaddingStops(|x|, tail);
    var rest := Padding(|x|) + tail;
    Associates(Symbols(Sextets(x)), Padding(|x|), tail);
    if |x| % 3 == 0 {
      assert rest == tail;
    }
    DigitsOfSymbols(Sextets(x), rest);
    BytesOfSextets(x, Digits(rest).value);
    NoDigits();
    assert |x| % 3 != 0 ==> x + Bytes([]) == x;
  }

  lemma NoDigits()
    ensures Digits([]) == Some([]) && Bytes([]) == []
  {
  }

  lemma {:induction false} SymbolsAt(ds: seq<Sextet>)
    ensures |Symbols(ds)| == |ds|
    ensures forall k :: 0 <= k < |ds| ==> Symbols(ds)[k] == Symbol(ds[k])
  {
    hide Symbol;
    if ds != [] {
      SymbolsAt(ds[1..]);
    }
  }

  lemma {:induction false} WholeGroups(x: seq<Byte>)
    ensures (|Sextets(x)| + |Padding(|x|)|) % 4 == 0
  {
    hide DigitA, DigitB, DigitC, DigitD;
    if |x| >= 3 {
      WholeGroups(x[3..]);
    }
  }

  lemma EncodedLength(x: seq<Byte>)
    ensures |Encode(x)| % 4 == 0
  {
    hide Symbols, Sextets, Padding;
    SymbolsAt(Sextets(x));
    WholeGroups(x);
  }

  /** Decoding an encoding gives the bytes back. */
  lemma DecodesEncoded(x: seq<Byte>)
    ensures Meaning(Encode(x)) == Ok(x)
  {
    hide Encode, Digits, Bytes;
    EncodedLength(x);
    NoDigits();
    EncodedPrefix(x, []);
    assert Encode(x) + [] == Encode(x);
    assert x + [] == x;
  }

  /** The decoder accepts more than encodings: after padding it ignores the rest, even characters outside
    * the alphabet. */
  lemma IgnoresAfterPadding(x: seq<Byte>, tail: seq<Byte>)
    requires |x| % 3 != 0 && |tail| % 4 == 0
    ensures Meaning(Encode(x) + tail) == Ok(x)
  {
    hide Encode, Digits, Bytes;
    EncodedLength(x);
    EncodedPrefix(x, tail);
  }

  /** Exactly the texts of a whole number of groups whose characters before any padding are all in the
    * alphabet are accepted. */
  lemma Accepts(s: seq<Byte>)
    ensures Meaning(s).Ok? <==>
            |s| % 4 == 0 &&
            forall k :: 0 <= k < |s| && PAD !in s[..k + 1] ==> exists d: Sextet :: Symbol(d) == s[k]
  {
    hide Symbol, Bytes;
    DigitsDefined(s);
  }

  lemma {:induction false} DigitsDefined(s: seq<Byte>)
    ensures Digits(s).Some? <==>
            forall k :: 0 <= k < |s| && PAD !in s[..k + 1] ==> exists d: Sextet :: Symbol(d) == s[k]
  {
    hide Symbol;
    if s != [] && s[0] != PAD {
      DigitsDefined(s[1..]);
      assert s[..1] == [s[0]];
      if Position(s[0]).Some? {
        assert Symbol(Position(s[0]).value) == s[0];
      }
      assert forall k :: 1 <= k < |s| ==> s[..k + 1] == [s[0]] + s[1..][..k];
      assert forall k :: 0 <= k < |s| - 1 ==> s[1..][k] == s[k + 1];
    }
  }

  // ----- The white space filter

  function Filtered(raw: string): string {
    if raw == "" then "" else (if IsWs(raw[0]) then "" else [raw[0]]) + Filtered(raw[1..])
  }

  /** `decode_base64_content` before its lossy reading as text: what cannot be decoded is empty. */
  method DecodeContent(raw: string) returns (bytes: seq<Byte>)
    ensures bytes == (var m := Meaning(TextBytes(Filtered(raw))); if m.Ok? then m.bytes else [])
  {
    var decoded := Decode(TextBytes(Filtered(raw)));
    match decoded {
      case Ok(b) => return b;
      case Err(_) => return [];
    }
  }

  /** `raw` is `text`, a text of ASCII bytes, with white space put in anywhere. */
  predicate Sprinkled(raw: string, text: seq<Byte>) {
    if raw == "" then text == []
    else if IsWs(raw[0]) then Sprinkled(raw[1..], text)
    else text != [] && raw[0] as int == text[0] && text[0] < 0x80 && Sprinkled(raw[1..], text[1..])
  }

  lemma {:induction false} FilterUndoesSprinkling(raw: string, text: seq<Byte>)
    requires Sprinkled(raw, text)
    ensures TextBytes(Filtered(raw)) == text
  {
    hide IsWs;
    if raw != "" {
      if IsWs(raw[0]) {
        FilterUndoesSprinkling(raw[1..], text);
        assert "" + Filtered(raw[1..]) == Filtered(raw[1..]);
      } else {
        FilterUndoesSprinkling(raw[1..], text[1..]);
        assert ([raw[0]] + Filtered(raw[1..]))[1..] == Filtered(raw[1..]);
        assert text == [text[0]] + text[1..];
      }
    }
  }

  /** Whatever white space breaks up the encoding of some bytes, decoding returns those bytes. */
  lemma RoundTrip(x: seq<Byte>, raw: string)
    requires Sprinkled(raw, Encode(x))
    ensures Meaning(TextBytes(Filtered(raw))) == Ok(x)
  {
    hide Encode, Sprinkled, TextBytes, Filtered, Meaning;
    FilterUndoesSprinkling(raw, Encode(x));
    DecodesEncoded(x);
  }
}
