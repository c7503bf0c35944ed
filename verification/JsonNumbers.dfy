/** Decimal numerals mean their numbers, to the parser and to the runtime's own reader. */
module JsonNumbers {
  import opened Wrappers
  import opened JsonText
  import opened JsonValue
  import R = PolicyRuntime

  /** The decimal digits of a number. */
  function DecimalBytes(n: nat): Bytes {
    if n < 10 then [0x30 + n] else DecimalBytes(n / 10) + [0x30 + n % 10]
  }

  lemma {:induction false} DecimalIsNumeral(n: nat)
    ensures IsIntegerPart(DecimalBytes(n)) && DigitsValue(DecimalBytes(n)) == n
    ensures n > 0 ==> DecimalBytes(n)[0] != 0x30
  {
    var s := DecimalBytes(n);
    if n < 10 {
      assert s[..0] == [];
      assert DigitsValue(s) == 10 * DigitsValue([]) + DigitValue(s[0]);
    } else {
      DecimalIsNumeral(n / 10);
      var t, d := DecimalBytes(n / 10), 0x30 + n % 10;
      assert s[..|s| - 1] == t && s[|s| - 1] == d;
      assert DigitValue(d) == n % 10;
    }
  }

  function Signed(negative: bool, n: int): int {
    if negative then -n else n
  }

  function Whole(negative: bool, n: nat): Numeral {
    DecimalIsNumeral(n);
    Numeral(negative, DecimalBytes(n), [], [])
  }

  /** A decimal with or without a minus sign: a 64-bit integer is held as that integer; minus zero and larger numbers
    * are floats to the parser. */
  lemma WholeMeans(fl: Floats, negative: bool, n: nat)
    ensures
      var v := Signed(negative, n);
      && (FitsI64(v) && !(negative && n == 0) ==> Tree(fl, DNumber(Whole(negative, n))) == Number(I64(v)))
      && (!FitsI64(v) || (negative && n == 0) ==> Tree(fl, DNumber(Whole(negative, n))).n.F64?)
  {
    DecimalIsNumeral(n);
    hide DecimalBytes, DigitsValue;
  }

  /** The runtime reads the same decimals as those integers, minus zero as zero. */
  lemma WholeReads(negative: bool, n: nat)
    ensures
      var v := Signed(negative, n);
      R.ParseI64((if negative then [0x2D] else []) + DecimalBytes(n)) == if FitsI64(v) then Some(v) else None
  {
    DecimalIsNumeral(n);
    var digits := DecimalBytes(n);
    var s := (if negative then [0x2D] else []) + digits;
    if negative {
      assert s[1..] == digits;
    } else {
      assert s == digits;
    }
    hide DecimalBytes, DigitsValue;
  }
}
