/** Machine integers, powers of two and decimal numerals. */
module Numbers {
  const I64_MIN: int := -0x8000_0000_0000_0000
  const I64_MAX: int := 0x7FFF_FFFF_FFFF_FFFF

  function Pow2(k: nat): (r: nat)
    ensures r >= 1
  {
    if k == 0 then 1 else 2 * Pow2(k - 1)
  }

  predicate IsDigit(c: char) {
    '0' <= c <= '9'
  }

  predicate AllDigits(s: string) {
    forall k :: 0 <= k < |s| ==> IsDigit(s[k])
  }

  function DigitValue(c: char): nat
    requires IsDigit(c)
  {
    c as int - '0' as int
  }

  function DecimalValue(s: string): nat
    requires AllDigits(s)
  {
    if s == "" then 0 else 10 * DecimalValue(s[..|s| - 1]) + DigitValue(s[|s| - 1])
  }

  function Decimal(n: nat): string {
    if n < 10 then [('0' as int + n) as char] else Decimal(n / 10) + [('0' as int + n % 10) as char]
  }

  /** A numeral reads back as its number. */
  lemma {:induction false} DecimalReads(n: nat)
    ensures Decimal(n) != "" && AllDigits(Decimal(n)) && DecimalValue(Decimal(n)) == n
  {
    if n < 10 {
      var c := ('0' as int + n) as char;
      assert Decimal(n) == [c];
      assert [c][..0] == "";
      assert DecimalValue([c]) == 10 * DecimalValue("") + DigitValue(c);
    } else {
      var s, c := Decimal(n / 10), ('0' as int + n % 10) as char;
      DecimalReads(n / 10);
      assert (s + [c])[..|s|] == s;
      assert DigitValue(c) == n % 10;
    }
  }
}
