/** Decimal rendering of integers, as Go's strconv.Itoa and Swift's interpolation write it. */
module Decimals {
  predicate IsDigit(c: char) { '0' <= c <= '9' }

  function Digit(d: nat): char
    requires d < 10
  {
    '0' + d as char
  }

  function Decimal(n: nat): string {
    if n < 10 then [Digit(n)] else Decimal(n / 10) + [Digit(n % 10)]
  }

  function Value(s: string): int {
    if s == [] then 0 else 10 * Value(s[..|s| - 1]) + (s[|s| - 1] as int - '0' as int)
  }

  /** Rendering loses nothing: the number can be read back. */
  lemma {:induction false} DecimalReadsBack(n: nat)
    ensures Decimal(n) != [] && Value(Decimal(n)) == n
  {
    if n < 10 {
      assert Decimal(n)[..0] == [];
    } else {
      DecimalReadsBack(n / 10);
      assert Decimal(n)[..|Decimal(n)| - 1] == Decimal(n / 10);
    }
  }

  /** All digits, and no leading zero unless the number is zero. */
  lemma {:induction false} DecimalDigits(n: nat)
    ensures Decimal(n) != [] && (forall i :: 0 <= i < |Decimal(n)| ==> IsDigit(Decimal(n)[i]))
    ensures Decimal(n)[0] == '0' <==> n == 0
  {
    if n >= 10 { DecimalDigits(n / 10); }
  }
}
