/** Decimal numerals as bytes, and Python's reading of them. */
module Decimals {
  import opened Ordering

  type Byte = b: int | 0 <= b < 256

  const UNDERSCORE: Byte := 95
  const ZERO: Byte := 48

  predicate IsDigit(b: Byte) { ZERO <= b < ZERO + 10 }

  function Decimal(n: nat): seq<Byte> {
    if n < 10 then [ZERO + n] else Decimal(n / 10) + [ZERO + n % 10]
  }

  /** Digits, with single underscores allowed between them. */
  function ParseNat(s: seq<Byte>): Option<nat> {
    if s == [] || !IsDigit(s[|s| - 1]) then None
    else
      var digit := s[|s| - 1] - ZERO;
      var front := s[..|s| - 1];
      if front == [] then Some(digit)
      else
        var higher := if front[|front| - 1] == UNDERSCORE then front[..|front| - 1] else front;
        match ParseNat(higher)
        case None => None
        case Some(n) => Some(10 * n + digit)
  }

  /** Reading back what was written; so different numbers look different. */
  lemma {:induction false} DecimalParses(n: nat)
    ensures ParseNat(Decimal(n)) == Some(n)
    ensures Decimal(n) != [] && forall i :: 0 <= i < |Decimal(n)| ==> IsDigit(Decimal(n)[i])
  {
    if n >= 10 {
      DecimalParses(n / 10);
      assert Decimal(n)[..|Decimal(n)| - 1] == Decimal(n / 10);
    }
  }
}
