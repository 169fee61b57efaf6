/**
 * The Win32 arithmetic helpers that the Linux build supplies itself:
 * `RtlEnlargedUnsignedDivide` (64-by-32-bit unsigned division) and `MulDiv`
 * (a*b/d with the product held in 64 bits and the quotient rounded half up).
 */
module LinuxEnv {
  import opened Common

  const Two32: int := 0x1_0000_0000
  const Two64: int := 0x1_0000_0000_0000_0000

  /** The signed 32-bit values whose negation is defined (`INT_MIN` excluded). */
  predicate NegatableInt32(x: int) { Int32Min < x <= Int32Max }

  /** The magnitude of an operand, as the source's `abs` gives it for a negatable int. */
  function Abs(x: int): nat { if x < 0 then -x else x }

  /** An odd number of negative operands: the sign bit of `a ^ b ^ d`. */
  predicate OddNegatives(a: int, b: int, d: int) {
    ((if a < 0 then 1 else 0) + (if b < 0 then 1 else 0) + (if d < 0 then 1 else 0)) % 2 == 1
  }

  /** The magnitude MulDiv aims for: |a|*|b| / |d| rounded half up. */
  function RoundedQuotient(a: int, b: int, d: int): int
    requires d != 0
  {
    (Abs(a) * Abs(b) + Abs(d) / 2) / Abs(d)
  }

  lemma ProductBound(x: nat, y: nat)
    requires x <= Int32Max && y <= Int32Max
    ensures x * y <= Int32Max * Int32Max
  {
    assert x * y <= x * Int32Max;
    assert x * Int32Max <= Int32Max * Int32Max;
  }

  /** When the 64-bit value fits the quotient test, the high-word test of the source agrees. */
  lemma HighWordTest(q: nat, nd: nat)
    requires nd > 0
    ensures (nd > q / Two32) <==> (q < nd * Two32)
  {
    if nd > q / Two32 {
      assert nd >= q / Two32 + 1;
      assert nd * Two32 >= (q / Two32 + 1) * Two32;
    } else {
      assert nd * Two32 <= (q / Two32) * Two32 <= q;
    }
  }

  lemma QuotientBelow(q: nat, nd: nat)
    requires nd > 0
    ensures q / nd < Two32 <==> q < nd * Two32
  {
    if q / nd < Two32 {
      assert q == nd * (q / nd) + q % nd;
      assert nd * (q / nd) <= nd * (Two32 - 1);
    } else {
      assert nd * (q / nd) >= nd * Two32;
      assert q >= nd * (q / nd);
    }
  }

  /**
   * Unsigned division of a 64-bit dividend by a 32-bit divisor. Both results are
   * truncated to 32 bits, as the casts in the source do; the remainder is what the
   * source stores through the optional `Remainder` out-parameter.
   */
  function RtlEnlargedUnsignedDivide(dividend: int, divisor: int): (r: (int, int))
    requires 0 <= dividend < Two64 && 0 < divisor < Two32
    ensures 0 <= r.0 < Two32 && 0 <= r.1 < divisor
    ensures dividend < divisor * Two32 ==> r.0 * divisor + r.1 == dividend
  {
    DivideFits(dividend, divisor);
    ((dividend / divisor) % Two32, (dividend % divisor) % Two32)
  }

  lemma DivideFits(dividend: nat, divisor: nat)
    requires 0 < divisor < Two32
    ensures (dividend % divisor) % Two32 == dividend % divisor < divisor
    ensures dividend < divisor * Two32 ==>
              ((dividend / divisor) % Two32) * divisor + (dividend % divisor) % Two32 == dividend
  {
    var q, m := dividend / divisor, dividend % divisor;
    assert m < Two32;
    if dividend < divisor * Two32 {
      QuotientBelow(dividend, divisor);
      assert q % Two32 == q;
      assert q * divisor + m == dividend;
    }
  }

  /**
   * The two tests MulDiv makes on the 64-bit value q = |a|*|b| + |d|/2 (high word
   * below the divisor, then the 32-bit quotient non-negative as an int) pass
   * exactly when q / |d| fits a non-negative int, and then the quotient is exact.
   */
  lemma QuotientTests(q: nat, nd: nat)
    requires 0 < nd < Two32 && q < Two64
    ensures (nd > q / Two32 && RtlEnlargedUnsignedDivide(q, nd).0 <= Int32Max) <==> q / nd <= Int32Max
    ensures q / nd <= Int32Max ==> RtlEnlargedUnsignedDivide(q, nd).0 == q / nd
  {
    HighWordTest(q, nd);
    QuotientBelow(q, nd);
  }

  /**
   * The second half of MulDiv: divides the 64-bit value `quad` by the magnitude
   * `nd` of the denominator when the high word is below `nd` and the 32-bit quotient
   * is non-negative as an int, and gives -1 otherwise.
   */
  function DivideRounded(quad: nat, nd: nat, negative: bool): (r: int)
    requires quad < Two64 && nd < Two32
    ensures nd == 0 ==> r == -1
    ensures nd > 0 && quad / nd > Int32Max ==> r == -1
    ensures nd > 0 && quad / nd <= Int32Max ==> r == (if negative then -(quad / nd) else quad / nd)
  {
    if nd > quad / Two32 then
      var (low, _) := RtlEnlargedUnsignedDivide(quad, nd);
      QuotientTests(quad, nd);
      if low <= Int32Max then (if negative then -low else low) else -1
    else
      if nd == 0 then -1 else QuotientTests(quad, nd); -1
  }

  /**
   * `MulDiv(nNumber, nNumerator, nDenominator)`: -1 for a zero denominator or a
   * quotient that does not fit a non-negative 32-bit int; otherwise the rounded
   * quotient, negated when an odd number of operands are negative.
   */
  function MulDiv(a: int, b: int, d: int): (r: int)
    requires NegatableInt32(a) && NegatableInt32(b) && NegatableInt32(d)
    ensures d == 0 ==> r == -1
    ensures d != 0 && RoundedQuotient(a, b, d) > Int32Max ==> r == -1
    ensures d != 0 && RoundedQuotient(a, b, d) <= Int32Max ==>
              r == (if OddNegatives(a, b, d) then -RoundedQuotient(a, b, d) else RoundedQuotient(a, b, d))
  {
    ProductBound(Abs(a), Abs(b));
    DivideRounded(Abs(a) * Abs(b) + Abs(d) / 2, Abs(d), OddNegatives(a, b, d))
  }

  /** For non-negative operands MulDiv is (a*b + d/2) / d, i.e. rounding half up. */
  lemma MulDivRoundsHalfUp(a: int, b: int, d: int)
    requires 0 <= a <= Int32Max && 0 <= b <= Int32Max && 0 < d <= Int32Max
    requires (a * b + d / 2) / d <= Int32Max
    ensures MulDiv(a, b, d) == (a * b + d / 2) / d
  {
  }

  /**
   * The user-data-header skip of the 7-bit branch: MulDiv(n + 1, 8, 7) is
   * ((n + 1) * 8 + 3) / 7, the nearest septet count, for every header length byte n.
   */
  lemma {:induction false} HeaderSeptetsRounded(n: int)
    requires 0 <= n < 256
    ensures MulDiv(n + 1, 8, 7) == ((n + 1) * 8 + 3) / 7
    ensures 1 <= MulDiv(n + 1, 8, 7) <= 293
  {
    assert Abs(n + 1) * Abs(8) + Abs(7) / 2 == (n + 1) * 8 + 3;
  }

  /**
   * The rounded skip equals the ceiling ((n + 1) * 8 + 6) / 7 exactly when
   * (n + 1) mod 7 is 0, 4, 5 or 6; for 1, 2 and 3 it is one septet short.
   */
  lemma HeaderSeptetsVersusCeiling(n: int)
    requires 0 <= n < 256
    ensures MulDiv(n + 1, 8, 7) == ((n + 1) * 8 + 6) / 7 <==> (n + 1) % 7 !in {1, 2, 3}
    ensures (n + 1) % 7 in {1, 2, 3} ==> MulDiv(n + 1, 8, 7) + 1 == ((n + 1) * 8 + 6) / 7
  {
    HeaderSeptetsRounded(n);
    RoundedVersusCeiling(n + 1);
  }

  /** Eighths of septets rounded to nearest against rounded up, by the remainder of m modulo 7. */
  lemma RoundedVersusCeiling(m: int)
    requires 0 <= m
    ensures (m * 8 + 3) / 7 == (m * 8 + 6) / 7 <==> m % 7 !in {1, 2, 3}
    ensures m % 7 in {1, 2, 3} ==> (m * 8 + 3) / 7 + 1 == (m * 8 + 6) / 7
  {
    var k := m / 7;
    var j := m % 7;
    assert m == 7 * k + j;
    assert m * 8 + 3 == 7 * (8 * k + j) + (j + 3);
    assert m * 8 + 6 == 7 * (8 * k + j) + (j + 6);
  }
}
