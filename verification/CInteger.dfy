/** C integer division, and Zephyr's DIV_ROUND_CLOSEST on top of it. */
module CInteger {

  const INT32_MAX := 0x7FFF_FFFF
  const INT32_MIN := -0x8000_0000
  const INT64_MAX := 0x7FFF_FFFF_FFFF_FFFF
  const INT64_MIN := -0x8000_0000_0000_0000

  predicate IsInt32(x: int) {
    INT32_MIN <= x <= INT32_MAX
  }

  predicate IsInt64(x: int) {
    INT64_MIN <= x <= INT64_MAX
  }

  function Abs(x: int): nat {
    if x < 0 then -x else x
  }

  /** C division truncates toward zero. */
  function CDiv(a: int, b: int): int
    requires b != 0
  {
    if (a < 0) == (b < 0) then Abs(a) / Abs(b) else -(Abs(a) / Abs(b))
  }

  function DivRoundClosest(n: int, d: int): int
    requires d != 0
  {
    if (n < 0) != (d < 0) then CDiv(n - CDiv(d, 2), d) else CDiv(n + CDiv(d, 2), d)
  }

  function Clamp(x: int, lo: int, hi: int): int {
    if x < lo then lo else if x > hi then hi else x
  }

  function Min(x: int, y: int): int {
    if x < y then x else y
  }

  function Max(x: int, y: int): int {
    if x > y then x else y
  }

  // ----- properties

  lemma DivisionBounds(a: nat, b: nat)
    requires b > 0
    ensures a / b * b <= a < a / b * b + b
  {
  }

  /** Rounding a magnitude to nearest, halves up. */
  function RoundMagnitude(n: nat, d: nat): int
    requires d > 0
  {
    (n + d / 2) / d
  }

  /** Rounding works on magnitudes, and the sign is that of the exact quotient. */
  lemma RoundsMagnitude(n: int, d: int)
    requires d != 0
    ensures DivRoundClosest(n, d) ==
            if (n < 0) == (d < 0) then RoundMagnitude(Abs(n), Abs(d)) else -RoundMagnitude(Abs(n), Abs(d))
  {
  }

  lemma RoundMagnitudeError(n: nat, d: nat)
    requires d > 0
    ensures 2 * Abs(RoundMagnitude(n, d) * d - n) <= d
  {
    DivisionBounds(n + d / 2, d);
  }

  /** The rounded quotient is nearest: it is off by at most half of the divisor. */
  lemma RoundingError(n: int, d: int)
    requires d != 0
    ensures 2 * Abs(DivRoundClosest(n, d) * d - n) <= Abs(d)
  {
    RoundsMagnitude(n, d);
    RoundMagnitudeError(Abs(n), Abs(d));
    ProductSigns(RoundMagnitude(Abs(n), Abs(d)), Abs(d));
  }

  lemma ProductSigns(m: int, d: int)
    ensures m * -d == -(m * d) && -m * d == -(m * d) && -m * -d == m * d
  {
  }

  lemma QuotientFromProduct(q: int, d: int, lo: int)
    requires d > 0 && lo * d < (q + 1) * d
    ensures lo <= q
  {
    if q < lo {
      MultiplyOrdered(q + 1, lo, d);
    }
  }

  lemma Distribute(x: int, y: int, z: int)
    ensures x * (y + z) == x * y + x * z
  {
  }

  lemma MultiplyOrdered(x: int, y: int, d: int)
    requires x <= y && 0 <= d
    ensures x * d <= y * d
  {
    assert (y - x) * d >= 0;
  }

  lemma RoundMagnitudeMonotone(n: nat, m: nat, d: nat)
    requires d > 0 && n <= m
    ensures RoundMagnitude(n, d) <= RoundMagnitude(m, d)
  {
    DivisionBounds(n + d / 2, d);
    DivisionBounds(m + d / 2, d);
    var p, q := RoundMagnitude(n, d), RoundMagnitude(m, d);
    assert (q + 1) * d == q * d + d;
    QuotientFromProduct(q, d, p);
  }

  lemma RoundingIsOdd(n: int, d: int)
    requires d > 0 && 0 <= n
    ensures DivRoundClosest(-n, d) == -DivRoundClosest(n, d)
  {
    if n == 0 {
      RoundingIsExact(0, d);
    } else {
      RoundsMagnitude(n, d);
      RoundsMagnitude(-n, d);
    }
  }

  lemma RoundingIsMonotoneUpward(n: nat, m: int, d: int)
    requires d > 0 && n <= m
    ensures DivRoundClosest(n, d) <= DivRoundClosest(m, d)
  {
    RoundsMagnitude(n, d);
    RoundsMagnitude(m, d);
    RoundMagnitudeMonotone(n, m, d);
  }

  lemma RoundingIsMonotone(n: int, m: int, d: int)
    requires d > 0 && n <= m
    ensures DivRoundClosest(n, d) <= DivRoundClosest(m, d)
  {
    if 0 <= n {
      RoundingIsMonotoneUpward(n, m, d);
    } else if m <= 0 {
      RoundingIsMonotoneUpward(-m, -n, d);
      RoundingIsOdd(-m, d);
      RoundingIsOdd(-n, d);
    } else {
      RoundingIsMonotoneUpward(0, m, d);
      RoundingIsMonotoneUpward(0, -n, d);
      RoundingIsOdd(0, d);
      RoundingIsOdd(-n, d);
    }
  }

  lemma RoundingIsExact(k: int, d: int)
    requires d > 0
    ensures DivRoundClosest(k * d, d) == k
  {
    var q := DivRoundClosest(k * d, d);
    RoundingError(k * d, d);
    var e := q - k;
    assert q * d - k * d == e * d;
    if e >= 1 {
      MultiplyOrdered(1, e, d);
    } else if e <= -1 {
      MultiplyOrdered(e, -1, d);
    }
  }

  /** A quotient of something between two multiples lies between the two factors. */
  lemma RoundingStaysBetween(lo: int, hi: int, n: int, d: int)
    requires d > 0 && lo * d <= n <= hi * d
    ensures lo <= DivRoundClosest(n, d) <= hi
  {
    RoundingIsExact(lo, d);
    RoundingIsExact(hi, d);
    RoundingIsMonotone(lo * d, n, d);
    RoundingIsMonotone(n, hi * d, d);
  }
}
