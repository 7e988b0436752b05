/**
 * java.math.BigDecimal as an unscaled integer and a scale: the number
 * unscaled * 10^(-scale). Only the operations the loan service uses are
 * modelled: compareTo, signum and setScale with HALF_UP rounding.
 */
module Decimal {
  import opened Outcomes

  datatype Dec = Dec(unscaled: int, scale: int)

  const Zero := Dec(0, 0)

  function Pow10(n: nat): (r: nat)
    ensures r >= 1
  {
    if n == 0 then 1 else 10 * Pow10(n - 1)
  }

  /** The value of `d` written with `s` decimals; exact because s >= d.scale. */
  function ScaledTo(d: Dec, s: int): int
    requires s >= d.scale
  {
    d.unscaled * Pow10(s - d.scale)
  }

  /** BigDecimal.signum: the sign of the number, which is the sign of its unscaled part. */
  function Signum(d: Dec): (r: int)
    ensures r == -1 <==> d.unscaled < 0
    ensures r == 0 <==> d.unscaled == 0
    ensures r == 1 <==> d.unscaled > 0
  {
    if d.unscaled < 0 then -1 else if d.unscaled == 0 then 0 else 1
  }

  /** BigDecimal.compareTo: compares numeric values, ignoring the scale. */
  function Compare(a: Dec, b: Dec): (r: int)
    ensures -1 <= r <= 1
  {
    var s := Max(a.scale, b.scale);
    var x := ScaledTo(a, s);
    var y := ScaledTo(b, s);
    if x < y then -1 else if x == y then 0 else 1
  }

  lemma SignOfScaled(u: int, k: nat)
    requires k >= 1
    ensures u < 0 <==> u * k < 0
    ensures u == 0 <==> u * k == 0
  {
    if u < 0 {
      assert u * k <= u * 1;
    } else if u > 0 {
      assert u * k >= u * 1;
    }
  }

  /** Comparing against zero is the same as asking for the sign. */
  lemma CompareZeroIsSignum(d: Dec)
    ensures Compare(d, Zero) == Signum(d)
  {
    var s := Max(d.scale, 0);
    SignOfScaled(d.unscaled, Pow10(s - d.scale));
    assert ScaledTo(Zero, s) == 0;
  }

  /** Two decimals written with the same scale compare as their unscaled parts. */
  lemma CompareSameScale(a: Dec, b: Dec)
    requires a.scale == b.scale
    ensures Compare(a, b) == (if a.unscaled < b.unscaled then -1 else if a.unscaled == b.unscaled then 0 else 1)
  {
    assert Pow10(0) == 1;
  }

  /**
   * Rounds u / k to an integer, halves away from zero (RoundingMode.HALF_UP).
   */
  function RoundHalfUp(u: int, k: nat): (q: int)
    requires k >= 1
    ensures u >= 0 ==> q >= 0
    ensures u >= 0 ==> 2 * (u - q * k) < k && 2 * (q * k - u) <= k
    decreases if u < 0 then 1 else 0
  {
    if u >= 0 then
      var q0 := u / k;
      var r0 := u % k;
      assert u == q0 * k + r0;
      if 2 * r0 >= k then
        assert (q0 + 1) * k - u == k - r0;
        q0 + 1
      else
        q0
    else
      -RoundHalfUp(-u, k)
  }

  /** BigDecimal.setScale(n, RoundingMode.HALF_UP). */
  function SetScaleHalfUp(d: Dec, n: int): (r: Dec)
    ensures r.scale == n
    ensures d.unscaled >= 0 ==> r.unscaled >= 0
    ensures d.scale <= n ==> r.unscaled == ScaledTo(d, n)
    ensures d.scale > n && d.unscaled >= 0 ==>
              var k := Pow10(d.scale - n);
              2 * (d.unscaled - r.unscaled * k) < k && 2 * (r.unscaled * k - d.unscaled) <= k
  {
    if d.scale <= n then Dec(ScaledTo(d, n), n)
    else Dec(RoundHalfUp(d.unscaled, Pow10(d.scale - n)), n)
  }

  /** Raising the scale never changes the numeric value. */
  lemma {:induction false} WideningKeepsValue(d: Dec, n: int)
    requires d.scale <= n
    ensures Compare(SetScaleHalfUp(d, n), d) == 0
  {
    var r := SetScaleHalfUp(d, n);
    assert Max(r.scale, d.scale) == n;
    assert ScaledTo(r, n) == r.unscaled * Pow10(0);
  }
}
