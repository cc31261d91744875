/**
 * The number operations the tool relies on, modelled on exact reals:
 * Math.round (section 21.3.2.28 of ECMA-262), Number.prototype.toFixed
 * followed by parseFloat (section 21.1.3.3 of ECMA-262), and the tool's own
 * formatValue helper.
 */
module JsNumber {

  /** The integer nearest to y; of two equally near integers, the larger one. */
  function NearestInt(y: real): (n: int)
    ensures n as real - 0.5 <= y < n as real + 0.5
  {
    (y + 0.5).Floor
  }

  /** NearestInt meets the ECMA-262 definition: no integer is nearer, and a tie goes to the larger one. */
  lemma NearestIntIsNearest(y: real, m: int)
    ensures var n := NearestInt(y);
            Abs(n as real - y) <= Abs(m as real - y)
            && (Abs(n as real - y) == Abs(m as real - y) && m != n ==> m < n)
  {
    var n := NearestInt(y);
    if m < n {
      assert m as real <= n as real - 1.0;
    } else if m > n {
      assert m as real >= n as real + 1.0;
    }
  }

  lemma NearestIntMonotone(x: real, y: real)
    requires x <= y
    ensures NearestInt(x) <= NearestInt(y)
  {
  }

  function Abs(x: real): real {
    if x < 0.0 then -x else x
  }

  /** Math.round: the nearest integer, ties toward +infinity. */
  function Round(x: real): (r: int)
    ensures Abs(r as real - x) <= 0.5
    ensures x - r as real != 0.5
  {
    NearestInt(x)
  }

  function Pow10(f: nat): (p: real)
    ensures p >= 1.0
  {
    if f == 0 then 1.0 else 10.0 * Pow10(f - 1)
  }

  /** Largest magnitude below which toFixed rounds; from 10^21 on it prints the number as it is. */
  const ToFixedLimit: real := 1_000_000_000_000_000_000_000.0

  /**
   * parseFloat(x.toFixed(f)): a negative x is rounded as its magnitude and given
   * back its sign; a magnitude at or above 10^21 is returned unchanged.
   */
  function ToFixed(x: real, f: nat): (r: real)
    ensures Abs(r - x) <= 0.5 / Pow10(f)
    ensures (x < 0.0 ==> r <= 0.0) && (x >= 0.0 ==> r >= 0.0)
  {
    if x < 0.0 then -NonNegativeToFixed(-x, f) else NonNegativeToFixed(x, f)
  }

  /** The integer n that toFixed keeps for a magnitude x and scale 10^f: the one for which n / scale is nearest to x. */
  function Digits(x: real, scale: real): (n: int)
    ensures n as real - 0.5 <= x * scale < n as real + 0.5
  {
    NearestInt(x * scale)
  }

  function NonNegativeToFixed(x: real, f: nat): (r: real)
    requires x >= 0.0
    ensures r >= 0.0
    ensures Abs(r - x) <= 0.5 / Pow10(f)
  {
    if x >= ToFixedLimit then x
    else
      ScaledDigitsBound(x, Pow10(f));
      Digits(x, Pow10(f)) as real / Pow10(f)
  }

  /** Scaling the kept digits back gives a non-negative value within half a unit of x. */
  lemma ScaledDigitsBound(x: real, scale: real)
    requires x >= 0.0 && scale >= 1.0
    ensures Digits(x, scale) as real / scale >= 0.0
    ensures Abs(Digits(x, scale) as real / scale - x) <= 0.5 / scale
  {
    var n := Digits(x, scale) as real;
    DivideBounds(n, x * scale, scale);
    assert x * scale / scale == x;
    DivideMonotone(0.0, n, scale);
  }

  lemma DivideBounds(n: real, y: real, p: real)
    requires p >= 1.0
    requires n - 0.5 <= y < n + 0.5
    ensures Abs(n / p - y / p) <= 0.5 / p
  {
    var q := (n - y) / p;
    var h := 0.5 / p;
    assert n / p - y / p == q by { DivideDifference(n, y, p); }
    assert q <= h by { DivideMonotone(n - y, 0.5, p); }
    assert -h <= q by { DivideMonotone(-0.5, n - y, p); DivideNegate(0.5, p); }
  }

  lemma DivideDifference(a: real, b: real, p: real)
    requires p > 0.0
    ensures a / p - b / p == (a - b) / p
  {
  }

  lemma DivideNegate(a: real, p: real)
    requires p > 0.0
    ensures -a / p == -(a / p)
  {
  }

  lemma DivideMonotone(a: real, b: real, p: real)
    requires p > 0.0 && a <= b
    ensures a / p <= b / p
  {
    DivideDifference(b, a, p);
    assert (b - a) / p * p == b - a;
  }

  /**
   * Below 10^21, toFixed keeps the integer Digits(x, 10^f), which NearestIntIsNearest
   * shows to be the one section 21.1.3.3 of ECMA-262 asks for, and scales it back by 10^f.
   */
  lemma ToFixedKeepsDigits(x: real, f: nat)
    requires 0.0 <= x < ToFixedLimit
    ensures ToFixed(x, f) == Digits(x, Pow10(f)) as real / Pow10(f)
  {
  }

  /** toFixed rounds a negative number as its magnitude: ties go away from zero. */
  lemma ToFixedIsSymmetric(x: real, f: nat)
    ensures ToFixed(-x, f) == -ToFixed(x, f)
  {
  }

  /**
   * formatValue(value, fixed): a falsy value (zero) is returned untouched,
   * any other value goes through toFixed and parseFloat.
   */
  function FormatValue(value: real, fixed: nat): real
  {
    if value == 0.0 then value else ToFixed(value, fixed)
  }

  /** The zero passthrough changes nothing on exact numbers: rounding zero gives zero. */
  lemma FormatValueIsToFixed(value: real, fixed: nat)
    ensures FormatValue(value, fixed) == ToFixed(value, fixed)
    ensures FormatValue(0.0, fixed) == 0.0
  {
    if value == 0.0 {
      assert NearestInt(0.0) == 0;
    }
  }

  /** A formatted value lies within half a unit of its last kept decimal of the value. */
  lemma FormatValueBound(value: real, fixed: nat)
    ensures Abs(FormatValue(value, fixed) - value) <= 0.5 / Pow10(fixed)
  {
  }
}
