/** Exact decimals and the half-up rounding of `round` in stock_price.py,
    which quantizes a Python `Decimal` to `precision` fractional digits with
    ROUND_HALF_UP (ties go away from zero). */
module Rounding {

  /** The decimal number `mant × 10^-exp`, as Python's `Decimal` holds it. */
  datatype Dec = Dec(mant: int, exp: nat)

  function Pow10(n: nat): (r: nat)
    ensures r >= 1
  {
    if n == 0 then 1 else 10 * Pow10(n - 1)
  }

  function Abs(x: int): (a: nat)
  {
    if x < 0 then -x else x
  }

  /** Exact decimal multiplication (`price * rate`): the exponents add, the
      product is zero exactly when a factor is, and its value is the product
      of the values (cross-multiplied by the powers of ten). */
  function Mul(a: Dec, b: Dec): (r: Dec)
    ensures r.exp == a.exp + b.exp
    ensures r.mant == 0 <==> a.mant == 0 || b.mant == 0
    ensures r.mant * (Pow10(a.exp) * Pow10(b.exp)) == (a.mant * b.mant) * Pow10(r.exp)
  {
    Pow10Add(a.exp, b.exp);
    Dec(a.mant * b.mant, a.exp + b.exp)
  }

  /** The same number written with `s` more fractional digits. */
  function Rescale(x: Dec, s: nat): (r: Dec)
  {
    Dec(x.mant * Pow10(s), x.exp + s)
  }

  /** Rescaling keeps the number: `r.mant × 10^-r.exp == x.mant × 10^-x.exp`,
      cross-multiplied. */
  lemma RescaleSameNumber(x: Dec, s: nat)
    ensures Rescale(x, s).mant * Pow10(x.exp) == x.mant * Pow10(Rescale(x, s).exp)
  {
    Pow10Add(x.exp, s);
  }

  /** Multiplying by one written with `s` fractional digits (`1.00` for
      `s == 2`) only appends `s` trailing zeros. */
  lemma MulByOne(x: Dec, s: nat)
    ensures Mul(x, Dec(Pow10(s), s)) == Rescale(x, s)
  {
  }

  /** `m / d` rounded to the nearest integer, halves away from zero. */
  function DivHalfUp(m: int, d: nat): (k: int)
    requires d >= 1
  {
    var q := Abs(m) / d;
    var n := if 2 * (Abs(m) % d) >= d then q + 1 else q;
    if m < 0 then -n else n
  }

  /** `round(x, precision)`: `x` quantized to exponent `precision`, half up. */
  function Round(x: Dec, precision: nat): (r: Dec)
    ensures r.exp == precision
  {
    if x.exp <= precision then Dec(x.mant * Pow10(precision - x.exp), precision)
    else Dec(DivHalfUp(x.mant, Pow10(x.exp - precision)), precision)
  }

  // ---------------------------------------------------------------------
  // What half-up rounding means, independently of how Round computes it.
  // `k × 10^-p` stands for the rounded value; both sides of each comparison
  // are multiplied by `10^(x.exp + p)` so that everything stays an integer.
  // ---------------------------------------------------------------------

  /** `k × 10^-p` is within half a unit `½ × 10^-p` of `x`. */
  ghost predicate WithinHalfUnit(x: Dec, p: nat, k: int)
  {
    2 * Abs(k * Pow10(x.exp) - x.mant * Pow10(p)) <= Pow10(x.exp)
  }

  /** When `x` lies exactly halfway, `k × 10^-p` is the candidate farther from zero. */
  ghost predicate TiesAwayFromZero(x: Dec, p: nat, k: int)
  {
    2 * Abs(k * Pow10(x.exp) - x.mant * Pow10(p)) == Pow10(x.exp) ==>
      Abs(k) * Pow10(x.exp) > Abs(x.mant) * Pow10(p)
  }

  ghost predicate IsHalfUpRounding(x: Dec, p: nat, k: int)
  {
    WithinHalfUnit(x, p, k) && TiesAwayFromZero(x, p, k)
  }

  /** The same two conditions for the integer quotient `m / d`. */
  ghost predicate NearestHalfUp(m: int, d: nat, k: int)
  {
    2 * Abs(k * d - m) <= d && (2 * Abs(k * d - m) == d ==> Abs(k) * d > Abs(m))
  }

  // ---------------------------------------------------------------------
  // Arithmetic helpers
  // ---------------------------------------------------------------------

  lemma {:induction false} Pow10Add(a: nat, b: nat)
    ensures Pow10(a + b) == Pow10(a) * Pow10(b)
  {
    if a > 0 {
      Pow10Add(a - 1, b);
      assert Pow10(a + b) == 10 * Pow10(a - 1 + b);
    }
  }

  lemma MulPositive(x: int, c: int)
    requires x >= 1 && c >= 1
    ensures x * c >= c
  {
    assert x * c == (x - 1) * c + c;
    assert (x - 1) * c >= 0;
  }

  lemma MulCancel(a: int, b: int, c: int)
    requires c >= 1
    ensures a * c <= b * c <==> a <= b
    ensures a * c == b * c <==> a == b
    ensures a * c > b * c <==> a > b
  {
    assert b * c - a * c == (b - a) * c;
    if a < b {
      MulPositive(b - a, c);
    } else if a > b {
      MulPositive(a - b, c);
      assert a * c - b * c == (a - b) * c;
    }
  }

  lemma AbsMul(y: int, c: int)
    requires c >= 0
    ensures Abs(y * c) == Abs(y) * c
  {
    if y < 0 {
      assert y * c == -((-y) * c);
    }
  }

  /** Multiplying the distance, the unit and both magnitudes by the same
      positive factor changes neither condition of half-up rounding. */
  lemma ConditionsScale(k: int, m: int, unit: int, c: int)
    requires c >= 1
    ensures (2 * Abs(k * (unit * c) - m * c) <= unit * c) == (2 * Abs(k * unit - m) <= unit)
    ensures (2 * Abs(k * (unit * c) - m * c) == unit * c) == (2 * Abs(k * unit - m) == unit)
    ensures (Abs(k) * (unit * c) > Abs(m) * c) == (Abs(k) * unit > Abs(m))
  {
    DistanceScale(k, m, unit, c);
    var a := 2 * Abs(k * unit - m);
    MulCancel(a, unit, c);
    Factor(Abs(k), unit, 0, c);
    MulCancel(Abs(k) * unit, Abs(m), c);
  }

  lemma DistanceScale(k: int, m: int, unit: int, c: int)
    requires c >= 1
    ensures 2 * Abs(k * (unit * c) - m * c) == (2 * Abs(k * unit - m)) * c
  {
    var y := k * unit - m;
    Factor(k, unit, m, c);
    AbsMul(y, c);
  }

  lemma Factor(k: int, unit: int, m: int, c: int)
    ensures k * (unit * c) - m * c == (k * unit - m) * c
    ensures k * (unit * c) == (k * unit) * c
  {
  }

  lemma NearestNegate(m: int, d: nat, k: int)
    ensures NearestHalfUp(m, d, k) == NearestHalfUp(-m, d, -k)
  {
    assert (-k) * d - (-m) == -(k * d - m);
  }

  // ---------------------------------------------------------------------
  // The integer core: DivHalfUp is the one nearest-half-up quotient
  // ---------------------------------------------------------------------

  lemma DivHalfUpNearestNonNegative(m: nat, d: nat)
    requires d >= 1
    ensures NearestHalfUp(m, d, DivHalfUp(m, d))
  {
    var q, rem := m / d, m % d;
    assert m == q * d + rem;
    if 2 * rem >= d {
      assert DivHalfUp(m, d) == q + 1;
      assert (q + 1) * d - m == d - rem;
      assert Abs((q + 1) * d) == (q + 1) * d;
    } else {
      assert DivHalfUp(m, d) == q;
      assert q * d - m == -rem;
    }
  }

  lemma DivHalfUpNearest(m: int, d: nat)
    requires d >= 1
    ensures NearestHalfUp(m, d, DivHalfUp(m, d))
  {
    if m >= 0 {
      DivHalfUpNearestNonNegative(m, d);
    } else {
      DivHalfUpNearestNonNegative(-m, d);
      NearestNegate(m, d, DivHalfUp(m, d));
    }
  }

  lemma NearestUniqueNonNegative(m: nat, d: nat, k: int)
    requires d >= 1 && NearestHalfUp(m, d, k)
    ensures k == DivHalfUp(m, d)
  {
    var q, rem := m / d, m % d;
    assert m == q * d + rem;
    var t := k - q;
    assert k * d - m == t * d - rem;
    if t <= -1 {
      MulCancel(t, -1, d);
      assert false;
    } else if t >= 2 {
      MulCancel(t, 2, d);
      assert false;
    } else if t == 0 {
      assert k * d - m == -rem;
    } else {
      assert k * d - m == d - rem;
    }
  }

  lemma NearestUnique(m: int, d: nat, k: int)
    requires d >= 1 && NearestHalfUp(m, d, k)
    ensures k == DivHalfUp(m, d)
  {
    if m >= 0 {
      NearestUniqueNonNegative(m, d, k);
    } else {
      NearestNegate(m, d, k);
      NearestUniqueNonNegative(-m, d, -k);
    }
  }

  // ---------------------------------------------------------------------
  // From the integer core to decimals
  // ---------------------------------------------------------------------

  /** With `x.exp > p`, both conditions on `x` are the integer conditions on
      `x.mant / 10^(x.exp - p)`. */
  lemma HalfUpAsQuotient(x: Dec, p: nat, k: int)
    requires x.exp > p
    ensures IsHalfUpRounding(x, p, k) == NearestHalfUp(x.mant, Pow10(x.exp - p), k)
  {
    var d, c := Pow10(x.exp - p), Pow10(p);
    Pow10Add(x.exp - p, p);
    assert Pow10(x.exp) == d * c;
    ConditionsScale(k, x.mant, d, c);
  }

  /** With `x.exp <= p`, the only integer within half a unit is the exact
      rescaling of `x`, and there is never a tie. */
  lemma HalfUpExact(x: Dec, p: nat, k: int)
    requires x.exp <= p
    ensures IsHalfUpRounding(x, p, k) <==> k == x.mant * Pow10(p - x.exp)
  {
    var c, s := Pow10(x.exp), Pow10(p - x.exp);
    Pow10Add(p - x.exp, x.exp);
    var exact := x.mant * s;
    assert x.mant * Pow10(p) == exact * c;
    ExactCore(k, exact, c);
  }

  /** At a common scale `c`, only the exact value is within half of `c`. */
  lemma ExactCore(k: int, exact: int, c: int)
    requires c >= 1
    ensures (2 * Abs(k * c - exact * c) <= c) == (k == exact)
    ensures 2 * Abs(k * c - exact * c) != c
  {
    DistanceScale(k, exact, 1, c);
    MulCancel(2 * Abs(k - exact), 1, c);
  }

  /** `round(x, p)` is a multiple of `10^-p` within half a unit of `x`, and
      a value exactly halfway is rounded away from zero. */
  lemma RoundIsHalfUp(x: Dec, p: nat)
    ensures Round(x, p).exp == p
    ensures IsHalfUpRounding(x, p, Round(x, p).mant)
  {
    if x.exp <= p {
      HalfUpExact(x, p, Round(x, p).mant);
    } else {
      DivHalfUpNearest(x.mant, Pow10(x.exp - p));
      HalfUpAsQuotient(x, p, Round(x, p).mant);
    }
  }

  /** Half-up rounding determines its result: any `k` meeting both
      conditions is the coefficient `round` returns. */
  lemma RoundUnique(x: Dec, p: nat, k: int)
    requires IsHalfUpRounding(x, p, k)
    ensures k == Round(x, p).mant
  {
    if x.exp <= p {
      HalfUpExact(x, p, k);
    } else {
      HalfUpAsQuotient(x, p, k);
      NearestUnique(x.mant, Pow10(x.exp - p), k);
    }
  }

  /** Rounding depends on the number only, not on how many trailing zeros
      its representation carries (so `1.00 × price` rounds like `price`). */
  lemma {:induction false} RoundRescale(x: Dec, s: nat, p: nat)
    ensures Round(Rescale(x, s), p) == Round(x, p)
  {
    var y := Rescale(x, s);
    var k := Round(x, p).mant;
    var c, e, q := Pow10(s), Pow10(x.exp), Pow10(p);
    Pow10Add(x.exp, s);
    assert Pow10(y.exp) == e * c;
    assert y.mant * q == (x.mant * q) * c;
    AbsMul(x.mant, c);
    assert Abs(y.mant) * q == (Abs(x.mant) * q) * c;
    assert Abs(x.mant * q) == Abs(x.mant) * q by { AbsMul(x.mant, q); }
    ConditionsScale(k, x.mant * q, e, c);
    RoundIsHalfUp(x, p);
    assert IsHalfUpRounding(y, p, k);
    RoundUnique(y, p, k);
  }

  /** Rounding an already rounded number again changes nothing. */
  lemma RoundIdempotent(x: Dec, p: nat)
    ensures Round(Round(x, p), p) == Round(x, p)
  {
  }

  /** The behaviour the repository documents: `1.005 → 1.01`, `2.5 → 3`,
      `-2.5 → -3` and `1 → 1.00`. */
  lemma RoundExamples()
    ensures Round(Dec(1005, 3), 2) == Dec(101, 2)
    ensures Round(Dec(25, 1), 0) == Dec(3, 0)
    ensures Round(Dec(-25, 1), 0) == Dec(-3, 0)
    ensures Round(Dec(1, 0), 2) == Dec(100, 2)
  {
  }
}
