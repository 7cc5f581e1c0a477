/** IEEE 754 binary64 rounding, to nearest with ties to even, for non-negative reals. Exact for 0 and
    for everything from 2^-8 up to 2^65, which covers every amount from one cent. */
module Float64 {

  const TWO_52 := 4503599627370496.0

  const TWO_53 := 9007199254740992.0

  /** Half an ulp, relative: 2^-53. */
  const UNIT := 1.0 / 9007199254740992.0

  function Pow2(e: int): real
    decreases if e >= 0 then e else -e
  {
    if e == 0 then 1.0 else if e > 0 then 2.0 * Pow2(e - 1) else Pow2(e + 1) / 2.0
  }

  lemma {:induction false} Pow2Positive(e: int)
    ensures Pow2(e) > 0.0
    decreases if e >= 0 then e else -e
  {
    if e > 0 {
      Pow2Positive(e - 1);
    } else if e < 0 {
      Pow2Positive(e + 1);
    }
  }

  lemma {:induction false} Pow2Next(e: int)
    ensures Pow2(e + 1) == 2.0 * Pow2(e)
  {
  }

  lemma {:induction false} Pow2Adds(a: int, b: nat)
    ensures Pow2(a + b) == Pow2(a) * Pow2(b)
    decreases b
  {
    if b > 0 {
      Pow2Adds(a, b - 1);
      Pow2Next(a + b - 1);
      assert Pow2(a) * (2.0 * Pow2(b - 1)) == 2.0 * (Pow2(a) * Pow2(b - 1));
    }
  }

  lemma {:induction false} Pow2Grows(a: int, b: int)
    requires a <= b
    ensures Pow2(a) <= Pow2(b)
    decreases b - a
  {
    if a < b {
      Pow2Grows(a, b - 1);
      Pow2Next(b - 1);
      Pow2Positive(b - 1);
    }
  }

  function Whole2(k: nat): (w: nat)
    ensures w >= 1
  {
    if k == 0 then 1 else 2 * Whole2(k - 1)
  }

  lemma {:induction false} Whole2Adds(a: nat, b: nat)
    ensures Whole2(a + b) == Whole2(a) * Whole2(b)
  {
    if b > 0 {
      Whole2Adds(a, b - 1);
      assert Whole2(a) * (2 * Whole2(b - 1)) == 2 * (Whole2(a) * Whole2(b - 1));
    }
  }

  lemma {:induction false} Pow2Whole(k: nat)
    ensures Pow2(k) == Whole2(k) as real
  {
    if k > 0 {
      Pow2Whole(k - 1);
    }
  }

  // ----- rounding to an integer -----

  function RoundEven(y: real): int {
    var f := y.Floor;
    var rest := y - f as real;
    if rest < 0.5 then f else if rest > 0.5 then f + 1 else if f % 2 == 0 then f else f + 1
  }

  lemma {:induction false} RoundEvenNear(y: real)
    ensures -0.5 <= RoundEven(y) as real - y <= 0.5
  {
  }

  lemma {:induction false} RoundEvenFixed(y: real, n: int)
    ensures y == n as real ==> RoundEven(y) == n
    ensures y >= n as real ==> RoundEven(y) >= n
    ensures -0.5 < y - n as real < 0.5 ==> RoundEven(y) == n
  {
  }

  // ----- rounding to 53 significant bits -----

  const LOWEST := -60

  const HIGHEST := 12

  /** The exponent that brings x into [2^52, 2^53), searched upwards. */
  function ExponentFrom(x: real, e: int): int
    requires e <= HIGHEST
    decreases HIGHEST - e
  {
    if x < TWO_53 * Pow2(e) || e == HIGHEST then e else ExponentFrom(x, e + 1)
  }

  predicate InNormalRange(x: real) {
    TWO_52 * Pow2(LOWEST) <= x < TWO_53 * Pow2(HIGHEST)
  }

  function Round(x: real): real {
    if x <= 0.0 then 0.0
    else
      var e := ExponentFrom(x, LOWEST);
      Pow2Positive(e);
      RoundTo(x, Pow2(e))
  }

  /** The multiple of p nearest to x. */
  function RoundTo(x: real, p: real): real
    requires p > 0.0
  {
    RoundEven(x / p) as real * p
  }

  lemma {:induction false} ExponentFits(x: real, e: int)
    requires LOWEST <= e <= HIGHEST && TWO_52 * Pow2(e) <= x < TWO_53 * Pow2(HIGHEST)
    ensures
      var r := ExponentFrom(x, e);
      e <= r <= HIGHEST && TWO_52 * Pow2(r) <= x < TWO_53 * Pow2(r)
    decreases HIGHEST - e
  {
    if !(x < TWO_53 * Pow2(e) || e == HIGHEST) {
      Pow2Next(e);
      ExponentFits(x, e + 1);
    }
  }

  /** At most one exponent fits. */
  lemma {:induction false} ExponentUnique(x: real, a: int, b: int)
    requires TWO_52 * Pow2(a) <= x < TWO_53 * Pow2(a)
    requires TWO_52 * Pow2(b) <= x < TWO_53 * Pow2(b)
    ensures a == b
  {
    if a < b {
      Pow2Next(a);
      Pow2Grows(a + 1, b);
    } else if b < a {
      Pow2Next(b);
      Pow2Grows(b + 1, a);
    }
  }

  /** The value at a known exponent. */
  lemma {:induction false} RoundAt(x: real, e: int)
    requires InNormalRange(x) && LOWEST <= e <= HIGHEST && TWO_52 * Pow2(e) <= x < TWO_53 * Pow2(e)
    ensures Pow2(e) > 0.0 && Round(x) == RoundTo(x, Pow2(e))
  {
    Pow2Positive(LOWEST);
    Pow2Positive(e);
    ExponentFits(x, LOWEST);
    ExponentUnique(x, e, ExponentFrom(x, LOWEST));
    hide Pow2, ExponentFrom, RoundTo;
    assert x > 0.0;
  }

  /** The value on a known grid: x is y steps of 2^e. */
  lemma {:induction false} RoundOnGrid(x: real, e: int, p: real, y: real)
    requires InNormalRange(x) && LOWEST <= e <= HIGHEST && p == Pow2(e) && p > 0.0
    requires TWO_52 * p <= x < TWO_53 * p && y * p == x
    ensures Round(x) == RoundEven(y) as real * p
  {
    hide Round, Pow2, RoundTo, RoundEven, InNormalRange;
    RoundAt(x, e);
    var z := Quotient(x, p);
    Cancel(y, z, p);
  }

  lemma {:induction false} Quotient(x: real, p: real) returns (y: real)
    requires p > 0.0
    ensures y * p == x && RoundTo(x, p) == RoundEven(y) as real * p
  {
    y := x / p;
  }

  lemma {:induction false} RoundToError(x: real, p: real)
    requires p > 0.0
    ensures -(0.5 * p) <= RoundTo(x, p) - x <= 0.5 * p
  {
    hide RoundTo;
    var y := Quotient(x, p);
    RoundEvenNear(y);
    hide RoundEven;
    ScaledError(RoundEven(y) as real, y, p, RoundTo(x, p), x);
  }

  lemma {:induction false} ScaledError(r: real, y: real, p: real, rp: real, yp: real)
    requires p > 0.0 && -0.5 <= r - y <= 0.5 && rp == r * p && yp == y * p
    ensures -(0.5 * p) <= rp - yp <= 0.5 * p
  {
    var d, dp := Distribute(r, y, p);
    Multiply(d, 0.5, p);
    Multiply(-0.5, d, p);
    Bounds(rp, yp, dp, 0.5 * p, -0.5 * p);
  }

  lemma {:induction false} Distribute(r: real, y: real, p: real) returns (d: real, dp: real)
    ensures d == r - y && dp == d * p && dp == r * p - y * p
  {
    d := r - y;
    dp := d * p;
  }

  lemma {:induction false} Bounds(a: real, b: real, d: real, high: real, low: real)
    requires d == a - b && low <= d <= high && low == -high
    ensures -high <= a - b <= high
  {
  }

  /** A multiple of p stays, and nothing above one rounds below it. */
  lemma {:induction false} RoundToMultiple(x: real, p: real, n: nat)
    requires p > 0.0
    ensures x == n as real * p ==> RoundTo(x, p) == x
    ensures x >= n as real * p ==> RoundTo(x, p) >= n as real * p
  {
    hide RoundTo;
    var y := Quotient(x, p);
    RoundEvenFixed(y, n);
    var r := RoundEven(y);
    hide RoundEven;
    ScaledOrder(r, y, n, p, x, RoundTo(x, p), n as real * p);
  }

  lemma {:induction false} ScaledOrder(r: int, y: real, n: nat, p: real, x: real, rp: real, np: real)
    requires p > 0.0 && (y == n as real ==> r == n) && (y >= n as real ==> r >= n)
    requires x == y * p && rp == r as real * p && np == n as real * p
    ensures x == np ==> rp == x
    ensures x >= np ==> rp >= np
  {
    var m := n as real;
    if y < m {
      StrictMultiply(y, m, p);
    } else {
      Multiply(m, r as real, p);
      if y > m {
        StrictMultiply(m, y, p);
      }
    }
  }

  lemma {:induction false} Cancel(a: real, b: real, p: real)
    requires p > 0.0 && a * p == b * p
    ensures a == b
  {
    if a < b {
      StrictMultiply(a, b, p);
    } else if b < a {
      StrictMultiply(b, a, p);
    }
  }

  lemma {:induction false} Multiply(a: real, b: real, p: real)
    requires a <= b && p > 0.0
    ensures a * p <= b * p
  {
  }

  lemma {:induction false} StrictMultiply(a: real, b: real, p: real)
    requires a < b && p > 0.0
    ensures a * p < b * p
  {
  }

  /** The exponent Round uses. */
  lemma {:induction false} RoundExponent(x: real) returns (e: int)
    requires InNormalRange(x)
    ensures LOWEST <= e <= HIGHEST && TWO_52 * Pow2(e) <= x < TWO_53 * Pow2(e)
    ensures Pow2(e) > 0.0 && Round(x) == RoundTo(x, Pow2(e))
  {
    ExponentFits(x, LOWEST);
    e := ExponentFrom(x, LOWEST);
    hide Pow2, ExponentFrom, RoundTo;
    RoundAt(x, e);
  }

  /** The relative error is at most 2^-53. */
  lemma {:induction false} RoundError(x: real)
    requires InNormalRange(x)
    ensures -(x * UNIT) <= Round(x) - x <= x * UNIT
  {
    hide Pow2, ExponentFrom, RoundTo, Round;
    var e := RoundExponent(x);
    RoundToError(x, Pow2(e));
    assert 0.5 * Pow2(e) == TWO_52 * Pow2(e) * UNIT;
  }

  /** Scale is 2^-j: a multiple of it below 2^(53 - j) is represented exactly, and nothing above
      such a multiple rounds below it. */
  lemma {:induction false} RoundDyadic(x: real, k: nat, scale: int)
    requires scale <= 0 && InNormalRange(x) && x < TWO_53 * Pow2(scale)
    ensures x == k as real * Pow2(scale) ==> Round(x) == x
    ensures x >= k as real * Pow2(scale) ==> Round(x) >= k as real * Pow2(scale)
  {
    hide Pow2, ExponentFrom, RoundTo, Round;
    var e := RoundExponent(x);
    SmallExponent(x, e, scale);
    var w := Refines(k, e, scale);
    RoundToMultiple(x, Pow2(e), w);
    MultipleIsEnough(x, Pow2(scale), k, Pow2(e), w);
  }

  /** A multiple of 2^scale is a multiple of any smaller power of two. */
  lemma {:induction false} Refines(k: nat, e: int, scale: int) returns (n: nat)
    requires e <= scale
    ensures k as real * Pow2(scale) == n as real * Pow2(e)
  {
    hide Pow2;
    Pow2Adds(e, scale - e);
    Pow2Whole(scale - e);
    var w := Whole2(scale - e);
    hide Whole2;
    n := k * w;
    MultipleOfMultiple(k, w, Pow2(e), Pow2(scale));
  }

  lemma {:induction false} MultipleIsEnough(x: real, q: real, k: nat, p: real, n: nat)
    requires k as real * q == n as real * p && p > 0.0
    requires x == n as real * p ==> RoundTo(x, p) == x
    requires x >= n as real * p ==> RoundTo(x, p) >= n as real * p
    ensures x == k as real * q ==> RoundTo(x, p) == x
    ensures x >= k as real * q ==> RoundTo(x, p) >= k as real * q
  {
    hide RoundTo;
  }

  lemma {:induction false} SmallExponent(x: real, e: int, scale: int)
    requires TWO_52 * Pow2(e) <= x < TWO_53 * Pow2(scale)
    ensures e <= scale
  {
    if e > scale {
      Pow2Next(scale);
      Pow2Grows(scale + 1, e);
    }
  }

  lemma {:induction false} MultipleOfMultiple(k: nat, w: nat, p: real, q: real)
    requires q == p * w as real
    ensures k as real * q == (k * w) as real * p
  {
    assert (k * w) as real == k as real * w as real;
  }
}
