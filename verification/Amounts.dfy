/** Yuan and cents: formatAmount, parseAmount and the identical parsers of the two bill readers. */
module Amounts {
  import opened Prelude
  import opened Float64

  // ----- decimal text -----

  predicate IsDigit(c: char) {
    '0' <= c <= '9'
  }

  function DigitChar(d: nat): char
    requires d < 10
  {
    '0' + d as char
  }

  function Digits(n: nat): (s: string)
    ensures s != "" && forall i :: 0 <= i < |s| ==> IsDigit(s[i])
  {
    if n < 10 then [DigitChar(n)] else Digits(n / 10) + [DigitChar(n % 10)]
  }

  function Value(s: string): nat
    requires forall i :: 0 <= i < |s| ==> IsDigit(s[i])
  {
    if s == "" then 0 else 10 * Value(s[..|s| - 1]) + DigitValue(s[|s| - 1])
  }

  function DigitValue(c: char): nat
    requires IsDigit(c)
  {
    c as int - '0' as int
  }

  function Pow10(k: nat): nat {
    if k == 0 then 1 else 10 * Pow10(k - 1)
  }

  /** The number of leading digits. */
  function DigitRun(s: string): (k: nat)
    ensures k <= |s| && (forall i :: 0 <= i < k ==> IsDigit(s[i])) && (k < |s| ==> !IsDigit(s[k]))
  {
    if s == "" || !IsDigit(s[0]) then 0 else 1 + DigitRun(s[1..])
  }

  lemma {:induction false} Pow10Positive(k: nat)
    ensures Pow10(k) > 0
  {
    if k > 0 {
      Pow10Positive(k - 1);
    }
  }

  /** The digits after a point at position i, if there is one. */
  function Fraction(s: string, i: nat): (f: string)
    requires i <= |s|
    ensures forall k :: 0 <= k < |f| ==> IsDigit(f[k])
  {
    if i < |s| && s[i] == '.' then s[i + 1..][..DigitRun(s[i + 1..])] else ""
  }

  function Number(whole: string, fraction: string): real
    requires forall i :: 0 <= i < |whole| ==> IsDigit(whole[i])
    requires forall i :: 0 <= i < |fraction| ==> IsDigit(fraction[i])
  {
    Pow10Positive(|fraction|);
    Value(whole) as real + Value(fraction) as real / Pow10(|fraction|) as real
  }

  /** The longest prefix of digits with an optional fraction, as an exact number; None if there is none. */
  function Scan(s: string): Option<real> {
    var i := DigitRun(s);
    if i + |Fraction(s, i)| == 0 then None else Some(Number(s[..i], Fraction(s, i)))
  }

  /** n hundredths with two decimals. */
  function Decimal(n: nat): string {
    Digits(n / 100) + "." + [DigitChar(n % 100 / 10), DigitChar(n % 10)]
  }

  // ----- the code -----

  /** "%.2f": the decimal with two places nearest to the exact value of the float. */
  function Format2(f: real): string
    requires f >= 0.0
  {
    RoundEvenNear(f * 100.0);
    Decimal(if RoundEven(f * 100.0) < 0 then 0 else RoundEven(f * 100.0))
  }

  function FormatAmount(cents: nat): string {
    Format2(NonNegative(Round(Round(cents as real) / 100.0)))
  }

  /** Round never leaves the non-negative reals; only those are modelled. */
  function NonNegative(x: real): real {
    if x < 0.0 then 0.0 else x
  }

  /** Go's conversion to int64 of a non-negative float. */
  function Truncate(x: real): int {
    x.Floor
  }

  /** Sscanf leaves the variable at zero when nothing can be read. */
  function ParseAmount(s: string): int {
    match Scan(s)
    case None => 0
    case Some(x) => CentsOf(x)
  }

  /** The nearest float to the number read, times 100, rounded again and cut off. */
  function CentsOf(x: real): int {
    Truncate(Round(Round(x) * 100.0))
  }

  // ----- decimal text reads back -----

  lemma {:induction false} ValueOfDigits(n: nat)
    ensures Value(Digits(n)) == n
  {
    if n >= 10 {
      ValueOfDigits(n / 10);
      var s := Digits(n / 10) + [DigitChar(n % 10)];
      assert s[..|s| - 1] == Digits(n / 10);
    }
  }

  lemma {:induction false} RunOfDigits(d: string, rest: string)
    requires forall i :: 0 <= i < |d| ==> IsDigit(d[i])
    requires rest == "" || !IsDigit(rest[0])
    ensures DigitRun(d + rest) == |d|
  {
    if d == "" {
      assert d + rest == rest;
    } else {
      assert (d + rest)[1..] == d[1..] + rest;
      RunOfDigits(d[1..], rest);
    }
  }

  lemma {:induction false} TwoDigits(a: nat, b: nat)
    requires a < 10 && b < 10
    ensures Value([DigitChar(a), DigitChar(b)]) == 10 * a + b
  {
    var tail := [DigitChar(a), DigitChar(b)];
    assert tail[..1] == [DigitChar(a)] && [DigitChar(a)][..0] == "";
    assert Value([DigitChar(a)]) == a;
  }

  /** Where Scan cuts a number with two decimals. */
  lemma {:induction false} ScanTwoDecimals(whole: string, tail: string)
    requires whole != "" && |tail| == 2
    requires forall i :: 0 <= i < |whole| ==> IsDigit(whole[i])
    requires forall i :: 0 <= i < |tail| ==> IsDigit(tail[i])
    ensures Scan(whole + "." + tail) == Some(Value(whole) as real + Value(tail) as real / 100.0)
  {
    hide Fraction, DigitRun, Value, Number, Pow10;
    CutAtPoint(whole, tail);
    TwoPlaces(whole, tail);
  }

  lemma {:induction false} TwoPlaces(whole: string, tail: string)
    requires |tail| == 2
    requires forall i :: 0 <= i < |whole| ==> IsDigit(whole[i])
    requires forall i :: 0 <= i < |tail| ==> IsDigit(tail[i])
    ensures Number(whole, tail) == Value(whole) as real + Value(tail) as real / 100.0
  {
    hide Value;
    assert Pow10(2) == 10 * Pow10(1) == 100;
  }

  lemma {:induction false} CutAtPoint(whole: string, tail: string)
    requires forall i :: 0 <= i < |whole| ==> IsDigit(whole[i])
    requires forall i :: 0 <= i < |tail| ==> IsDigit(tail[i])
    ensures
      var s := whole + "." + tail;
      DigitRun(s) == |whole| && s[..|whole|] == whole && Fraction(s, |whole|) == tail
  {
    hide DigitRun;
    var s := whole + "." + tail;
    ScanRuns(whole, tail);
    assert s[|whole| + 1..] == tail && tail[..|tail|] == tail;
  }

  lemma {:induction false} ScanRuns(whole: string, tail: string)
    requires forall i :: 0 <= i < |whole| ==> IsDigit(whole[i])
    requires forall i :: 0 <= i < |tail| ==> IsDigit(tail[i])
    ensures DigitRun(whole + "." + tail) == |whole| && DigitRun(tail) == |tail|
  {
    hide DigitRun;
    assert whole + "." + tail == whole + ("." + tail);
    assert tail + "" == tail;
    RunOfDigits(whole, "." + tail);
    RunOfDigits(tail, "");
  }

  lemma {:induction false} Places(n: nat)
    ensures n as real / 100.0 == (n / 100) as real + (10 * (n % 100 / 10) + n % 10) as real / 100.0
  {
    assert n == 100 * (n / 100) + (10 * (n % 100 / 10) + n % 10);
  }

  lemma {:induction false} DecimalReadsBack(n: nat)
    ensures Scan(Decimal(n)) == Some(n as real / 100.0)
  {
    var tens, units := n % 100 / 10, n % 10;
    Places(n);
    ValueOfDigits(n / 100);
    TwoDigits(tens, units);
    hide Scan, Value, Digits, DigitChar;
    ScanTwoDecimals(Digits(n / 100), [DigitChar(tens), DigitChar(units)]);
  }

  // ----- rounding of amounts -----

  /** Amounts below 2^51 cents. */
  const LIMIT := 2251799813685248

  lemma {:induction false} RangeOfAmounts(x: real)
    requires 0.005 <= x <= 2251799813685248.0
    ensures InNormalRange(x)
  {
    SmallPowers();
    Pow2Grows(0, HIGHEST);
  }

  lemma {:induction false} SmallPowers()
    ensures Pow2(0) == 1.0 && Pow2(-2) == 0.25
    ensures TWO_52 * Pow2(LOWEST) == 0.00390625
  {
    assert Pow2(-1) == 0.5;
    Pow2Adds(-60, 52);
    Pow2Adds(-8, 4);
    Pow2Adds(-4, 4);
    Pow2Whole(52);
    Pow2Whole(4);
    Whole52();
    assert Whole2(4) == 16;
  }

  lemma {:induction false} Whole52()
    ensures Whole2(52) == 4503599627370496
  {
    assert Whole2(4) == 16 && Whole2(8) == 256 && Whole2(12) == 4096 && Whole2(16) == 65536 && Whole2(20) == 1048576;
    assert Whole2(24) == 16777216 && Whole2(28) == 268435456 && Whole2(32) == 4294967296;
    assert Whole2(36) == 68719476736 && Whole2(40) == 1099511627776 && Whole2(44) == 17592186044416;
    assert Whole2(48) == 281474976710656;
  }

  /** A quarter of a whole number, below 2^51, is a float. */
  lemma {:induction false} QuarterExact(k: nat)
    requires 0 < k < 4 * LIMIT
    ensures Round(k as real / 4.0) == k as real / 4.0
  {
    var x := k as real / 4.0;
    SmallPowers();
    RangeOfAmounts(x);
    RoundDyadic(x, k, -2);
  }

  lemma {:induction false} WholeExact(n: nat)
    requires n < LIMIT
    ensures Round(n as real) == n as real
  {
    if n > 0 {
      QuarterExact(4 * n);
      assert (4 * n) as real / 4.0 == n as real;
    }
  }

  /** The float of c / 100 is within c * 2^-53 cents of it. */
  lemma {:induction false} YuanError(cents: nat)
    requires 0 < cents < LIMIT
    ensures
      var f, c := Round(cents as real / 100.0), cents as real;
      -(c * UNIT) <= f * 100.0 - c <= c * UNIT && 0.005 <= f && f * 100.0 <= 2251799813685248.0
  {
    var x := cents as real / 100.0;
    RangeOfAmounts(x);
    RoundError(x);
  }

  lemma {:induction false} FormatNear(f: real, cents: nat)
    requires f >= 0.0 && -0.5 < f * 100.0 - cents as real < 0.5
    ensures Format2(f) == Decimal(cents)
  {
    RoundEvenFixed(f * 100.0, cents);
    hide RoundEven, Decimal;
  }

  /** formatAmount prints exactly the cents it was given. */
  lemma {:induction false} FormatIsExact(cents: nat)
    requires cents < LIMIT
    ensures FormatAmount(cents) == Decimal(cents)
  {
    WholeExact(cents);
    hide Round, Format2, Decimal;
    var f := Round(cents as real / 100.0);
    if cents > 0 {
      YuanError(cents);
    } else {
      ZeroIsExact();
    }
    FormatNear(f, cents);
  }

  lemma {:induction false} ZeroIsExact()
    ensures Round(0.0) == 0.0
  {
  }

  lemma {:induction false} ParseOfFormat(cents: nat)
    requires cents < LIMIT
    ensures ParseAmount(FormatAmount(cents)) == CentsOf(cents as real / 100.0)
  {
    hide FormatAmount, Scan, CentsOf, Decimal;
    FormatIsExact(cents);
    DecimalReadsBack(cents);
  }

  lemma {:induction false} ProductNear(y: real, cents: nat)
    requires 0 < cents < LIMIT && 0.5 <= y <= 2251799813685248.0
    requires -(cents as real * UNIT) <= y - cents as real <= cents as real * UNIT
    ensures -1.0 < Round(y) - cents as real < 1.0
  {
    hide Round, InNormalRange;
    RangeOfAmounts(y);
    RoundError(y);
  }

  /** What was formatted parses back as itself or one cent less. */
  lemma {:induction false} ParseLosesAtMostOneCent(cents: nat)
    requires cents < LIMIT
    ensures cents - 1 <= ParseAmount(FormatAmount(cents)) <= cents
  {
    hide *;
    ParseOfFormat(cents);
    CentsNear(cents);
  }

  lemma {:induction false} CentsNear(cents: nat)
    requires cents < LIMIT
    ensures cents - 1 <= CentsOf(cents as real / 100.0) <= cents
  {
    if cents > 0 {
      hide Round;
      YuanError(cents);
      var y := Round(cents as real / 100.0) * 100.0;
      ProductNear(y, cents);
      FloorNear(Round(y), cents);
    } else {
      ZeroIsExact();
    }
  }

  lemma {:induction false} FloorNear(z: real, c: int)
    requires -1.0 < z - c as real < 1.0
    ensures c - 1 <= z.Floor <= c
  {
  }

  lemma {:induction false} NotBelow(cents: nat)
    requires 0 < cents < LIMIT && Round(cents as real / 100.0) >= cents as real / 100.0
    ensures Round(Round(cents as real / 100.0) * 100.0) >= cents as real
  {
    hide Round, InNormalRange, Pow2;
    YuanError(cents);
    var y := Round(cents as real / 100.0) * 100.0;
    RangeOfAmounts(y);
    SmallPowers();
    RoundDyadic(y, cents, 0);
  }

  // ----- which amounts lose a cent -----

  /** The k with 2^(k - 7) <= cents / 100 < 2^(k - 6), searched upwards. */
  function BinadeFrom(cents: nat, k: nat): (r: nat)
    requires 25 * Whole2(k) <= 32 * cents
    ensures 25 * Whole2(r) <= 32 * cents < 50 * Whole2(r)
    decreases 32 * cents - 25 * Whole2(k)
  {
    if 32 * cents < 50 * Whole2(k) then k else BinadeFrom(cents, k + 1)
  }

  function Binade(cents: nat): (k: nat)
    requires 0 < cents < LIMIT
    ensures 25 * Whole2(k) <= 32 * cents < 50 * Whole2(k) && k <= 51
  {
    var k := BinadeFrom(cents, 0);
    BinadeIsSmall(cents, k);
    k
  }

  lemma {:induction false} BinadeIsSmall(cents: nat, k: nat)
    requires cents < LIMIT && 25 * Whole2(k) <= 32 * cents
    ensures k <= 51
  {
    if k > 51 {
      Whole2Adds(52, k - 52);
      Whole52();
      hide Whole2;
      assert 4503599627370496 * Whole2(k - 52) >= 4503599627370496;
    }
  }

  /** Hundredths of the grid of floats around cents / 100. */
  function GridUnits(cents: nat): nat
    requires 0 < cents < LIMIT
  {
    cents * Whole2(59 - Binade(cents))
  }

  /** The amounts that come back a cent short: the float of the yuan lies below them, by more than half a
      unit of the floats around the cents. */
  predicate LosesCent(cents: nat)
    requires cents < LIMIT
  {
    cents > 0 && cents < Whole2(Binade(cents)) && 32 < GridUnits(cents) % 100 < 50
  }

  lemma {:induction false} Whole59()
    ensures Whole2(59) == 576460752303423488 && Whole2(6) == 64 && Whole2(7) == 128 && Whole2(8) == 256
  {
    Whole52();
    Whole2Adds(52, 7);
    assert Whole2(4) == 16 && Whole2(6) == 64 && Whole2(7) == 128 && Whole2(8) == 256;
  }

  /** p is the step of the floats in binade k of the yuan; 2^59 steps make 2^k cents. */
  ghost predicate IsStep(k: int, p: real) {
    && p == Pow2(k - 59) && p > 0.0 && Pow2(k - 53) == 64.0 * p && Pow2(k - 52) == 128.0 * p
    && 0 <= k <= 51 && Whole2(k) as real == 576460752303423488.0 * p
  }

  lemma {:induction false} Shift(e: int, b: nat, w: nat)
    requires Whole2(b) == w
    ensures Pow2(e + b) == w as real * Pow2(e)
  {
    hide Pow2, Whole2;
    Pow2Adds(e, b);
    Pow2Whole(b);
  }

  lemma {:induction false} StepOf(k: nat)
    requires k <= 51
    ensures IsStep(k, Pow2(k - 59))
  {
    Whole59();
    hide Pow2, Whole2;
    Pow2Positive(k - 59);
    Shift(k - 59, 6, 64);
    Shift(k - 59, 7, 128);
    Shift(k - 59, 59, 576460752303423488);
    Pow2Whole(k);
  }

  lemma {:induction false} StepTimesUnits(k: nat)
    requires k <= 51
    ensures Pow2(k - 59) * Whole2(59 - k) as real == 1.0
  {
    assert Pow2(0) == 1.0;
    hide Pow2, Whole2;
    Pow2Adds(k - 59, 59 - k);
    Pow2Whole(59 - k);
  }

  /** The cents are n hundredths of steps of the yuan, that is n steps, and n is a multiple of 256. */
  ghost predicate IsGrid(cents: nat, n: nat, m: nat, p: real) {
    n == 256 * m && n as real * p == cents as real && 256.0 * p <= 1.0
  }

  lemma {:induction false} Grid(cents: nat, k: nat) returns (m: nat)
    requires 0 < cents < LIMIT && k == Binade(cents)
    ensures IsGrid(cents, GridUnits(cents), m, Pow2(k - 59))
    ensures cents == Whole2(k) ==> GridUnits(cents) == 576460752303423488
  {
    Whole59();
    hide Pow2, Whole2, Binade;
    Pow2Positive(k - 59);
    Whole2Adds(8, 51 - k);
    Whole2Adds(k, 59 - k);
    StepTimesUnits(k);
    m := cents * Whole2(51 - k);
    UnitsOfGrid(cents, Whole2(59 - k), Whole2(51 - k), Pow2(k - 59));
  }

  lemma {:induction false} UnitsOfGrid(cents: nat, w: nat, v: nat, p: real)
    requires p > 0.0 && p * w as real == 1.0 && w == 256 * v && v >= 1
    ensures cents * w == 256 * (cents * v) && (cents * w) as real * p == cents as real && 256.0 * p <= 1.0
  {
    var c, x := cents as real, w as real;
    assert (cents * w) as real == c * x;
    assert c * x * p == c * (p * x);
    Multiply(256.0, x, p);
  }

  lemma {:induction false} RoundHundredths(n: nat)
    requires n % 100 != 50
    ensures RoundEven(n as real / 100.0) == n / 100 + if n % 100 < 50 then 0 else 1
  {
    var y := n as real / 100.0;
    assert n == 100 * (n / 100) + n % 100;
    assert y == (n / 100) as real + (n % 100) as real / 100.0;
    RoundEvenFixed(y, n / 100 + if n % 100 < 50 then 0 else 1);
  }

  /** The float of the yuan, times 100, is a whole number of steps, above the cents or below them. */
  lemma {:induction false} FloatOnGrid(cents: nat, k: nat, p: real, n: nat, m: nat)
    requires 0 < cents < LIMIT && k == Binade(cents) && IsStep(k, p) && IsGrid(cents, n, m, p)
    ensures
      var y := Round(cents as real / 100.0) * 100.0;
      if n % 100 < 50 then y == cents as real - (n % 100) as real * p else y >= cents as real
  {
    hide Whole2, Binade, Pow2, Round, RoundEven, IsStep, IsGrid;
    RoundYuan(cents, k, p, n, m);
    StepsToCents(cents, n, m, p, Round(cents as real / 100.0), RoundEven(n as real / 100.0));
  }

  lemma {:induction false} NotHalfway(cents: nat, n: nat, m: nat, p: real)
    requires IsGrid(cents, n, m, p)
    ensures n % 100 != 50
  {
    assert n % 4 == 0;
  }

  lemma {:induction false} RoundYuan(cents: nat, k: nat, p: real, n: nat, m: nat)
    requires 0 < cents < LIMIT && IsStep(k, p) && IsGrid(cents, n, m, p)
    requires 25 * Whole2(k) <= 32 * cents < 50 * Whole2(k)
    ensures p > 0.0 && Round(cents as real / 100.0) == RoundEven(n as real / 100.0) as real * p
  {
    hide Pow2, Whole2, Round, InNormalRange, RoundEven;
    RangeOfAmounts(cents as real / 100.0);
    Hundredth(n as real, p, cents as real);
    BinadeBounds(cents as real, Whole2(k) as real, p);
    RoundOnGrid(cents as real / 100.0, k - 59, p, n as real / 100.0);
  }

  lemma {:induction false} Hundredth(n: real, p: real, c: real)
    requires n * p == c
    ensures n / 100.0 * p == c / 100.0
  {
    assert n / 100.0 * p == n * p / 100.0;
  }

  lemma {:induction false} BinadeBounds(c: real, v: real, p: real)
    requires v == 576460752303423488.0 * p && 25.0 * v <= 32.0 * c < 50.0 * v
    ensures TWO_52 * p <= c / 100.0 < TWO_53 * p
  {
  }

  /** The product, again, lies in the binade of the cents. */
  lemma {:induction false} ProductBounds(c: real, v: real, p: real, low: real)
    requires v == 576460752303423488.0 * p && 25.0 * v <= 32.0 * c < 50.0 * v && 0.0 < p && 256.0 * p <= 1.0
    requires 0.0 < low < 50.0
    ensures 0.0 < low * p < 50.0 * p
    ensures c < v ==> TWO_52 * (64.0 * p) <= c - low * p < TWO_53 * (64.0 * p)
    ensures c >= v + 1.0 ==> TWO_52 * (128.0 * p) <= c - low * p < TWO_53 * (128.0 * p)
  {
    StrictMultiply(low, 50.0, p);
    StrictMultiply(0.0, low, p);
  }

  lemma {:induction false} StepsToCents(cents: nat, n: nat, m: nat, p: real, f: real, steps: int)
    requires p > 0.0 && IsGrid(cents, n, m, p)
    requires f == steps as real * p && steps == RoundEven(n as real / 100.0)
    ensures if n % 100 < 50 then f * 100.0 == cents as real - (n % 100) as real * p else f * 100.0 >= cents as real
  {
    NotHalfway(cents, n, m, p);
    RoundHundredths(n);
    hide RoundEven;
    var low, q := n % 100, n / 100;
    assert n as real == q as real * 100.0 + low as real;
    WholeSteps(cents as real, n as real, p, f, steps as real, low as real, q as real);
  }

  lemma {:induction false} WholeSteps(c: real, n: real, p: real, f: real, steps: real, low: real, q: real)
    requires p > 0.0 && n * p == c && f == steps * p
    requires n == q * 100.0 + low && low < 100.0 && steps == q + if low < 50.0 then 0.0 else 1.0
    ensures if low < 50.0 then f * 100.0 == c - low * p else f * 100.0 >= c
  {
    assert steps * p * 100.0 == steps * 100.0 * p;
    if low < 50.0 {
      assert n * p == q * 100.0 * p + low * p;
    } else {
      Multiply(n, steps * 100.0, p);
    }
  }

  /** y lies r steps below n steps; floats there are `unit` steps apart. */
  lemma {:induction false} RoundBelow(y: real, e: int, unit: nat, n: nat, m: nat, r: nat, p: real)
    requires InNormalRange(y) && LOWEST <= e <= HIGHEST && (unit == 64 || unit == 128) && p > 0.0
    requires Pow2(e) == unit as real * p && TWO_52 * Pow2(e) <= y < TWO_53 * Pow2(e)
    requires n == unit * m && m % 2 == 0 && 0 < r < 50 && y == n as real * p - r as real * p
    ensures Round(y) == if unit == 64 && r > 32 then n as real * p - 64.0 * p else n as real * p
  {
    hide Pow2, Round, InNormalRange;
    var z := m as real - r as real / unit as real;
    assert z * (unit as real * p) == y by {
      assert n as real == unit as real * m as real;
      assert r as real / unit as real * unit as real == r as real;
    }
    RoundOnGrid(y, e, Pow2(e), z);
    RoundFraction(unit, m, r);
    hide RoundEven;
    assert n as real == unit as real * m as real;
  }

  lemma {:induction false} RoundFraction(unit: nat, m: nat, r: nat)
    requires (unit == 64 || unit == 128) && m % 2 == 0 && 0 < r < 50
    ensures RoundEven(m as real - r as real / unit as real) == if unit == 64 && r > 32 then m - 1 else m
  {
    if unit == 64 {
      RoundShort(m, r as real / 64.0);
    } else {
      RoundShort(m, r as real / 128.0);
    }
  }

  lemma {:induction false} RoundShort(m: nat, d: real)
    requires m % 2 == 0 && 0.0 < d < 1.0
    ensures RoundEven(m as real - d) == if d > 0.5 then m - 1 else m
  {
    assert (m as real - d).Floor == m - 1;
  }

  /** The second rounding falls below the cents exactly for the amounts that lose a cent. */
  lemma {:induction false} LossDecided(cents: nat)
    requires 0 < cents < LIMIT
    ensures Round(Round(cents as real / 100.0) * 100.0) < cents as real <==> LosesCent(cents)
  {
    var k: int, n := Binade(cents), GridUnits(cents);
    hide *;
    var m := Grid(cents, k);
    StepOf(k);
    var p, y := Pow2(k - 59), Round(cents as real / 100.0) * 100.0;
    FloatOnGrid(cents, k, p, n, m);
    if n % 100 >= 50 || n % 100 == 0 {
      AboveTheCents(cents, p, n, y);
    } else {
      YuanError(cents);
      RangeOfAmounts(y);
      BelowTheCents(cents, k, p, n, m, y);
    }
  }

  lemma {:induction false} AboveTheCents(cents: nat, p: real, n: nat, y: real)
    requires 0 < cents < LIMIT && n == GridUnits(cents) && y == Round(cents as real / 100.0) * 100.0
    requires n % 100 >= 50 || n % 100 == 0
    requires if n % 100 < 50 then y == cents as real - (n % 100) as real * p else y >= cents as real
    ensures Round(y) >= cents as real && !LosesCent(cents)
  {
    hide *;
    LossMeans(cents);
    assert y >= cents as real;
    NotBelow(cents);
  }

  lemma {:induction false} BelowTheCents(cents: nat, k: nat, p: real, n: nat, m: nat, y: real)
    requires 0 < cents < LIMIT && k == Binade(cents) && n == GridUnits(cents) && InNormalRange(y)
    requires IsStep(k, p) && IsGrid(cents, n, m, p) && (cents == Whole2(k) ==> n == 576460752303423488)
    requires 0 < n % 100 < 50 && y == cents as real - (n % 100) as real * p
    ensures Round(y) < cents as real <==> LosesCent(cents)
  {
    hide *;
    LossMeans(cents);
    var low, v := n % 100, Whole2(k);
    if cents < v {
      BelowInSmallBinade(cents, v, k, p, n, m, low, y);
    } else {
      LargeIsLarger(cents, n, v);
      BelowInLargeBinade(cents, v, k, p, n, m, low, y);
    }
  }

  lemma {:induction false} LossMeans(cents: nat)
    requires 0 < cents < LIMIT
    ensures LosesCent(cents) <==> cents < Whole2(Binade(cents)) && 32 < GridUnits(cents) % 100 < 50
  {
  }

  lemma {:induction false} LargeIsLarger(cents: nat, n: nat, v: nat)
    requires n % 100 < 50 && (cents == v ==> n == 576460752303423488)
    ensures cents != v
  {
  }

  lemma {:induction false} BelowInSmallBinade(cents: nat, v: nat, k: int, p: real, n: nat, m: nat,
      r: nat, y: real)
    requires IsStep(k, p) && IsGrid(cents, n, m, p) && v == Whole2(k) && InNormalRange(y)
    requires 25 * v <= 32 * cents && cents < v
    requires 0 < r < 50 && y == cents as real - r as real * p
    ensures Round(y) < cents as real <==> r > 32
  {
    hide Pow2, Whole2, Round, InNormalRange, IsGrid;
    StepIsSmall(cents, n, m, p);
    ProductBounds(cents as real, v as real, p, r as real);
    hide IsStep;
    RoundBelowCents(cents, y, k - 53, 64, n, m, r, p);
  }

  lemma {:induction false} BelowInLargeBinade(cents: nat, v: nat, k: int, p: real, n: nat, m: nat,
      r: nat, y: real)
    requires IsStep(k, p) && IsGrid(cents, n, m, p) && v == Whole2(k) && InNormalRange(y)
    requires 32 * cents < 50 * v && cents > v
    requires 0 < r < 50 && y == cents as real - r as real * p
    ensures Round(y) == cents as real
  {
    hide Pow2, Whole2, Round, InNormalRange, IsGrid;
    StepIsSmall(cents, n, m, p);
    ProductBounds(cents as real, v as real, p, r as real);
    hide IsStep;
    RoundBelowCents(cents, y, k - 52, 128, n, m, r, p);
  }

  lemma {:induction false} StepIsSmall(cents: nat, n: nat, m: nat, p: real)
    requires IsGrid(cents, n, m, p)
    ensures 256.0 * p <= 1.0
  {
  }

  lemma {:induction false} RoundBelowCents(cents: nat, y: real, e: int, unit: nat, n: nat, m: nat, r: nat, p: real)
    requires InNormalRange(y) && LOWEST <= e <= HIGHEST && (unit == 64 || unit == 128) && p > 0.0
    requires Pow2(e) == unit as real * p && TWO_52 * Pow2(e) <= y < TWO_53 * Pow2(e)
    requires IsGrid(cents, n, m, p) && 0 < r < 50 && y == cents as real - r as real * p
    ensures Round(y) == if unit == 64 && r > 32 then cents as real - 64.0 * p else cents as real
  {
    hide Pow2, Round, InNormalRange;
    if unit == 64 {
      RoundBelow(y, e, 64, n, 4 * m, r, p);
    } else {
      RoundBelow(y, e, 128, n, 2 * m, r, p);
    }
  }

  /** What was formatted parses back a cent short exactly for the amounts that lose a cent. */
  lemma {:induction false} ParseExactWhen(cents: nat)
    requires cents < LIMIT
    ensures ParseAmount(FormatAmount(cents)) == if LosesCent(cents) then cents - 1 else cents
  {
    hide FormatAmount, ParseAmount, Round, LosesCent;
    ParseOfFormat(cents);
    ParseLosesAtMostOneCent(cents);
    if cents == 0 {
      ZeroIsExact();
      NothingToLose();
    } else {
      LossDecided(cents);
    }
  }

  lemma {:induction false} NothingToLose()
    ensures !LosesCent(0)
  {
  }

  /** Multiples of a quarter of a yuan, whole yuan among them, never lose a cent. */
  lemma {:induction false} QuartersAreExact(cents: nat)
    requires cents < LIMIT && cents % 25 == 0
    ensures !LosesCent(cents) && ParseAmount(FormatAmount(cents)) == cents
  {
    hide FormatAmount, ParseAmount, Round, GridUnits, Binade;
    ParseExactWhen(cents);
    if cents > 0 {
      UnitsOfQuarters(cents);
    }
  }

  lemma {:induction false} UnitsOfQuarters(cents: nat)
    requires 0 < cents < LIMIT && cents % 25 == 0
    ensures GridUnits(cents) % 100 == 0
  {
    var k := Binade(cents);
    Whole2Adds(2, 57 - k);
    assert Whole2(2) == 4;
    hide Whole2, Binade;
    HundredTimes(cents / 25, Whole2(57 - k));
  }

  lemma {:induction false} HundredTimes(c: nat, w: nat)
    ensures 25 * c * (4 * w) % 100 == 0
  {
    assert 25 * c * (4 * w) == 100 * (c * w);
    hide Round;
  }

  /** The loss is real: 29 cents are printed "0.29" and read back as 28. */
  lemma {:induction false} TwentyNineCents()
    ensures ParseAmount(FormatAmount(29)) == 28
  {
    hide FormatAmount, ParseAmount, Round;
    ParseExactWhen(29);
    assert Whole2(4) == 16 && Whole2(5) == 32;
    assert Binade(29) == 5;
    Whole52();
    assert Whole2(54) == 4 * Whole2(52);
  }
}
