/** What parseAmount reads of a text: the number in front of it, exactly, however many places it has. */
module AmountScan {
  import opened Prelude
  import opened Amounts

  predicate AllDigits(s: string) {
    forall i :: 0 <= i < |s| ==> IsDigit(s[i])
  }

  /** `value` is the value of the digits of w, followed by those of f, which are worth p. */
  ghost predicate Joins(value: nat, w: nat, f: nat, p: nat) {
    value == w * p + f
  }

  ghost predicate Parts(x: real, w: nat, f: nat, p: nat) {
    p > 0 && x == w as real + f as real / p as real
  }

  /** x is exactly value / p. */
  ghost predicate Exactly(x: real, value: nat, p: nat) {
    p > 0 && x * p as real == value as real
  }

  lemma {:induction false} ValueSnoc(s: string, c: char)
    requires AllDigits(s) && IsDigit(c)
    ensures AllDigits(s + [c]) && Value(s + [c]) == 10 * Value(s) + (c as int - '0' as int)
  {
    assert (s + [c])[..|s|] == s;
  }

  lemma {:induction false} PowSnoc(k: nat)
    ensures Value("") == 0 && Pow10(0) == 1 && Pow10(k + 1) == 10 * Pow10(k)
  {
  }

  lemma {:induction false} JoinsSnoc(value: nat, w: nat, f: nat, p: nat, d: nat)
    requires Joins(value, w, f, p)
    ensures Joins(10 * value + d, w, 10 * f + d, 10 * p)
  {
    assert 10 * (w * p) == w * (10 * p);
  }

  lemma {:induction false} JoinsNothing(w: nat)
    ensures Joins(w, w, 0, 1)
  {
  }

  /** Reading further digits shifts what was read and adds their value. */
  lemma {:induction false} ValueAppend(a: string, b: string)
    requires AllDigits(a) && AllDigits(b)
    ensures AllDigits(a + b) && Joins(Value(a + b), Value(a), Value(b), Pow10(|b|))
  {
    hide Joins, Value, Pow10;
    if b == "" {
      assert a + b == a;
      PowSnoc(0);
      JoinsNothing(Value(a));
    } else {
      var init, last := b[..|b| - 1], b[|b| - 1];
      ValueAppend(a, init);
      assert a + init + [last] == a + b && init + [last] == b;
      ValueSnoc(a + init, last);
      ValueSnoc(init, last);
      PowSnoc(|init|);
      JoinsSnoc(Value(a + init), Value(a), Value(init), Pow10(|init|), last as int - '0' as int);
    }
  }

  lemma {:induction false} NumberParts(whole: string, fraction: string)
    requires AllDigits(whole) && AllDigits(fraction)
    ensures Parts(Number(whole, fraction), Value(whole), Value(fraction), Pow10(|fraction|))
  {
    hide Value, Pow10;
    Pow10Positive(|fraction|);
  }

  lemma {:induction false} ScaledSum(w: real, f: real, p: real)
    requires p > 0.0
    ensures (w + f / p) * p == w * p + f
  {
    assert f / p * p == f;
  }

  lemma {:induction false} PartsAreExact(x: real, value: nat, w: nat, f: nat, p: nat)
    requires Parts(x, w, f, p) && Joins(value, w, f, p)
    ensures Exactly(x, value, p)
  {
    ScaledSum(w as real, f as real, p as real);
    assert (w * p) as real == w as real * p as real;
  }

  lemma {:induction false} NumberIsExact(whole: string, fraction: string)
    requires AllDigits(whole) && AllDigits(fraction)
    ensures AllDigits(whole + fraction)
    ensures Exactly(Number(whole, fraction), Value(whole + fraction), Pow10(|fraction|))
  {
    hide Joins, Parts, Exactly, Value, Pow10, Number;
    ValueAppend(whole, fraction);
    NumberParts(whole, fraction);
    PartsAreExact(Number(whole, fraction), Value(whole + fraction), Value(whole), Value(fraction), Pow10(|fraction|));
  }

  lemma {:induction false} Quotient(x: real, value: nat, p: nat)
    requires Exactly(x, value, p)
    ensures p > 0 && x == value as real / p as real
  {
  }

  lemma {:induction false} CutBeforeRest(whole: string, fraction: string, rest: string)
    requires AllDigits(whole) && AllDigits(fraction) && (rest == "" || !IsDigit(rest[0]))
    ensures
      var s := whole + "." + fraction + rest;
      DigitRun(s) == |whole| && s[..|whole|] == whole && Fraction(s, |whole|) == fraction
  {
    var s := whole + "." + fraction + rest;
    assert s == whole + ("." + fraction + rest);
    RunOfDigits(whole, "." + fraction + rest);
    RunOfDigits(fraction, rest);
    hide DigitRun;
    assert s[|whole| + 1..] == fraction + rest;
    assert (fraction + rest)[..|fraction|] == fraction;
  }

  /** A number with a point, followed by anything but a digit, is read as its digits over the power of ten
      of its places: nothing is lost before the rounding. Either part may be missing. */
  lemma {:induction false} ReadsPoint(whole: string, fraction: string, rest: string)
    requires AllDigits(whole) && AllDigits(fraction) && whole + fraction != ""
    requires rest == "" || !IsDigit(rest[0])
    ensures AllDigits(whole + fraction)
    ensures
      var x, p := Scan(whole + "." + fraction + rest), Pow10(|fraction|);
      p > 0 && x == Some(Value(whole + fraction) as real / p as real)
  {
    hide DigitRun, Fraction, Value, Number, Pow10, Exactly;
    CutBeforeRest(whole, fraction, rest);
    NumberIsExact(whole, fraction);
    Quotient(Number(whole, fraction), Value(whole + fraction), Pow10(|fraction|));
  }

  lemma {:induction false} WholeNumber(whole: string)
    requires AllDigits(whole)
    ensures Number(whole, "") == Value(whole) as real
  {
    PowSnoc(0);
    hide Value, Pow10;
  }

  /** Without a point it is the whole number. */
  lemma {:induction false} ReadsWhole(whole: string, rest: string)
    requires AllDigits(whole) && whole != "" && (rest == "" || (!IsDigit(rest[0]) && rest[0] != '.'))
    ensures Scan(whole + rest) == Some(Value(whole) as real)
  {
    RunOfDigits(whole, rest);
    WholeNumber(whole);
    hide DigitRun, Value, Number;
    assert (whole + rest)[..|whole|] == whole;
  }

  /** With no digit in front, or after a point in front, nothing is read and the amount is zero. */
  lemma {:induction false} ReadsNothing(rest: string)
    requires rest == "" || !IsDigit(rest[0])
    ensures rest == "" || rest[0] != '.' ==> Scan(rest) == None && ParseAmount(rest) == 0
    ensures Scan("." + rest) == None && ParseAmount("." + rest) == 0
  {
    RunOfDigits("", rest);
    assert "" + rest == rest;
    assert ("." + rest)[1..] == rest;
    hide DigitRun, CentsOf, Number;
    CutBeforeRest("", "", rest);
    assert "" + "." + "" + rest == "." + rest;
  }
}
