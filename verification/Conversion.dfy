/** Laws of `convert`: what survives a round trip, and how far repeated rounding can drift. */
module Conversion {
  import opened Money

  /** Target minor units per source minor unit. */
  function Scale(source: nat, target: nat, rate: real): real {
    rate * Pow10(target) / Pow10(source)
  }

  /** `amount` units at `k` each, before rounding. */
  function Exact(amount: int, k: real): real {
    amount as real * k
  }

  /** A conversion as one multiplication and one rounding. */
  function Scaled(amount: int, k: real): int {
    HalfEven(Exact(amount, k))
  }

  function Unscaled(amount: int, k: real): int
    requires k != 0.0
  {
    HalfEven(amount as real / k)
  }

  lemma DividedThenTimes(x: real, s: real)
    requires s != 0.0
    ensures x / s * s == x
  {
  }

  lemma OneScaling(a: real, s: real, t: real, rate: real, u: real, k: real)
    requires s != 0.0 && u * s == a && k * s == rate * t
    ensures u * rate * t == a * k
  {
    assert (u * rate * t) * s == (u * s) * (rate * t);
    assert (a * k) * s == a * (k * s);
    Cancel(u * rate * t, a * k, s);
  }

  /** Lifting, multiplying and scaling back is one multiplication. */
  lemma LiftedProduct(amount: int, source: nat, target: nat, rate: real)
    ensures ToDecimal(amount, source) * rate * Pow10(target) == Exact(amount, Scale(source, target, rate))
  {
    var a, s, t := amount as real, Pow10(source), Pow10(target);
    var u, k := ToDecimal(amount, source), Scale(source, target, rate);
    DividedThenTimes(a, s);
    DividedThenTimes(rate * t, s);
    OneScaling(a, s, t, rate, u, k);
  }

  lemma ConvertIsOneScaling(amount: int, source: nat, target: nat, rate: real)
    ensures ConvertAt(amount, source, target, rate) == Scaled(amount, Scale(source, target, rate))
  {
    LiftedProduct(amount, source, target, rate);
  }

  lemma Cancel(x: real, y: real, s: real)
    requires s != 0.0 && x * s == y * s
    ensures x == y
  {
    assert (x - y) * s == 0.0;
  }

  lemma TimesKeepsOrder(x: real, y: real, k: real)
    requires k > 0.0
    ensures x < y <==> x * k < y * k
  {
    if x < y {
      assert (y - x) * k > 0.0;
    } else if x > y {
      assert (x - y) * k > 0.0;
    }
  }

  lemma TimesReciprocal(x: real, k: real, inv: real)
    requires k != 0.0 && inv == 1.0 / k
    ensures x * inv == x / k
  {
    assert inv * k == 1.0;
    assert (x * inv) * k == x * (inv * k);
    QuotientIs(x, k, x * inv);
  }

  lemma ConvertRoundsOnce(amount: int, from: Currency, to: Currency, rate: real)
    requires from != to
    ensures Convert(amount, from, to, rate) == Scaled(amount, Scale(Exponent(from), Exponent(to), rate))
  {
    ConvertIsOneScaling(amount, Exponent(from), Exponent(to), rate);
  }

  lemma SameExponentsCancel(amount: int, exponent: nat, rate: real)
    ensures ConvertAt(amount, exponent, exponent, rate) == HalfEven(amount as real * rate)
  {
    var s := Pow10(exponent);
    ConvertIsOneScaling(amount, exponent, exponent, rate);
    assert Scale(exponent, exponent, rate) == rate by { QuotientIs(rate * s, s, rate); }
  }

  /** The amount times the rate, rounded half to even. */
  function AtRate(amount: int, rate: real): int {
    HalfEven(amount as real * rate)
  }

  /** Today every currency has the same minor unit, so that is what a conversion pays; within one currency
      it pays the amount. */
  lemma ConvertPaysAmountTimesRate(amount: int, from: Currency, to: Currency, rate: real)
    ensures Convert(amount, from, to, rate) == if from == to then amount else AtRate(amount, rate)
  {
    SameExponentsCancel(amount, Exponent(from), rate);
  }

  lemma RoundMinorUndoesToDecimal(amount: int, exponent: nat)
    ensures RoundMinor(ToDecimal(amount, exponent), exponent) == amount
  {
    assert ToDecimal(amount, exponent) * Pow10(exponent) == amount as real;
    HalfEvenFixesIntegers(amount);
  }

  // ----- There and back at the exact reciprocal -----

  /** If `k` carries `s` to `t` at rate `r`, its inverse carries `t` back to `s` at rate `1 / r`. */
  lemma InverseFactors(r: real, inv: real, s: real, t: real, k: real, b: real)
    requires s >= 1.0 && t >= 1.0
    requires inv * r == 1.0 && k * s == r * t && b * t == inv * s
    ensures b * k == 1.0
  {
    var m := s * t;
    assert m >= 1.0 by { TimesKeepsOrder(1.0, s, t); }
    assert (b * k) * m == (b * t) * (k * s) == (inv * s) * (r * t) == (inv * r) * m;
    Cancel(b * k, 1.0, m);
  }

  lemma ReciprocalScale(source: nat, target: nat, rate: real)
    requires rate > 0.0
    ensures Scale(source, target, rate) > 0.0
    ensures Scale(target, source, 1.0 / rate) == 1.0 / Scale(source, target, rate)
  {
    var s, t, k := Pow10(source), Pow10(target), Scale(source, target, rate);
    var inv, b := 1.0 / rate, Scale(target, source, 1.0 / rate);
    TimesKeepsOrder(0.0, rate, t);
    InverseFactors(rate, inv, s, t, k, b);
    QuotientIs(1.0, k, b);
  }

  /** Convert, then convert the result back at the reciprocal rate. */
  function ThereAndBack(amount: int, source: nat, target: nat, rate: real): int
    requires rate > 0.0
  {
    ConvertAt(ConvertAt(amount, source, target, rate), target, source, 1.0 / rate)
  }

  function Bounce(amount: int, k: real): int
    requires k > 0.0
  {
    Unscaled(Scaled(amount, k), k)
  }

  lemma WayBack(c: int, source: nat, target: nat, rate: real)
    requires rate > 0.0
    ensures Scale(source, target, rate) > 0.0
    ensures Scaled(c, Scale(target, source, 1.0 / rate)) == Unscaled(c, Scale(source, target, rate))
  {
    ReciprocalScale(source, target, rate);
    TimesReciprocal(c as real, Scale(source, target, rate), Scale(target, source, 1.0 / rate));
  }

  lemma ThereAndBackIsBounce(amount: int, source: nat, target: nat, rate: real)
    requires rate > 0.0
    ensures Scale(source, target, rate) > 0.0
    ensures ThereAndBack(amount, source, target, rate) == Bounce(amount, Scale(source, target, rate))
  {
    ConvertIsOneScaling(amount, source, target, rate);
    var c := ConvertAt(amount, source, target, rate);
    ConvertIsOneScaling(c, target, source, 1.0 / rate);
    WayBack(c, source, target, rate);
  }

  /** The rounding error of the way out, seen from the way back. */
  lemma ReturnError(amount: int, k: real)
    requires k > 0.0
    ensures -0.5 <= (Scaled(amount, k) as real / k - amount as real) * k <= 0.5
  {
    var c := Scaled(amount, k);
    HalfEvenIsTheNearestEven(amount as real * k, c);
    assert c as real / k * k == c as real;
    assert (c as real / k - amount as real) * k == c as real / k * k - amount as real * k;
  }

  lemma StrictlyWithin(e: real, k: real)
    requires k > 1.0 && -0.5 <= e * k <= 0.5
    ensures -0.5 < e < 0.5
  {
    if e >= 0.5 {
      TimesKeepsOrder(1.0, k, e);
    } else if e <= -0.5 {
      TimesKeepsOrder(1.0, k, -e);
    }
  }

  lemma BounceIsExactAtOrAboveOne(amount: int, k: real)
    requires k >= 1.0
    ensures Bounce(amount, k) == amount
  {
    ReturnError(amount, k);
    var x := Scaled(amount, k) as real / k;
    var e := x - amount as real;
    if k == 1.0 {
      HalfEvenFixesIntegers(amount);
    } else {
      StrictlyWithin(e, k);
      HalfEvenIsTheNearestEven(x, amount);
    }
  }

  lemma AtMost(e: real, h: real, k: real)
    requires k > 0.0 && h * k == 0.5 && e * k <= 0.5
    ensures e <= h
  {
    TimesKeepsOrder(h, e, k);
  }

  lemma NegatedTimes(e: real, k: real)
    ensures (-e) * k == -(e * k)
  {
  }

  lemma WithinOf(e: real, h: real, k: real)
    requires k > 0.0 && h * k == 0.5 && -0.5 <= e * k <= 0.5
    ensures -h <= e <= h
  {
    AtMost(e, h, k);
    NegatedTimes(e, k);
    AtMost(-e, h, k);
  }

  lemma BounceError(amount: int, k: real)
    requires k > 0.0
    ensures -0.5 - 0.5 / k <= Bounce(amount, k) as real - amount as real <= 0.5 + 0.5 / k
  {
    ReturnError(amount, k);
    var x := Scaled(amount, k) as real / k;
    assert 0.5 / k * k == 0.5;
    WithinOf(x - amount as real, 0.5 / k, k);
    HalfEvenIsTheNearestEven(x, Bounce(amount, k));
  }

  ghost predicate AllSurvive(k: real)
    requires k > 0.0
  {
    forall a: int :: Bounce(a, k) == a
  }

  /** If every amount survives, their images are distinct and so at least one unit apart. */
  lemma {:induction false} SurvivorsSpread(n: nat, k: real)
    requires k > 0.0 && AllSurvive(k)
    ensures HalfEven(n as real * k) >= n
  {
    if n == 0 {
      HalfEvenFixesIntegers(0);
    } else {
      var m := n - 1;
      SurvivorsSpread(m, k);
      TimesKeepsOrder(m as real, n as real, k);
      HalfEvenIsMonotone(m as real * k, n as real * k);
      assert Bounce(m, k) == m && Bounce(n, k) == n;
      assert HalfEven(m as real * k) != HalfEven(n as real * k);
    }
  }

  /** Below one the images cannot keep up: some amount is lost. */
  lemma SomeAmountIsLostBelowOne(k: real)
    requires 0.0 < k < 1.0
    ensures !AllSurvive(k)
  {
    if AllSurvive(k) {
      var gap := 1.0 - k;
      var q := 1.0 / gap;
      var n := q.Floor + 1;
      assert q * gap == 1.0;
      TimesKeepsOrder(q, n as real, gap);
      assert n as real * gap == n as real - n as real * k;
      SurvivorsSpread(n, k);
      HalfEvenIsTheNearestEven(n as real * k, HalfEven(n as real * k));
      assert false;
    }
  }

  lemma EveryAmountSurvivesIff(k: real)
    requires k > 0.0
    ensures AllSurvive(k) <==> k >= 1.0
  {
    if k >= 1.0 {
      forall a: int ensures Bounce(a, k) == a { BounceIsExactAtOrAboveOne(a, k); }
    } else {
      SomeAmountIsLostBelowOne(k);
    }
  }

  /** Every amount survives the trip exactly when a source unit is worth at least a target unit. */
  lemma ThereAndBackIsLosslessIff(source: nat, target: nat, rate: real)
    requires rate > 0.0
    ensures (forall a: int :: ThereAndBack(a, source, target, rate) == a)
        <==> Scale(source, target, rate) >= 1.0
  {
    ReciprocalScale(source, target, rate);
    forall a: int
      ensures ThereAndBack(a, source, target, rate) == Bounce(a, Scale(source, target, rate))
    {
      ThereAndBackIsBounce(a, source, target, rate);
    }
    EveryAmountSurvivesIff(Scale(source, target, rate));
  }

  lemma ThereAndBackError(amount: int, source: nat, target: nat, rate: real)
    requires rate > 0.0
    ensures var h := 0.5 / Scale(source, target, rate);
      -0.5 - h <= (ThereAndBack(amount, source, target, rate) - amount) as real <= 0.5 + h
  {
    ThereAndBackIsBounce(amount, source, target, rate);
    BounceError(amount, Scale(source, target, rate));
  }
}
