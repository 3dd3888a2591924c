/** The arithmetic as Python carries it out: a decimal operation keeps 28 significant digits. Where
    that changes nothing, and by how much it can change the rest. */
module Decimals {
  import opened Wrappers
  import opened Money
  import opened Conversion
  import Rates

  /** 10 to the 28th: the bound of a 28-digit coefficient. */
  const LIMIT: int := 10_000_000_000_000_000_000_000_000_000

  /** The relative error of one rounding: half a unit in the 28th digit. */
  const EPS: real := 5.0 / 10_000_000_000_000_000_000_000_000_000.0

  function Abs(x: real): real {
    if x < 0.0 then -x else x
  }

  /** 10 to an integer power. */
  function Power(e: int): (p: real)
    ensures p > 0.0
    decreases if e < 0 then -e else e
  {
    if e == 0 then 1.0 else if e > 0 then 10.0 * Power(e - 1) else Power(e + 1) / 10.0
  }

  predicate IsDecimal(x: real, m: int, e: int) {
    -LIMIT < m < LIMIT && x == Times(m as real, Power(e))
  }

  ghost predicate Representable(x: real) {
    exists m: int, e: int :: IsDecimal(x, m, e)
  }

  /** `y` is what an operation returns whose exact result is `x`. */
  ghost predicate Computes(x: real, y: real) {
    && Representable(y)
    && (Representable(x) ==> y == x)
    && Abs(y - x) <= Times(EPS, Abs(x))
  }

  /** Multiplication, by name, so that equal factors give equal products without arithmetic. */
  function Times(x: real, y: real): real {
    x * y
  }

  lemma RepresentableIsExact(x: real, y: real)
    requires Representable(x)
    ensures Computes(x, y) <==> y == x
  {
    ProductIsNotNegative(EPS, Abs(x));
  }

  // ----- Products of reals -----

  lemma ProductIsNotNegative(x: real, y: real)
    requires x >= 0.0 && y >= 0.0
    ensures x * y >= 0.0
  {
  }

  lemma ProductAssociates(x: real, y: real, z: real)
    ensures (x * y) * z == x * (y * z)
  {
  }

  lemma TimesAssociates(x: real, y: real, z: real)
    ensures Times(Times(x, y), z) == Times(x, Times(y, z))
  {
    ProductAssociates(x, y, z);
  }

  lemma TimesCommutes(x: real, y: real)
    ensures Times(x, y) == Times(y, x)
  {
  }

  lemma TimesOne(x: real)
    ensures Times(x, 1.0) == x && Times(1.0, x) == x
  {
  }

  lemma TimesRegroups(a: real, p: real, n: real, q: real)
    ensures Times(Times(a, p), Times(n, q)) == Times(Times(a, n), Times(p, q))
  {
    TimesAssociates(a, p, Times(n, q));
    TimesAssociates(p, n, q);
    TimesAssociates(n, p, q);
    TimesAssociates(a, n, Times(p, q));
    TimesCommutes(p, n);
  }

  lemma TimesKeepsAtMost(x: real, y: real, k: real)
    requires k >= 0.0 && x <= y
    ensures Times(x, k) <= Times(y, k)
  {
    ProductIsNotNegative(y - x, k);
  }

  lemma AbsOfProduct(x: real, y: real)
    ensures Abs(Times(x, y)) == Times(Abs(x), Abs(y))
  {
    ProductIsNotNegative(Abs(x), Abs(y));
  }

  lemma DividedByInverse(x: real, p: real, inv: real)
    requires p != 0.0 && Times(inv, p) == 1.0
    ensures x / p == Times(x, inv)
  {
    TimesAssociates(x, inv, p);
    TimesOne(x);
    QuotientIs(x, p, Times(x, inv));
  }

  lemma TimesInverse(x: real, p: real, inv: real, z: real)
    requires Times(x, p) == z && Times(inv, p) == 1.0
    ensures Times(z, inv) == x
  {
    TimesAssociates(x, p, inv);
    TimesCommutes(p, inv);
    TimesOne(x);
  }

  // ----- Powers of ten -----

  lemma PowerStep(e: int)
    ensures Power(e + 1) == 10.0 * Power(e)
  {
  }

  lemma TenOut(x: real, p: real)
    ensures Times(x, 10.0 * p) == 10.0 * Times(x, p)
  {
  }

  lemma {:induction false} PowerShifts(e: int, k: nat)
    ensures Times(Power(e), Pow10(k)) == Power(e + k)
  {
    if k == 0 {
      TimesOne(Power(e));
    } else {
      PowerShifts(e, k - 1);
      TenOut(Power(e), Pow10(k - 1));
      PowerStep(e + k - 1);
    }
  }

  lemma PowerInverts(e: int, k: nat)
    requires e + k == 0
    ensures Times(Power(e), Pow10(k)) == 1.0
  {
    PowerShifts(e, k);
  }

  lemma DividingShifts(x: real, e: int, k: nat)
    requires e + k == 0
    ensures x / Pow10(k) == Times(x, Power(e))
  {
    PowerInverts(e, k);
    DividedByInverse(x, Pow10(k), Power(e));
  }

  lemma PowersMultiply(d: int, e: int, k: nat)
    requires e + k == 0
    ensures Times(Power(d), Power(e)) == Power(d + e)
  {
    PowerInverts(e, k);
    PowerShifts(d + e, k);
    TimesInverse(Power(d + e), Pow10(k), Power(e), Power(d));
  }

  // ----- Where nothing is rounded -----

  lemma WholeShiftIsRepresentable(x: real, k: nat)
    requires Representable(x)
    ensures Representable(Times(x, Pow10(k)))
  {
    var m: int, e: int :| IsDecimal(x, m, e);
    ShiftedDecimal(x, m, e, k);
  }

  lemma ShiftedDecimal(x: real, m: int, e: int, k: nat)
    requires IsDecimal(x, m, e)
    ensures IsDecimal(Times(x, Pow10(k)), m, e + k)
  {
    PowerShifts(e, k);
    TimesAssociates(m as real, Power(e), Pow10(k));
  }

  lemma AmountsAreRepresentable(amount: int, exponent: nat)
    requires -LIMIT < amount < LIMIT
    ensures Representable(ToDecimal(amount, exponent))
  {
    var e: int := 0 - exponent;
    DividingShifts(amount as real, e, exponent);
    assert IsDecimal(ToDecimal(amount, exponent), amount, e);
  }

  /** The three operations of a conversion, on exact operands. */
  ghost predicate Chain(lifted: real, rate: real, shift: real, major: real, product: real, scaled: real) {
    Computes(lifted, major) && Computes(Times(major, rate), product) && Computes(Times(product, shift), scaled)
  }

  /** `r` is what `convert` returns. Its `quantize` raises when the result needs more than 28 digits. */
  ghost predicate ConvertComputes(amount: int, source: nat, target: nat, rate: real, r: int) {
    exists major: real, product: real, scaled: real ::
      Chain(ToDecimal(amount, source), rate, Pow10(target), major, product, scaled) && r == HalfEven(scaled) && -LIMIT < r < LIMIT
  }

  /** A rate as it is stored: ten decimals. */
  predicate StoredRate(rate: real, n: int) {
    rate == Times(n as real, Power(-10))
  }

  lemma RealOfProduct(a: int, b: int)
    ensures (a * b) as real == Times(a as real, b as real)
  {
  }

  lemma ProductIsRepresentable(amount: int, source: nat, rate: real, n: int)
    requires StoredRate(rate, n) && -LIMIT < amount * n < LIMIT
    ensures Representable(Times(ToDecimal(amount, source), rate))
  {
    var e: int := 0 - source;
    DividingShifts(amount as real, e, source);
    PowersMultiply(e, -10, 10);
    TimesRegroups(amount as real, Power(e), n as real, Power(-10));
    RealOfProduct(amount, n);
    assert IsDecimal(Times(ToDecimal(amount, source), rate), amount * n, e - 10);
  }

  lemma ExactChain(lifted: real, rate: real, shift: real, major: real, product: real, scaled: real)
    requires Representable(lifted) && Representable(Times(lifted, rate)) && Representable(Times(Times(lifted, rate), shift))
    ensures Chain(lifted, rate, shift, major, product, scaled)
        <==> major == lifted && product == Times(lifted, rate) && scaled == Times(Times(lifted, rate), shift)
  {
    RepresentableIsExact(lifted, major);
    RepresentableIsExact(Times(lifted, rate), product);
    RepresentableIsExact(Times(Times(lifted, rate), shift), scaled);
  }

  lemma ExactChainRounds(amount: int, source: nat, target: nat, rate: real, r: int)
    requires var x := ToDecimal(amount, source);
      Representable(x) && Representable(Times(x, rate)) && Representable(Times(Times(x, rate), Pow10(target)))
    ensures ConvertComputes(amount, source, target, rate, r)
        <==> r == HalfEven(Times(Times(ToDecimal(amount, source), rate), Pow10(target))) && -LIMIT < r < LIMIT
  {
    var x, t := ToDecimal(amount, source), Pow10(target);
    ExactChain(x, rate, t, x, Times(x, rate), Times(Times(x, rate), t));
    if ConvertComputes(amount, source, target, rate, r) {
      var major: real, product: real, scaled: real :| Chain(x, rate, t, major, product, scaled) && r == HalfEven(scaled);
      ExactChain(x, rate, t, major, product, scaled);
    }
  }

  /** As long as the amount, times the rate without its decimal point, has at most 28 digits, the code
      rounds nowhere but at the end: it computes exactly the model's conversion, and returns it if that
      has at most 28 digits too. */
  lemma ConvertIsExactWithin28Digits(amount: int, source: nat, target: nat, rate: real, n: int, r: int)
    requires StoredRate(rate, n) && -LIMIT < amount < LIMIT && -LIMIT < amount * n < LIMIT
    ensures ConvertComputes(amount, source, target, rate, r) <==> r == ConvertAt(amount, source, target, rate) && -LIMIT < r < LIMIT
  {
    AmountsAreRepresentable(amount, source);
    ProductIsRepresentable(amount, source, rate, n);
    WholeShiftIsRepresentable(Times(ToDecimal(amount, source), rate), target);
    ExactChainRounds(amount, source, target, rate, r);
  }

  // ----- Reciprocals -----

  lemma ReciprocalError(rate: real, q: real, inv: real, eps: real)
    requires rate > 0.0 && q > 0.0 && Times(q, rate) == 1.0 && Abs(inv - q) <= Times(eps, q)
    ensures Abs(Times(inv, rate) - 1.0) <= eps
  {
    AbsOfProduct(inv - q, rate);
    TimesKeepsAtMost(Abs(inv - q), Times(eps, q), rate);
    TimesAssociates(eps, q, rate);
    TimesOne(eps);
    TimesOverMinus(inv, q, rate);
  }

  lemma TimesOverMinus(x: real, y: real, k: real)
    ensures Times(x - y, k) == Times(x, k) - Times(y, k)
  {
  }

  lemma Reciprocal(rate: real)
    requires rate > 0.0
    ensures 1.0 / rate > 0.0 && Times(1.0 / rate, rate) == 1.0
  {
    DividedThenTimes(1.0, rate);
  }

  /** The computed reciprocal of a rate is off by one rounding, and exact only if 28 digits hold it. */
  lemma ReciprocalIsExactIff(rate: real, inv: real)
    requires rate > 0.0 && Computes(1.0 / rate, inv)
    ensures Abs(Times(inv, rate) - 1.0) <= EPS
    ensures Times(inv, rate) == 1.0 <==> Representable(1.0 / rate)
  {
    Reciprocal(rate);
    ReciprocalError(rate, 1.0 / rate, inv, EPS);
    if Times(inv, rate) == 1.0 {
      QuotientIs(1.0, rate, inv);
    }
  }

  lemma ReciprocalIsResolved(rows: seq<Rates.Rate>, base: Currency, quote: Currency, asOf: int)
    requires base != quote && Rates.Resolve(rows, base, quote, asOf).Ok?
    requires forall r <- rows :: !Rates.Quotes(r, quote, base, asOf)
    requires Rates.Resolve(rows, base, quote, asOf).value.rate > 0.0
    ensures Rates.Resolve(rows, quote, base, asOf).Ok?
    ensures Rates.Resolve(rows, quote, base, asOf).value.rate == 1.0 / Rates.Resolve(rows, base, quote, asOf).value.rate
  {
    Rates.LatestIsLatest(rows, base, quote, asOf);
    Rates.LatestIsLatest(rows, quote, base, asOf);
  }

  /** A pair of which one direction is maintained, as the code resolves it: the two rates multiply to
      one within one rounding, and exactly when the reciprocal fits in 28 digits. */
  lemma OneSidedPairInDecimals(rows: seq<Rates.Rate>, base: Currency, quote: Currency, asOf: int, inv: real)
    requires base != quote && Rates.Resolve(rows, base, quote, asOf).Ok?
    requires forall r <- rows :: !Rates.Quotes(r, quote, base, asOf)
    requires Rates.Resolve(rows, base, quote, asOf).value.rate > 0.0
    requires Rates.Resolve(rows, quote, base, asOf).Ok? ==> Computes(Rates.Resolve(rows, quote, base, asOf).value.rate, inv)
    ensures Rates.Resolve(rows, quote, base, asOf).Ok?
    ensures var rate := Rates.Resolve(rows, base, quote, asOf).value.rate;
      Abs(Times(inv, rate) - 1.0) <= EPS && (Times(inv, rate) == 1.0 <==> Representable(1.0 / rate))
  {
    ReciprocalIsResolved(rows, base, quote, asOf);
    ReciprocalIsExactIff(Rates.Resolve(rows, base, quote, asOf).value.rate, inv);
  }

  function TenTo(k: nat): int {
    if k == 0 then 1 else 10 * TenTo(k - 1)
  }

  lemma {:induction false} TenToIsPow10(k: nat)
    ensures TenTo(k) as real == Pow10(k)
  {
    if k == 0 {
    } else {
      TenToIsPow10(k - 1);
    }
  }

  lemma {:induction false} TenToIsNoMultipleOfThree(k: nat, m: int)
    ensures 3 * m != TenTo(k)
  {
    if k == 0 {
    } else {
      TenToIsNoMultipleOfThree(k - 1, m - 3 * TenTo(k - 1));
    }
  }

  lemma NotAThird(m: real, p: real, t: real)
    requires Times(p, t) == 1.0 && 3.0 * m != t
    ensures 3.0 * Times(m, p) != 1.0
  {
    TimesAssociates(m, p, t);
    TimesOne(m);
    TenFreeScale(Times(m, p), t);
  }

  lemma TenFreeScale(x: real, t: real)
    ensures 3.0 * x == 1.0 ==> 3.0 * Times(x, t) == t
  {
    assert 3.0 * Times(x, t) == (3.0 * x) * t;
  }

  lemma NoDecimalIsAThird(m: int, e: int)
    ensures 3.0 * Times(m as real, Power(e)) != 1.0
  {
    if e >= 0 {
      TenToIsPow10(e);
      PowerShifts(0, e);
      TimesOne(Pow10(e));
      RealOfProduct(m, TenTo(e));
      assert 3 * (m * TenTo(e)) != 1;
    } else {
      var k: int := 0 - e;
      TenToIsPow10(k);
      TenToIsNoMultipleOfThree(k, m);
      PowerInverts(e, k);
      assert (3 * m) as real != TenTo(k) as real;
      NotAThird(m as real, Power(e), Pow10(k));
    }
  }

  lemma DecimalIsNoThird(m: int, e: int)
    ensures !IsDecimal(1.0 / 3.0, m, e)
  {
    NoDecimalIsAThird(m, e);
  }

  lemma ThirdIsNotRepresentable()
    ensures !Representable(1.0 / 3.0)
  {
    if Representable(1.0 / 3.0) {
      var m: int, e: int :| IsDecimal(1.0 / 3.0, m, e);
      DecimalIsNoThird(m, e);
    }
  }

  /** So for a rate of 3 the two directions never multiply to one. */
  lemma ThreeHasNoReciprocal(inv: real)
    requires Computes(1.0 / 3.0, inv)
    ensures Times(inv, 3.0) != 1.0
  {
    ReciprocalIsExactIff(3.0, inv);
    ThirdIsNotRepresentable();
  }

  // ----- There and back -----

  /** Two roundings, one after the other. */
  function Twice(eps: real): real {
    2.0 * eps + eps * eps
  }

  lemma TwiceTimes(eps: real, y: real)
    ensures Times(Twice(eps), y) == 2.0 * Times(eps, y) + Times(eps, Times(eps, y))
  {
    ProductAssociates(eps, eps, y);
  }

  lemma OnePlusTimes(eps: real, q: real, ax: real)
    ensures Times(q + Times(eps, q), ax) == Times(ax, q) + Times(eps, Times(ax, q))
  {
    ProductAssociates(eps, q, ax);
  }

  lemma EpsOverSum(eps: real, y: real)
    ensures Times(y + Times(eps, y), eps) == Times(eps, y) + Times(eps, Times(eps, y))
  {
    ProductAssociates(eps, eps, y);
  }

  lemma ErrorsAdd(eps: real, ax: real, q: real, ainv: real, first: real, second: real)
    requires ax >= 0.0 && q > 0.0 && eps > 0.0 && ainv <= q + Times(eps, q)
    requires first <= Times(eps, Times(ax, ainv)) && second <= Times(Times(eps, q), ax)
    ensures first + second <= Times(Twice(eps), Times(ax, q))
  {
    var y := Times(ax, q);
    TimesKeepsAtMost(ainv, q + Times(eps, q), ax);
    OnePlusTimes(eps, q, ax);
    TimesCommutes(ax, ainv);
    TimesKeepsAtMost(Times(ax, ainv), y + Times(eps, y), eps);
    TimesCommutes(eps, Times(ax, ainv));
    EpsOverSum(eps, y);
    TimesAssociates(eps, q, ax);
    TimesCommutes(q, ax);
    TwiceTimes(eps, y);
  }

  lemma TriangleInequality(x: real, y: real, z: real)
    ensures Abs(x - z) <= Abs(x - y) + Abs(y - z)
  {
  }

  lemma InverseIsBounded(inv: real, q: real, bound: real)
    requires q > 0.0 && Abs(inv - q) <= bound
    ensures Abs(inv) <= q + bound
  {
  }

  lemma TwoRoundings(eps: real, x: real, q: real, inv: real, product: real)
    requires q > 0.0 && eps > 0.0
    requires Abs(inv - q) <= Times(eps, q) && Abs(product - Times(x, inv)) <= Times(eps, Abs(Times(x, inv)))
    ensures Abs(product - Times(x, q)) <= Times(Twice(eps), Abs(Times(x, q)))
  {
    AbsOfProduct(x, q);
    AbsOfProduct(x, inv);
    AbsOfProduct(inv - q, x);
    TimesOverMinus(inv, q, x);
    TimesCommutes(inv, x);
    TimesCommutes(q, x);
    TimesKeepsAtMost(Abs(inv - q), Times(eps, q), Abs(x));
    InverseIsBounded(inv, q, Times(eps, q));
    ErrorsAdd(eps, Abs(x), q, Abs(inv), Abs(product - Times(x, inv)), Abs(Times(x, inv) - Times(x, q)));
    TriangleInequality(product, Times(x, inv), Times(x, q));
  }

  lemma ScaledError(x: real, y: real, s: real, bound: real)
    requires s > 0.0 && Abs(y - x) <= Times(bound, Abs(x))
    ensures Abs(Times(y, s) - Times(x, s)) <= Times(bound, Abs(Times(x, s)))
  {
    AbsOfProduct(y - x, s);
    AbsOfProduct(x, s);
    TimesKeepsAtMost(Abs(y - x), Times(bound, Abs(x)), s);
    TimesAssociates(bound, Abs(x), s);
    TimesOverMinus(y, x, s);
  }

  lemma ComputedError(x: real, y: real)
    requires Computes(x, y)
    ensures Abs(y - x) <= Times(EPS, Abs(x))
  {
  }

  /** With a rounded rate, the value before the last rounding is close to the exact one. */
  lemma ChainIsClose(lifted: real, q: real, inv: real, k: nat, major: real, product: real, scaled: real)
    requires q > 0.0 && Computes(q, inv) && Representable(lifted)
    requires Chain(lifted, inv, Pow10(k), major, product, scaled)
    ensures var exact := Times(Times(lifted, q), Pow10(k)); Abs(scaled - exact) <= Times(Twice(EPS), Abs(exact))
  {
    RepresentableIsExact(lifted, major);
    WholeShiftIsRepresentable(product, k);
    RepresentableIsExact(Times(product, Pow10(k)), scaled);
    ComputedError(q, inv);
    ComputedError(Times(lifted, inv), product);
    TwoRoundings(EPS, lifted, q, inv, product);
    ScaledError(Times(lifted, q), product, Pow10(k), Twice(EPS));
  }

  lemma CloseEnough(a: int, h: real, exact: real, scaled: real, bound: real)
    requires bound >= 0.0 && -h <= exact - a as real <= h
    requires Abs(scaled - exact) <= Times(bound, Abs(exact))
    requires Times(Abs(a as real) + h, bound) < 0.5 - h
    ensures HalfEven(scaled) == a
  {
    TimesKeepsAtMost(Abs(exact), Abs(a as real) + h, bound);
    TimesCommutes(bound, Abs(exact));
    assert -0.5 < scaled - a as real < 0.5;
    HalfEvenIsTheNearestEven(scaled, a);
  }

  lemma LiftedTimes(c: int, source: nat, target: nat, rate: real)
    ensures Times(Times(ToDecimal(c, source), rate), Pow10(target)) == Exact(c, Scale(source, target, rate))
  {
    LiftedProduct(c, source, target, rate);
  }

  lemma ExactTimesInverse(c: int, k: real)
    requires k > 0.0
    ensures Exact(c, 1.0 / k) == c as real / k
  {
    TimesReciprocal(c as real, k, 1.0 / k);
  }

  lemma ReturnsWithinHalf(a: int, k: real, c: int)
    requires k > 0.0 && c == Scaled(a, k)
    ensures -(0.5 / k) <= c as real / k - a as real <= 0.5 / k
  {
    ReturnError(a, k);
    DividedThenTimes(0.5, k);
    WithinOf(c as real / k - a as real, 0.5 / k, k);
  }

  /** The exact way back of what a conversion returned misses the amount by at most half a target unit. */
  lemma ExactWayBack(a: int, source: nat, target: nat, rate: real, c: int)
    requires rate > 0.0 && c == ConvertAt(a, source, target, rate)
    ensures var k := Scale(source, target, rate);
      k > 0.0 && -(0.5 / k) <= Times(Times(ToDecimal(c, target), 1.0 / rate), Pow10(source)) - a as real <= 0.5 / k
  {
    ConvertIsOneScaling(a, source, target, rate);
    LiftedTimes(c, target, source, 1.0 / rate);
    ReciprocalScale(source, target, rate);
    ExactTimesInverse(c, Scale(source, target, rate));
    ReturnsWithinHalf(a, Scale(source, target, rate), c);
  }

  /** Converting at a stored rate and back at the computed reciprocal returns the amount, when a source
      unit is worth more than a target unit by enough to absorb two roundings. */
  lemma ThereAndBackIsLosslessInDecimals(a: int, source: nat, target: nat, rate: real, n: int, inv: real, c: int, r: int)
    requires rate > 0.0 && StoredRate(rate, n) && -LIMIT < a < LIMIT && -LIMIT < a * n < LIMIT
    requires ConvertComputes(a, source, target, rate, c)
    requires Computes(1.0 / rate, inv) && ConvertComputes(c, target, source, inv, r)
    requires var h := 0.5 / Scale(source, target, rate);
      Times(Abs(a as real) + h, Twice(EPS)) < 0.5 - h
    ensures r == a
  {
    ConvertIsExactWithin28Digits(a, source, target, rate, n, c);
    ExactWayBack(a, source, target, rate, c);
    var major: real, product: real, scaled: real :|
      Chain(ToDecimal(c, target), inv, Pow10(source), major, product, scaled) && r == HalfEven(scaled);
    Reciprocal(rate);
    AmountsAreRepresentable(c, target);
    ChainIsClose(ToDecimal(c, target), 1.0 / rate, inv, source, major, product, scaled);
    CloseEnough(a, 0.5 / Scale(source, target, rate), Times(Times(ToDecimal(c, target), 1.0 / rate), Pow10(source)), scaled, Twice(EPS));
  }
}
