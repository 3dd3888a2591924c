/** Minor units, banker's rounding and conversion (backend/money/types.py).

    A Python `Decimal` is an exact `real` here. The currency table gives every currency two
    digits today; the laws below are stated for arbitrary exponents, as the table allows. */
module Money {
  datatype Currency = USD | EUR | GBP | CAD

  function Exponent(c: Currency): nat {
    match c
    case USD => 2
    case EUR => 2
    case GBP => 2
    case CAD => 2
  }

  function Pow10(e: nat): (p: real)
    ensures p >= 1.0
  {
    if e == 0 then 1.0 else 10.0 * Pow10(e - 1)
  }

  function ToDecimal(amount: int, exponent: nat): real {
    amount as real / Pow10(exponent)
  }

  /** `quantize(Decimal(1), rounding=ROUND_HALF_EVEN)`. */
  function HalfEven(x: real): int {
    var low := x.Floor;
    var rest := x - low as real;
    if rest < 0.5 || (rest == 0.5 && low % 2 == 0) then low else low + 1
  }

  function RoundMinor(value: real, exponent: nat): int {
    HalfEven(value * Pow10(exponent))
  }

  /** The conversion arithmetic, for any pair of minor-unit exponents. */
  function ConvertAt(amount: int, source: nat, target: nat, rate: real): int {
    RoundMinor(ToDecimal(amount, source) * rate, target)
  }

  function Convert(amount: int, source: Currency, target: Currency, rate: real): int {
    if source == target then amount
    else ConvertAt(amount, Exponent(source), Exponent(target), rate)
  }

  // ----- What banker's rounding is -----

  /** roundTiesToEven of IEEE 754-2019, section 4.3.1: nearest, and even when two are nearest. */
  predicate NearestEven(r: int, x: real) {
    && -0.5 <= r as real - x <= 0.5
    && (r as real - x == 0.5 || r as real - x == -0.5 ==> r % 2 == 0)
  }

  lemma HalfEvenIsTheNearestEven(x: real, r: int)
    ensures r == HalfEven(x) <==> NearestEven(r, x)
  {
    assert NearestEven(HalfEven(x), x);
    if NearestEven(r, x) && r != HalfEven(x) {
      // Two nearest integers are neighbours, and then both would have to be even.
      assert false;
    }
  }

  lemma HalfEvenIsOdd(x: real)
    ensures HalfEven(-x) == -HalfEven(x)
  {
    HalfEvenIsTheNearestEven(x, HalfEven(x));
    HalfEvenIsTheNearestEven(-x, -HalfEven(x));
  }

  lemma HalfEvenIsMonotone(x: real, y: real)
    requires x <= y
    ensures HalfEven(x) <= HalfEven(y)
  {
    HalfEvenIsTheNearestEven(x, HalfEven(x));
    HalfEvenIsTheNearestEven(y, HalfEven(y));
  }

  lemma HalfEvenShiftsByEven(x: real, k: int)
    ensures HalfEven(x + (2 * k) as real) == HalfEven(x) + 2 * k
  {
    HalfEvenIsTheNearestEven(x, HalfEven(x));
    HalfEvenIsTheNearestEven(x + (2 * k) as real, HalfEven(x) + 2 * k);
  }

  lemma HalfEvenFixesIntegers(n: int)
    ensures HalfEven(n as real) == n
  {
    HalfEvenIsTheNearestEven(n as real, n);
  }

  // ----- No directional bias -----

  function Ratio(n: int, d: int): real
    requires d > 0
  {
    n as real / d as real
  }

  /** The signed error made when the fraction `n / d` is rounded. */
  function Bias(n: int, d: int): real
    requires d > 0
  {
    HalfEven(Ratio(n, d)) as real - Ratio(n, d)
  }

  function BiasSum(start: int, count: nat, d: int): real
    requires d > 0
  {
    if count == 0 then 0.0 else BiasSum(start, count - 1, d) + Bias(start + count - 1, d)
  }

  lemma QuotientIs(x: real, y: real, q: real)
    requires y != 0.0 && x == q * y
    ensures x / y == q
  {
    var d := x / y;
    assert d * y == q * y;
    assert (d - q) * y == 0.0;
  }

  lemma RatioShift(n: int, d: int)
    requires d > 0
    ensures Ratio(n + 2 * d, d) == Ratio(n, d) + 2.0
  {
    var y := d as real;
    var q := Ratio(n, d);
    var m := (n + 2 * d) as real;
    assert m == q * y + 2.0 * y == (q + 2.0) * y;
    QuotientIs(m, y, q + 2.0);
  }

  lemma BiasIsOdd(n: int, d: int)
    requires d > 0
    ensures Bias(-n, d) == -Bias(n, d)
  {
    HalfEvenIsOdd(Ratio(n, d));
    assert Ratio(-n, d) == -Ratio(n, d);
  }

  lemma BiasHasPeriodTwice(n: int, d: int)
    requires d > 0
    ensures Bias(n + 2 * d, d) == Bias(n, d)
  {
    RatioShift(n, d);
    HalfEvenShiftsByEven(Ratio(n, d), 1);
  }

  lemma {:induction false} BiasSumSplitsFirst(start: int, count: nat, d: int)
    requires d > 0
    ensures BiasSum(start, count + 1, d) == Bias(start, d) + BiasSum(start + 1, count, d)
  {
    if count == 0 {
    } else {
      BiasSumSplitsFirst(start, count - 1, d);
      assert start + 1 + (count - 1) == start + count;
    }
  }

  lemma {:induction false} BiasSumSymmetric(k: int, d: int)
    requires k >= 0 && d > 0
    ensures BiasSum(-k, 2 * k + 1, d) == 0.0
  {
    if k == 0 {
      BiasIsOdd(0, d);
    } else {
      BiasSumSplitsFirst(-k, 2 * k, d);
      BiasSumSymmetric(k - 1, d);
      BiasIsOdd(k, d);
      assert -k + 1 == -(k - 1);
    }
  }

  lemma BiasSumSlides(start: int, d: int)
    requires d > 0
    ensures BiasSum(start + 1, 2 * d, d) == BiasSum(start, 2 * d, d)
  {
    BiasSumSplitsFirst(start, 2 * d, d);
    BiasHasPeriodTwice(start, d);
  }

  lemma BiasSumCentred(d: int)
    requires d > 0
    ensures BiasSum(-d, 2 * d, d) == 0.0
  {
    BiasSumSplitsFirst(-d, 2 * d - 1, d);
    BiasSumSymmetric(d - 1, d);
    QuotientIs((-d) as real, d as real, -1.0);
    HalfEvenFixesIntegers(-1);
    assert Bias(-d, d) == 0.0;
  }

  /** Over any `2d` consecutive numerators the rounding errors cancel exactly. */
  lemma {:induction false} RoundingIsUnbiased(start: int, d: int)
    requires d > 0
    ensures BiasSum(start, 2 * d, d) == 0.0
    decreases if start < -d then -d - start else start + d
  {
    if start == -d {
      BiasSumCentred(d);
    } else if start < -d {
      RoundingIsUnbiased(start + 1, d);
      BiasSumSlides(start, d);
    } else {
      RoundingIsUnbiased(start - 1, d);
      BiasSumSlides(start - 1, d);
    }
  }
}
