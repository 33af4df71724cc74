// ValuationSummary.of: copy a valuation and a price into a summary and
// compute the upside potential in percent, rounded HALF_UP twice.

module Valuations {
  import opened Wrappers

  /** A date as its epoch day; only copied here. */
  type Date = int

  datatype Valuation = Valuation(
    id: int, market: string, code: string, date: Date, consensus: string,
    buy: int, hold: int, sell: int, target: real)

  datatype ValuationSummary = ValuationSummary(
    id: int, market: string, code: string, date: Date, consensus: string,
    buy: int, hold: int, sell: int, target: real, price: Option<real>,
    potential: Option<real>)

  function Pow10(n: nat): (r: nat)
    ensures r >= 1
  {
    if n == 0 then 1 else 10 * Pow10(n - 1)
  }

  /** r is a whole number of steps of 10^-n: a value BigDecimal holds at scale n. */
  predicate OnGrid(r: real, n: nat)
  {
    (r * Pow10(n) as real).Floor as real == r * Pow10(n) as real
  }

  /** k steps of 10^-n lie on the grid. */
  lemma StepsOnGrid(k: int, n: nat)
    ensures OnGrid(k as real / Pow10(n) as real, n)
  {
    var q := Pow10(n) as real;
    assert (k as real / q) * q == k as real;
  }

  /** RoundingMode.HALF_UP to n decimal places: to the nearest multiple of
      10^-n, a tie going away from zero. */
  function RoundHalfUp(x: real, n: nat): (r: real)
    ensures OnGrid(r, n)
    ensures x >= 0.0 ==> x - 1.0 / (2.0 * Pow10(n) as real) < r <= x + 1.0 / (2.0 * Pow10(n) as real)
    ensures x < 0.0 ==> x - 1.0 / (2.0 * Pow10(n) as real) <= r < x + 1.0 / (2.0 * Pow10(n) as real)
  {
    var q := Pow10(n) as real;
    var k := if x >= 0.0 then (x * q + 0.5).Floor else -((-x * q + 0.5).Floor);
    assert x >= 0.0 ==> x * q - 0.5 < k as real <= x * q + 0.5;
    assert x < 0.0 ==> x * q - 0.5 <= k as real < x * q + 0.5;
    HalfUnitBounds(x, k as real, q);
    StepsOnGrid(k, n);
    k as real / q
  }

  /** HALF_UP rounding is the only value the contract of RoundHalfUp allows:
      one grid point lies in each half-open interval of one step. */
  lemma RoundHalfUpUnique(x: real, n: nat, r: real)
    requires OnGrid(r, n)
    requires x >= 0.0 ==> x - 1.0 / (2.0 * Pow10(n) as real) < r <= x + 1.0 / (2.0 * Pow10(n) as real)
    requires x < 0.0 ==> x - 1.0 / (2.0 * Pow10(n) as real) <= r < x + 1.0 / (2.0 * Pow10(n) as real)
    ensures r == RoundHalfUp(x, n)
  {
    GridUnique(x, n, r, RoundHalfUp(x, n));
  }

  lemma GridUnique(x: real, n: nat, r: real, r0: real)
    requires OnGrid(r, n) && OnGrid(r0, n)
    requires x >= 0.0 ==> x - 1.0 / (2.0 * Pow10(n) as real) < r <= x + 1.0 / (2.0 * Pow10(n) as real)
    requires x < 0.0 ==> x - 1.0 / (2.0 * Pow10(n) as real) <= r < x + 1.0 / (2.0 * Pow10(n) as real)
    requires x >= 0.0 ==> x - 1.0 / (2.0 * Pow10(n) as real) < r0 <= x + 1.0 / (2.0 * Pow10(n) as real)
    requires x < 0.0 ==> x - 1.0 / (2.0 * Pow10(n) as real) <= r0 < x + 1.0 / (2.0 * Pow10(n) as real)
    ensures r == r0
  {
    var a := GridUnits(r, n);
    var b := GridUnits(r0, n);
    GridPointUnique(x, Pow10(n) as real, r, r0, a, b);
  }

  /** Two whole numbers of steps of 1 / q within half a step of x, ties going
      away from zero, are the same value. */
  lemma GridPointUnique(x: real, q: real, r: real, r0: real, a: int, b: int)
    requires q >= 1.0 && a as real == r * q && b as real == r0 * q
    requires x >= 0.0 ==> x - 1.0 / (2.0 * q) < r <= x + 1.0 / (2.0 * q)
    requires x < 0.0 ==> x - 1.0 / (2.0 * q) <= r < x + 1.0 / (2.0 * q)
    requires x >= 0.0 ==> x - 1.0 / (2.0 * q) < r0 <= x + 1.0 / (2.0 * q)
    requires x < 0.0 ==> x - 1.0 / (2.0 * q) <= r0 < x + 1.0 / (2.0 * q)
    ensures r == r0
  {
    ScaleBounds(x, r, q);
    ScaleBounds(x, r0, q);
    OneUnitApart(a, b, x * q);
    Unscale(r, a, q);
    Unscale(r0, b, q);
  }

  /** A value on the grid is a whole number of steps. */
  lemma GridUnits(r: real, n: nat) returns (a: int)
    requires OnGrid(r, n)
    ensures a as real == r * Pow10(n) as real
  {
    a := (r * Pow10(n) as real).Floor;
  }

  /** Two integers within half a unit of y on the same side of a tie are equal. */
  lemma OneUnitApart(a: int, b: int, y: real)
    requires y - 0.5 <= a as real <= y + 0.5 && y - 0.5 <= b as real <= y + 0.5
    requires (y - 0.5 < a as real && y - 0.5 < b as real) || (a as real < y + 0.5 && b as real < y + 0.5)
    ensures a == b
  {
  }

  /** Multiplying by q > 0 turns half a step of 1 / q around x into half a unit around x * q. */
  lemma ScaleBounds(x: real, r: real, q: real)
    requires q >= 1.0
    ensures x - 1.0 / (2.0 * q) < r ==> x * q - 0.5 < r * q
    ensures x - 1.0 / (2.0 * q) <= r ==> x * q - 0.5 <= r * q
    ensures r <= x + 1.0 / (2.0 * q) ==> r * q <= x * q + 0.5
    ensures r < x + 1.0 / (2.0 * q) ==> r * q < x * q + 0.5
  {
    var h := 1.0 / (2.0 * q);
    assert h * q == 0.5;
    assert r * q - x * q == (r - x) * q;
    MulMonotone(-h, r - x, q);
    MulMonotone(r - x, h, q);
  }

  lemma MulMonotone(a: real, b: real, q: real)
    requires q > 0.0
    ensures a < b ==> a * q < b * q
    ensures a <= b ==> a * q <= b * q
  {
  }

  lemma Unscale(r: real, a: int, q: real)
    requires q >= 1.0 && r * q == a as real
    ensures r == a as real / q
  {
  }

  /** Dividing a bound on k by q > 0 bounds k / q by x and half a step of 1 / q. */
  lemma HalfUnitBounds(x: real, k: real, q: real)
    requires q >= 1.0
    ensures (k / q) * q == k
    ensures x * q - 0.5 < k ==> x - 1.0 / (2.0 * q) < k / q
    ensures x * q - 0.5 <= k ==> x - 1.0 / (2.0 * q) <= k / q
    ensures k <= x * q + 0.5 ==> k / q <= x + 1.0 / (2.0 * q)
    ensures k < x * q + 0.5 ==> k / q < x + 1.0 / (2.0 * q)
  {
    assert 1.0 / (2.0 * q) == 0.5 / q;
    assert x - 0.5 / q == (x * q - 0.5) / q;
    assert x + 0.5 / q == (x * q + 0.5) / q;
  }

  /** (target - price) / price at scale 6, times 100, at scale 2; no potential
      without a non-zero price. */
  function Potential(target: real, price: Option<real>): (p: Option<real>)
    ensures p.None? <==> price.None? || price.value == 0.0
  {
    if price.Some? && price.value != 0.0 then
      Some(RoundHalfUp(RoundHalfUp((target - price.value) / price.value, 6) * 100.0, 2))
    else None
  }

  function Of(v: Valuation, price: Option<real>): (s: ValuationSummary)
    ensures s.id == v.id && s.market == v.market && s.code == v.code && s.date == v.date
    ensures s.consensus == v.consensus && s.buy == v.buy && s.hold == v.hold
    ensures s.sell == v.sell && s.target == v.target && s.price == price
    ensures s.potential.None? <==> price.None? || price.value == 0.0
  {
    ValuationSummary(v.id, v.market, v.code, v.date, v.consensus, v.buy, v.hold, v.sell,
      v.target, price, Potential(v.target, price))
  }

  /** The potential lies within 0.00505 of the exact percentage. */
  lemma PotentialError(target: real, price: real)
    requires price != 0.0
    ensures var exact := (target - price) / price * 100.0;
      -0.00505 <= Potential(target, Some(price)).value - exact <= 0.00505
  {
    var x := (target - price) / price;
    var r6 := RoundHalfUp(x, 6);
    assert Pow10(6) == 1000000 && Pow10(2) == 100;
    assert -0.0000005 <= r6 - x <= 0.0000005;
    var r2 := RoundHalfUp(r6 * 100.0, 2);
    assert -0.005 <= r2 - r6 * 100.0 <= 0.005;
  }

  /** A target of 105.5 against a price of 100 is a potential of 5.5 percent. */
  lemma PotentialExample()
    ensures Potential(105.5, Some(100.0)) == Some(5.5)
  {
    assert Pow10(6) == 1000000 && Pow10(2) == 100;
    assert (105.5 - 100.0) / 100.0 == 0.055;
    assert (0.055 * 1000000.0 + 0.5).Floor == 55000;
    assert (5.5 * 100.0 + 0.5).Floor == 550;
  }
}
