/**
 * The emissions target trajectory.
 *
 * smp.py fits a quadratic a*x^2 + b*x + c through three (year, kg CO2e)
 * anchors: the 2025 baseline, half of it in 2050 and zero in 2070. data.py's
 * `co2_for_year` hard-codes coefficients copied from that fit. This module
 * models the fit as an exact three-point solve, proves the closed form of its
 * solution, and compares the hard-coded curve with it.
 */
module Trajectory {

  datatype Option<T> = None | Some(value: T)

  /** The polynomial a*x^2 + b*x + c. */
  datatype Quadratic = Quadratic(a: real, b: real, c: real) {
    function At(x: real): real {
      a * x * x + b * x + c
    }
  }

  /** A point the curve must pass through: target `value` kg CO2e in `year`. */
  datatype Anchor = Anchor(year: int, value: real)

  /** Annual CO2e of the 2025 fleet in kg, the value of the first anchor. */
  const Baseline: real := 621765841.0

  const Anchor2025: Anchor := Anchor(2025, Baseline)
  const Anchor2050: Anchor := Anchor(2050, Baseline / 2.0)
  const Anchor2070: Anchor := Anchor(2070, 0.0)

  predicate PassesThrough(q: Quadratic, p: Anchor) {
    q.At(p.year as real) == p.value
  }

  predicate DistinctYears(p: Anchor, q: Anchor, s: Anchor) {
    p.year != q.year && q.year != s.year && p.year != s.year
  }

  /**
   * Solves the three equations a*y_i^2 + b*y_i + c = v_i by divided
   * differences. A system whose anchor years are not pairwise distinct is
   * singular and has no unique solution: the result is then None.
   */
  function FitThrough(p: Anchor, q: Anchor, s: Anchor): (fit: Option<Quadratic>)
    ensures fit.Some? <==> DistinctYears(p, q, s)
  {
    if !DistinctYears(p, q, s) then None
    else
      var x1, x2, x3 := p.year as real, q.year as real, s.year as real;
      var d1 := (q.value - p.value) / (x2 - x1);
      var d2 := (s.value - q.value) / (x3 - x2);
      var a := (d2 - d1) / (x3 - x1);
      var b := d1 - a * (x1 + x2);
      Some(Quadratic(a, b, p.value - a * x1 * x1 - b * x1))
  }

  /** The difference of a quadratic at two points factors through y - x. */
  lemma Difference(q: Quadratic, x: real, y: real)
    ensures q.At(y) - q.At(x) == (y - x) * (q.a * (x + y) + q.b)
  {
    assert y * y - x * x == (y - x) * (x + y);
  }

  /** Whenever the anchor years are distinct, the fitted curve meets all three anchors. */
  lemma {:induction false} FitMeetsAnchors(p: Anchor, q: Anchor, s: Anchor)
    requires DistinctYears(p, q, s)
    ensures PassesThrough(FitThrough(p, q, s).value, p)
    ensures PassesThrough(FitThrough(p, q, s).value, q)
    ensures PassesThrough(FitThrough(p, q, s).value, s)
  {
    var f := FitThrough(p, q, s).value;
    var x1, x2, x3 := p.year as real, q.year as real, s.year as real;
    var d1 := (q.value - p.value) / (x2 - x1);
    var d2 := (s.value - q.value) / (x3 - x2);
    assert f.a == (d2 - d1) / (x3 - x1);
    assert f.b == d1 - f.a * (x1 + x2);
    assert f.At(x1) == p.value;
    Difference(f, x1, x2);
    assert f.a * (x1 + x2) + f.b == d1;
    assert (x2 - x1) * d1 == q.value - p.value;
    assert f.At(x2) == q.value;
    Difference(f, x2, x3);
    assert f.a * (x2 + x3) + f.b == f.a * (x3 - x1) + d1;
    assert f.a * (x3 - x1) == d2 - d1;
    assert f.a * (x2 + x3) + f.b == d2;
    assert (x3 - x2) * d2 == s.value - q.value;
    assert f.At(x3) - f.At(x2) == s.value - q.value;
    assert f.At(x3) == s.value;
  }

  /** A quadratic that vanishes at three distinct points is the zero polynomial. */
  lemma {:induction false} ThreeRootsVanish(d: Quadratic, x1: real, x2: real, x3: real)
    requires x1 != x2 && x2 != x3 && x1 != x3
    requires d.At(x1) == 0.0 && d.At(x2) == 0.0 && d.At(x3) == 0.0
    ensures d == Quadratic(0.0, 0.0, 0.0)
  {
    Difference(d, x1, x2);
    Difference(d, x2, x3);
    assert (x2 - x1) * (d.a * (x1 + x2) + d.b) == 0.0;
    assert d.a * (x1 + x2) + d.b == 0.0;
    assert (x3 - x2) * (d.a * (x2 + x3) + d.b) == 0.0;
    assert d.a * (x2 + x3) + d.b == 0.0;
    assert d.a * (x3 - x1) == 0.0;
    assert d.a == 0.0;
  }

  /** The fit is the only quadratic through three anchors with distinct years. */
  lemma {:induction false} FitUnique(f: Quadratic, p: Anchor, q: Anchor, s: Anchor)
    requires DistinctYears(p, q, s)
    requires PassesThrough(f, p) && PassesThrough(f, q) && PassesThrough(f, s)
    ensures FitThrough(p, q, s) == Some(f)
  {
    var g := FitThrough(p, q, s).value;
    FitMeetsAnchors(p, q, s);
    var d := Quadratic(f.a - g.a, f.b - g.b, f.c - g.c);
    forall x: real ensures d.At(x) == f.At(x) - g.At(x) {
      assert d.a * x * x == f.a * x * x - g.a * x * x;
    }
    ThreeRootsVanish(d, p.year as real, q.year as real, s.year as real);
  }

  /** The exact solution for the dashboard's anchors: a = -Y/9000, b = 779Y/1800, c = -1679Y/4 with Y the baseline. */
  const Fitted: Quadratic := Quadratic(-Baseline / 9000.0, 779.0 * Baseline / 1800.0, -1679.0 * Baseline / 4.0)

  /**
   * The three anchor equations have exactly the closed-form solution; it is a
   * concave parabola with its vertex at 1947.5, and the decimals printed by the
   * fit script agree with it.
   */
  lemma {:induction false} FitIsClosedForm()
    ensures FitThrough(Anchor2025, Anchor2050, Anchor2070) == Some(Fitted)
    ensures Fitted.a < 0.0 && -Fitted.b / (2.0 * Fitted.a) == 1947.5
    ensures -0.000000001 < Fitted.a - (-69085.0934444444) < 0.000000001
    ensures -0.000001 < Fitted.b - 269086438.966111 < 0.000001
    ensures Fitted.c == -260986211759.750
  {
    assert Fitted.At(2025.0) == Baseline;
    assert Fitted.At(2050.0) == Baseline / 2.0;
    assert Fitted.At(2070.0) == 0.0;
    FitUnique(Fitted, Anchor2025, Anchor2050, Anchor2070);
  }

  /** The coefficients hard-coded in data.py. */
  const AsWritten: Quadratic :=
    Quadratic(-621765841.0 / 9000.0, 177837343907630.0 / 660893.0, -1043944847030.0 / 4.0)

  /**
   * The target curve with the fitted coefficients: the exact trajectory
   * through the three anchors, which `co2_for_year` was evidently meant to be.
   */
  function Co2Target(year: int): (r: real)
    ensures year == 2025 ==> r == Baseline
    ensures year == 2050 ==> r == Baseline / 2.0
    ensures year == 2070 ==> r == 0.0
  {
    Fitted.At(year as real)
  }

  /**
   * `co2_for_year` as written. Its constant term is 9/4 above the fitted one
   * and its linear term is a rational approximation of the fitted one, so over
   * the anchor span it runs between 2.2497 and 2.25 kg above the exact curve.
   */
  function Co2ForYear(year: int): (r: real)
    ensures 1 <= year <= 2070 ==> Co2Target(year) + 2.2497 < r < Co2Target(year) + 2.25
  {
    (-621765841.0 / 9000.0) * (year as real) * (year as real)
      + (177837343907630.0 / 660893.0) * (year as real) - 1043944847030.0 / 4.0
  }

  /** The hard-coded a equals the fitted a; b and c differ from the fit by the stated amounts. */
  lemma AsWrittenCoefficients()
    ensures AsWritten.a == Fitted.a
    ensures AsWritten.b == Fitted.b - 127.0 / 1189607400.0
    ensures AsWritten.c == Fitted.c + 9.0 / 4.0
    ensures forall year: int :: Co2ForYear(year) == AsWritten.At(year as real)
  {
  }

  /** The hard-coded curve reproduces none of the anchors exactly: each is missed by 2.2497 to 2.25 kg. */
  lemma AsWrittenMissesAnchors()
    ensures 2.2497 < Co2ForYear(2025) - Anchor2025.value < 2.25
    ensures 2.2497 < Co2ForYear(2050) - Anchor2050.value < 2.25
    ensures 2.2497 < Co2ForYear(2070) - Anchor2070.value < 2.25
    ensures Co2ForYear(2070) != 0.0
  {
  }

  /** A concave quadratic whose vertex lies left of x + y decreases from x to y. */
  lemma {:induction false} DecreasingRightOfVertex(q: Quadratic, x: real, y: real)
    requires q.a < 0.0 && x < y
    requires q.a * (x + y) + q.b < 0.0
    ensures q.At(y) < q.At(x)
  {
    Difference(q, x, y);
    assert (y - x) * (q.a * (x + y) + q.b) < 0.0;
  }

  /**
   * The target strictly falls over every pair of years in the planning span
   * 2025..2070, for the exact fit and for the hard-coded curve alike, so each
   * later year asks for a lower emission level than 2025.
   */
  lemma {:induction false} TargetDecreasing(x: int, y: int)
    requires 2025 <= x < y <= 2070
    ensures Co2Target(y) < Co2Target(x)
    ensures Co2ForYear(y) < Co2ForYear(x)
    ensures Co2Target(y) < Baseline && Co2ForYear(y) < Co2ForYear(2025)
  {
    var s := (x + y) as real;
    assert 4051.0 <= s;
    assert Fitted.a * s <= Fitted.a * 4051.0;
    assert AsWritten.a == Fitted.a;
    DecreasingRightOfVertex(Fitted, x as real, y as real);
    DecreasingRightOfVertex(AsWritten, x as real, y as real);
    assert Co2ForYear(y) == AsWritten.At(y as real);
    assert Co2ForYear(x) == AsWritten.At(x as real);
    if x != 2025 {
      DecreasingRightOfVertex(Fitted, 2025.0, y as real);
      DecreasingRightOfVertex(AsWritten, 2025.0, y as real);
      assert Co2ForYear(2025) == AsWritten.At(2025.0);
    }
  }

  /** Over the planning span the exact target stays between zero and the 2025 baseline. */
  lemma {:induction false} TargetWithinBaseline(year: int)
    requires 2025 <= year <= 2070
    ensures 0.0 <= Co2Target(year) <= Baseline
  {
    if year < 2070 {
      TargetDecreasing(year, 2070);
    }
    if year > 2025 {
      TargetDecreasing(2025, year);
    }
  }
}
