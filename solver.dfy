/**
 * The required-blend solver `saf_for_year`: the SAF ratio at which the mixer's
 * CO2e meets the target of a given year, capped at 1 and not bounded below.
 *
 * As in data.py, the target is the hard-coded curve `co2_for_year`
 * (`Trajectory.Co2ForYear`). `SafForYearCorrected` is the same solver against
 * the exact fitted curve `Trajectory.Co2Target`.
 */
module Solver {
  import opened Pathways
  import opened Trajectory
  import opened Mixer

  /** The ratio at which CO2e with SAF coefficient `k` equals `target`: the mixer's CO2e formula solved for the ratio. */
  function Invert(fuel: real, target: real, k: real): (r: real)
    requires fuel != 0.0 && k != JetA1Intensity
    ensures Co2(fuel, k, r) == target
  {
    (target / fuel - JetA1Intensity) / (k - JetA1Intensity)
  }

  /** `Invert` is the exact inverse of the mixer: a ratio meets the target if and only if it is the inverted one. */
  lemma {:induction false} InvertIsInverse(fuel: real, target: real, k: real, r: real)
    requires fuel != 0.0 && k != JetA1Intensity
    ensures Co2(fuel, k, r) == target <==> r == Invert(fuel, target, k)
  {
    var d := k - JetA1Intensity;
    var u := Invert(fuel, target, k);
    assert Co2(fuel, k, r) == fuel * (JetA1Intensity + d * r);
    assert fuel * (JetA1Intensity + d * u) == target;
    if Co2(fuel, k, r) == target {
      assert fuel * (JetA1Intensity + d * r) == fuel * (JetA1Intensity + d * u);
      assert d * r == d * u;
    }
  }

  /** For a pathway cleaner than Jet-A1, a lower target needs a strictly higher ratio. */
  lemma {:induction false} InvertAntitone(fuel: real, lo: real, hi: real, k: real)
    requires fuel > 0.0 && k < JetA1Intensity && lo < hi
    ensures Invert(fuel, hi, k) < Invert(fuel, lo, k)
  {
    var ul, uh := Invert(fuel, lo, k), Invert(fuel, hi, k);
    if ul <= uh {
      if ul < uh {
        Co2Monotone(fuel, k, ul, uh);
      }
      assert false;
    }
  }

  /** The ratio needed in `year` before the cap, against the hard-coded curve. */
  function UnclampedRatio(fuel: real, year: int, k: real): real
    requires fuel > 0.0 && k != JetA1Intensity
  {
    Invert(fuel, Co2ForYear(year), k)
  }

  /**
   * `saf_for_year`: the inverted ratio, capped from above at 1. The result
   * never exceeds 1, is 1 exactly when the uncapped ratio reaches 1, and is
   * otherwise the uncapped ratio itself, negative values included.
   */
  function SafForYear(fuel: real, year: int, k: real): (r: real)
    requires fuel > 0.0 && k != JetA1Intensity
    ensures r <= 1.0
    ensures r == 1.0 <==> UnclampedRatio(fuel, year, k) >= 1.0
    ensures r < 1.0 ==> r == UnclampedRatio(fuel, year, k)
  {
    var ratio := UnclampedRatio(fuel, year, k);
    if ratio < 1.0 then ratio else 1.0
  }

  /** Round trip: when the cap does not apply, blending at the returned ratio meets `co2_for_year` exactly. */
  lemma {:induction false} SafForYearRoundTrip(fuel: real, year: int, k: real)
    requires fuel > 0.0 && k != JetA1Intensity
    requires UnclampedRatio(fuel, year, k) < 1.0
    ensures Co2(fuel, k, SafForYear(fuel, year, k)) == Co2ForYear(year)
  {
    InvertIsInverse(fuel, Co2ForYear(year), k, SafForYear(fuel, year, k));
  }

  /**
   * When the cap applies to a cleaner-than-fossil pathway, even pure SAF
   * emits more than the target: the pathway cannot meet it alone.
   */
  lemma {:induction false} CappedMeansShortfall(fuel: real, year: int, k: real)
    requires fuel > 0.0 && k < JetA1Intensity
    requires UnclampedRatio(fuel, year, k) > 1.0
    ensures SafForYear(fuel, year, k) == 1.0
    ensures Co2(fuel, k, SafForYear(fuel, year, k)) > Co2ForYear(year)
  {
    var u := UnclampedRatio(fuel, year, k);
    InvertIsInverse(fuel, Co2ForYear(year), k, u);
    Co2Monotone(fuel, k, 1.0, u);
  }

  /**
   * There is no lower cap: for a cleaner-than-fossil pathway the result is
   * negative exactly when the target is above what pure Jet-A1 emits.
   */
  lemma {:induction false} NegativeWhenAlreadyMet(fuel: real, year: int, k: real)
    requires fuel > 0.0 && k < JetA1Intensity
    ensures SafForYear(fuel, year, k) < 0.0 <==> Co2ForYear(year) > fuel * JetA1Intensity
  {
    var t := Co2ForYear(year);
    var u := UnclampedRatio(fuel, year, k);
    InvertIsInverse(fuel, t, k, u);
    Co2Endpoints(fuel, k);
    if u < 0.0 {
      Co2Monotone(fuel, k, u, 0.0);
    } else if u > 0.0 {
      Co2Monotone(fuel, k, 0.0, u);
    }
  }

  /**
   * Over the planning span, for a pathway cleaner than Jet-A1, the required
   * ratio never decreases from one year to the next, since the target falls.
   */
  lemma {:induction false} RequiredRatioGrows(fuel: real, x: int, y: int, k: real)
    requires fuel > 0.0 && k < JetA1Intensity && 2025 <= x < y <= 2070
    ensures UnclampedRatio(fuel, x, k) < UnclampedRatio(fuel, y, k)
    ensures SafForYear(fuel, x, k) <= SafForYear(fuel, y, k)
  {
    TargetDecreasing(x, y);
    InvertAntitone(fuel, Co2ForYear(y), Co2ForYear(x), k);
  }

  /**
   * The solver against the exact fitted curve: the same inversion and cap,
   * with `Co2Target` in place of the hard-coded curve.
   */
  function SafForYearCorrected(fuel: real, year: int, k: real): (r: real)
    requires fuel > 0.0 && k != JetA1Intensity
    ensures r <= 1.0
    ensures r == 1.0 <==> Invert(fuel, Co2Target(year), k) >= 1.0
    ensures r < 1.0 ==> Co2(fuel, k, r) == Co2Target(year)
  {
    var ratio := Invert(fuel, Co2Target(year), k);
    if ratio < 1.0 then ratio else 1.0
  }

  /**
   * Over the planning span the hard-coded curve asks a cleaner-than-fossil
   * pathway for strictly less SAF than the exact curve whenever the cap does
   * not apply, because it lies about 2.25 kg above it.
   */
  lemma {:induction false} CorrectionRaisesRatio(fuel: real, year: int, k: real)
    requires fuel > 0.0 && k < JetA1Intensity && 2025 <= year <= 2070
    requires UnclampedRatio(fuel, year, k) < 1.0
    ensures SafForYear(fuel, year, k) < SafForYearCorrected(fuel, year, k)
  {
    InvertAntitone(fuel, Co2Target(year), Co2ForYear(year), k);
  }
}
