/**
 * The record lists behind the dashboard's three charts.
 *
 * `safplot` and `costplot` sweep the blend ratio over 0, 0.01, ..., 1 and, for
 * each ratio, append one record per pathway in the order HEFA,
 * Gas-to-Liquid, Alcohol-to-Jet, Synthetic. `saf_ratio_over_time_plot`
 * sweeps the years 2025..2070 and, for each year, appends the required blend
 * of each pathway of its dictionary, skipping coefficients within 0.01 of
 * Jet-A1's. The first two use one loop over the grid with four appends per
 * point; the third nests a loop over the dictionary inside a loop over the
 * years. The methods here keep those loop shapes.
 */
module Sweeps {
  import opened Pathways
  import opened Trajectory
  import opened Mixer
  import opened Solver

  /** One point of the ratio charts: blend percentage, pathway name, and CO2e or cost. */
  datatype SweepRecord = SweepRecord(percentage: real, safType: string, value: real)

  /** One point of the trajectory chart: year, pathway name and required blend in percent. */
  datatype RatioRecord = RatioRecord(year: int, safType: string, requiredPercent: real)

  /** Number of points of the ratio grid 0, 0.01, ..., 1. */
  const GridPoints: int := 101

  /** The i-th point of the ratio grid. */
  function GridRatio(i: int): real {
    i as real / 100.0
  }

  /** The j-th record of a ratio sweep: grid point j / 4, pathway j % 4 of the sweep order. */
  function RatioRow(fuel: real, cost: bool, j: int): SweepRecord {
    var r := GridRatio(j / 4);
    var p := SafTypes[j % 4];
    SweepRecord(r * 100.0, p.name, Blend(p, fuel, r, cost))
  }

  /**
   * The record list of `safplot` (cost = false: CO2e) or `costplot`
   * (cost = true: cost): 101 grid points times 4 pathways, ratio-major, each
   * record computed by that pathway's mixer function.
   */
  method RatioSweep(fuel: real, cost: bool) returns (data: seq<SweepRecord>)
    ensures |data| == 4 * GridPoints
    ensures forall j :: 0 <= j < |data| ==> data[j] == RatioRow(fuel, cost, j)
  {
    data := [];
    for i := 0 to GridPoints
      invariant |data| == 4 * i
      invariant forall j :: 0 <= j < |data| ==> data[j] == RatioRow(fuel, cost, j)
    {
      var r := GridRatio(i);
      GridPointRows(fuel, cost, i);
      ghost var before := data;
      data := data + [SweepRecord(r * 100.0, "HEFA", Hefa(fuel, r, cost))];
      data := data + [SweepRecord(r * 100.0, "Gas-to-Liquid", Gas(fuel, r, cost))];
      data := data + [SweepRecord(r * 100.0, "Alcohol-to-Jet", Alc(fuel, r, cost))];
      data := data + [SweepRecord(r * 100.0, "Synthetic", Syn(fuel, r, cost))];
      assert data == before + [RatioRow(fuel, cost, 4 * i), RatioRow(fuel, cost, 4 * i + 1),
                               RatioRow(fuel, cost, 4 * i + 2), RatioRow(fuel, cost, 4 * i + 3)];
    }
  }

  /** The four records of grid point i are the four pathway functions at that ratio, in sweep order. */
  lemma {:induction false} GridPointRows(fuel: real, cost: bool, i: int)
    requires 0 <= i
    ensures RatioRow(fuel, cost, 4 * i) == SweepRecord(GridRatio(i) * 100.0, "HEFA", Hefa(fuel, GridRatio(i), cost))
    ensures RatioRow(fuel, cost, 4 * i + 1)
      == SweepRecord(GridRatio(i) * 100.0, "Gas-to-Liquid", Gas(fuel, GridRatio(i), cost))
    ensures RatioRow(fuel, cost, 4 * i + 2)
      == SweepRecord(GridRatio(i) * 100.0, "Alcohol-to-Jet", Alc(fuel, GridRatio(i), cost))
    ensures RatioRow(fuel, cost, 4 * i + 3)
      == SweepRecord(GridRatio(i) * 100.0, "Synthetic", Syn(fuel, GridRatio(i), cost))
  {
    assert (4 * i) / 4 == i && (4 * i) % 4 == 0;
    assert (4 * i + 1) / 4 == i && (4 * i + 1) % 4 == 1;
    assert (4 * i + 2) / 4 == i && (4 * i + 2) % 4 == 2;
    assert (4 * i + 3) / 4 == i && (4 * i + 3) % 4 == 3;
  }

  /**
   * The CO2e chart starts every pathway at pure Jet-A1 (0 percent) and ends it
   * at pure SAF (100 percent).
   */
  lemma {:induction false} RatioRowEndpoints(fuel: real, m: int)
    requires 0 <= m < 4
    ensures RatioRow(fuel, false, m) == SweepRecord(0.0, SafTypes[m].name, fuel * JetA1Intensity)
    ensures RatioRow(fuel, false, 400 + m) == SweepRecord(100.0, SafTypes[m].name, fuel * SafTypes[m].intensity)
  {
    Co2Endpoints(fuel, SafTypes[m].intensity);
    assert (400 + m) / 4 == 100 && (400 + m) % 4 == m;
  }

  /**
   * Within one pathway's series of the CO2e chart, a later record has a higher
   * percentage and strictly lower CO2e.
   */
  lemma {:induction false} RatioSeriesDecreasing(fuel: real, j: int, j': int)
    requires fuel > 0.0 && 0 <= j < j' && j % 4 == j' % 4
    ensures RatioRow(fuel, false, j).safType == RatioRow(fuel, false, j').safType
    ensures RatioRow(fuel, false, j).percentage < RatioRow(fuel, false, j').percentage
    ensures RatioRow(fuel, false, j').value < RatioRow(fuel, false, j).value
  {
    assert j / 4 < j' / 4;
    RegisteredPathwaysDecrease(fuel, j % 4, GridRatio(j / 4), GridRatio(j' / 4));
  }

  /** Whether the trajectory sweep keeps a coefficient: it skips those within 0.01 of Jet-A1's. */
  predicate Kept(coef: real)
    ensures Kept(coef) <==> coef <= 3.83 || 3.85 <= coef
    ensures Kept(coef) ==> coef != JetA1Intensity
  {
    !(Abs(coef - JetA1Intensity) < 0.01)
  }

  function Abs(x: real): real {
    if x < 0.0 then -x else x
  }

  /** The entries of a name-to-coefficient dictionary the trajectory sweep keeps, in order. */
  function KeptTypes(types: seq<(string, real)>): seq<(string, real)> {
    if types == [] then []
    else
      var prev := KeptTypes(types[..|types| - 1]);
      if Kept(types[|types| - 1].1) then prev + [types[|types| - 1]] else prev
  }

  /** The record for one year and one kept dictionary entry. */
  function TrajectoryRow(fuel: real, year: int, t: (string, real)): RatioRecord
    requires fuel > 0.0 && Kept(t.1)
  {
    RatioRecord(year, t.0, SafForYear(fuel, year, t.1) * 100.0)
  }

  /** The records one year contributes: one per dictionary entry, skipped entries left out. */
  function YearRows(fuel: real, year: int, types: seq<(string, real)>): seq<RatioRecord>
    requires fuel > 0.0
  {
    if types == [] then []
    else
      var prev := YearRows(fuel, year, types[..|types| - 1]);
      var t := types[|types| - 1];
      if Kept(t.1) then prev + [TrajectoryRow(fuel, year, t)] else prev
  }

  /** The records of the years first..last-1, year-major. */
  function TrajectoryRows(fuel: real, first: int, last: int, types: seq<(string, real)>): seq<RatioRecord>
    requires fuel > 0.0
    decreases last - first
  {
    if last <= first then []
    else TrajectoryRows(fuel, first, last - 1, types) + YearRows(fuel, last - 1, types)
  }

  /** First year of the trajectory sweep, `range(2025, 2071)`. */
  const FirstYear: int := 2025

  /** One past the last year of the trajectory sweep. */
  const EndYear: int := 2071

  /**
   * The record list of `saf_ratio_over_time_plot`: for each year from 2025 to
   * 2070 and each entry of the dictionary, the required blend in percent; none
   * of the four coefficients is skipped, so there are 46 * 4 records, the
   * j-th for year 2025 + j / 4 and dictionary entry j % 4.
   */
  method SafRatioOverTime(fuel: real) returns (data: seq<RatioRecord>)
    requires fuel > 0.0
    ensures data == TrajectoryRows(fuel, FirstYear, EndYear, SafTypeCoefficients)
    ensures |data| == 184
    ensures forall j :: 0 <= j < |data| ==>
      Kept(SafTypeCoefficients[j % 4].1) &&
      data[j] == TrajectoryRow(fuel, FirstYear + j / 4, SafTypeCoefficients[j % 4])
  {
    var types := SafTypeCoefficients;
    data := [];
    for year := FirstYear to EndYear
      invariant data == TrajectoryRows(fuel, FirstYear, year, types)
    {
      ghost var before := data;
      for t := 0 to |types|
        invariant data == before + YearRows(fuel, year, types[..t])
      {
        var (name, coef) := types[t];
        assert types[..t + 1][..t] == types[..t];
        if Abs(coef - JetA1Intensity) < 0.01 {
          continue;
        }
        var ratio := SafForYear(fuel, year, coef);
        data := data + [RatioRecord(year, name, ratio * 100.0)];
      }
      assert types[..|types|] == types;
    }
    SafRatioOverTimeRows(fuel, EndYear);
  }

  /** One year of the dictionary sweep: all four entries are kept, in dictionary order. */
  lemma {:induction false} DictionaryYearRows(fuel: real, y: int)
    requires fuel > 0.0
    ensures forall i :: 0 <= i < 4 ==> Kept(SafTypeCoefficients[i].1)
    ensures YearRows(fuel, y, SafTypeCoefficients)
      == [TrajectoryRow(fuel, y, SafTypeCoefficients[0]), TrajectoryRow(fuel, y, SafTypeCoefficients[1]),
          TrajectoryRow(fuel, y, SafTypeCoefficients[2]), TrajectoryRow(fuel, y, SafTypeCoefficients[3])]
  {
    var types := SafTypeCoefficients;
    assert types[..4][..3] == types[..3] && types[..3][..2] == types[..2];
    assert types[..2][..1] == types[..1] && types[..1][..0] == [] && types[..4] == types;
    assert YearRows(fuel, y, types[..1]) == [TrajectoryRow(fuel, y, types[0])];
    assert YearRows(fuel, y, types[..2]) == [TrajectoryRow(fuel, y, types[0]), TrajectoryRow(fuel, y, types[1])];
    assert YearRows(fuel, y, types[..3]) == [TrajectoryRow(fuel, y, types[0]), TrajectoryRow(fuel, y, types[1]),
                                             TrajectoryRow(fuel, y, types[2])];
  }

  /** The dictionary sweep, year by year: 4 records per year, in dictionary order, none skipped. */
  lemma {:induction false} SafRatioOverTimeRows(fuel: real, last: int)
    requires fuel > 0.0 && FirstYear <= last
    ensures |TrajectoryRows(fuel, FirstYear, last, SafTypeCoefficients)| == 4 * (last - FirstYear)
    ensures forall j :: 0 <= j < 4 * (last - FirstYear) ==>
      Kept(SafTypeCoefficients[j % 4].1) &&
      TrajectoryRows(fuel, FirstYear, last, SafTypeCoefficients)[j]
        == TrajectoryRow(fuel, FirstYear + j / 4, SafTypeCoefficients[j % 4])
    decreases last - FirstYear
  {
    var types := SafTypeCoefficients;
    if last > FirstYear {
      SafRatioOverTimeRows(fuel, last - 1);
      var rows := TrajectoryRows(fuel, FirstYear, last, types);
      var prev := TrajectoryRows(fuel, FirstYear, last - 1, types);
      var y := last - 1;
      DictionaryYearRows(fuel, y);
      assert rows == prev + YearRows(fuel, y, types);
      forall j | 0 <= j < 4 * (last - FirstYear)
        ensures Kept(types[j % 4].1) && rows[j] == TrajectoryRow(fuel, FirstYear + j / 4, types[j % 4])
      {
        if j >= 4 * (y - FirstYear) {
          assert j / 4 == y - FirstYear;
        }
      }
    }
  }

  /** Every kept entry is far enough from Jet-A1's coefficient for the solver's division, and every entry that is far enough is kept. */
  lemma {:induction false} KeptTypesSound(types: seq<(string, real)>)
    ensures forall i :: 0 <= i < |KeptTypes(types)| ==>
      KeptTypes(types)[i] in types && Kept(KeptTypes(types)[i].1) && KeptTypes(types)[i].1 != JetA1Intensity
    ensures forall t :: t in types && Kept(t.1) ==> t in KeptTypes(types)
    ensures (forall t :: t in types ==> Kept(t.1)) ==> KeptTypes(types) == types
  {
    if types != [] {
      var init := types[..|types| - 1];
      KeptTypesSound(init);
      assert types == init + [types[|types| - 1]];
    }
  }

  /** One year's records are the kept entries, in order, each with that year and its required blend. */
  lemma {:induction false} YearRowsAreKept(fuel: real, year: int, types: seq<(string, real)>)
    requires fuel > 0.0
    ensures |YearRows(fuel, year, types)| == |KeptTypes(types)|
    ensures forall i :: 0 <= i < |KeptTypes(types)| ==>
      Kept(KeptTypes(types)[i].1) &&
      YearRows(fuel, year, types)[i] == TrajectoryRow(fuel, year, KeptTypes(types)[i])
  {
    if types != [] {
      YearRowsAreKept(fuel, year, types[..|types| - 1]);
    }
  }

  /** The names of the entries the trajectory sweep keeps. */
  function KeptNames(types: seq<(string, real)>): set<string> {
    set t | t in KeptTypes(types) :: t.0
  }

  /** The trajectory sweep over any dictionary has as many records per year as entries kept. */
  lemma {:induction false} TrajectoryRowsLength(fuel: real, first: int, last: int, types: seq<(string, real)>)
    requires fuel > 0.0 && first <= last
    ensures |TrajectoryRows(fuel, first, last, types)| == (last - first) * |KeptTypes(types)|
    decreases last - first
  {
    if last > first {
      TrajectoryRowsLength(fuel, first, last - 1, types);
      YearRowsAreKept(fuel, last - 1, types);
      var n := |KeptTypes(types)|;
      assert (last - first) * n == (last - 1 - first) * n + n;
    }
  }

  /**
   * The trajectory sweep over any dictionary is year-major: every record's year
   * lies in the range and years never go down along the list.
   */
  lemma {:induction false} TrajectoryRowsYearMajor(fuel: real, first: int, last: int, types: seq<(string, real)>)
    requires fuel > 0.0
    ensures forall i :: 0 <= i < |TrajectoryRows(fuel, first, last, types)| ==>
      first <= TrajectoryRows(fuel, first, last, types)[i].year < last
    ensures forall i, j :: 0 <= i < j < |TrajectoryRows(fuel, first, last, types)| ==>
      TrajectoryRows(fuel, first, last, types)[i].year <= TrajectoryRows(fuel, first, last, types)[j].year
    decreases last - first
  {
    if last > first {
      TrajectoryRowsYearMajor(fuel, first, last - 1, types);
      YearRowsAreKept(fuel, last - 1, types);
      var prev := TrajectoryRows(fuel, first, last - 1, types);
      var block := YearRows(fuel, last - 1, types);
      assert TrajectoryRows(fuel, first, last, types) == prev + block;
      assert forall i :: 0 <= i < |block| ==> block[i].year == last - 1;
    }
  }

  /**
   * No record of the trajectory sweep comes from a skipped coefficient, and no
   * required blend in it exceeds 100 percent.
   */
  lemma {:induction false} TrajectoryRowsFromKept(fuel: real, first: int, last: int, types: seq<(string, real)>)
    requires fuel > 0.0
    ensures forall i :: 0 <= i < |TrajectoryRows(fuel, first, last, types)| ==>
      TrajectoryRows(fuel, first, last, types)[i].safType in KeptNames(types) &&
      TrajectoryRows(fuel, first, last, types)[i].requiredPercent <= 100.0
    decreases last - first
  {
    if last > first {
      TrajectoryRowsFromKept(fuel, first, last - 1, types);
      YearRowsAreKept(fuel, last - 1, types);
      var prev := TrajectoryRows(fuel, first, last - 1, types);
      var block := YearRows(fuel, last - 1, types);
      var kept := KeptTypes(types);
      assert TrajectoryRows(fuel, first, last, types) == prev + block;
      forall i | 0 <= i < |block|
        ensures block[i].safType in KeptNames(types) && block[i].requiredPercent <= 100.0
      {
        assert kept[i] in kept;
      }
    }
  }
}
