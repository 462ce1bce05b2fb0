/** The computational body of `updateModel`: the start-year clamp, the
    forecast years, the doublings reached in each of them, the per-chemistry
    cost series, the merged timeline and the points plotted for it, and the
    percentage change shown on each summary card. */
module Forecast {
  import opened Basics
  import opened MathLaws
  import opened Chemistries
  import opened Adoption
  import opened Cost
  import opened History

  /** The four forecast controls, as read from their inputs. */
  datatype Controls = Controls(startYear: int, forecastYears: nat, totalDoublings: real, uptakeShape: string)

  /** The control values a reset restores. */
  const DefaultControls: Controls := Controls(2024, 12, 5.0, "linear")

  /** One plotted point: the year, the cost (or null) and whether the year
      belongs to the historical part of the chart. */
  datatype Point = Point(x: int, y: Option<real>, history: bool)

  /** A forecast can never start before the last historical year. */
  function EffectiveStart(startYear: int): (s: int)
    ensures HISTORY_END_YEAR <= s && startYear <= s
    ensures s == startYear || s == HISTORY_END_YEAR
  {
    if startYear < HISTORY_END_YEAR then HISTORY_END_YEAR else startYear
  }

  /** `Array.from({ length: years }, (_, i) => start + i)` */
  function ForecastYears(start: int, years: nat): seq<int>
  {
    seq(years, i requires 0 <= i < years => start + i)
  }

  /** The forecast years are `years` consecutive years from `start`. */
  lemma ForecastYearsSpec(start: int, years: nat)
    ensures |ForecastYears(start, years)| == years
    ensures forall i :: 0 <= i < years ==> ForecastYears(start, years)[i] == start + i
    ensures StrictlyAscending(ForecastYears(start, years))
    ensures forall y :: y in ForecastYears(start, years) <==> start <= y < start + years
  {
    var fy := ForecastYears(start, years);
    forall y | start <= y < start + years
      ensures y in fy
    {
      assert fy[y - start] == y;
    }
  }

  /** The adoption progress of each forecast step. */
  function Progresses(m: MathFns, years: nat, shape: string): seq<real>
    requires m.ExpLaws()
  {
    seq(years, i requires 0 <= i < years => AdoptionProgress(m, i, years, shape))
  }

  /** Every entry of `ps` multiplied by `total`. */
  function Scaled(ps: seq<real>, total: real): seq<real>
  {
    seq(|ps|, i requires 0 <= i < |ps| => ps[i] * total)
  }

  /** `doublingsByYear`: the adoption progress of each step, scaled to the
      total doublings. */
  function DoublingsByYear(m: MathFns, years: nat, shape: string, total: real): seq<real>
    requires m.ExpLaws()
  {
    Scaled(Progresses(m, years, shape), total)
  }

  ghost predicate NonDecreasing(s: seq<real>)
  {
    forall i, j :: 0 <= i <= j < |s| ==> s[i] <= s[j]
  }

  /** The progress of the forecast steps starts at 0, ends at 1, never
      decreases and stays within [0, 1]. */
  lemma {:induction false} ProgressesSpec(m: MathFns, years: nat, shape: string)
    requires m.Lawful()
    ensures |Progresses(m, years, shape)| == years
    ensures 2 <= years ==> Progresses(m, years, shape)[0] == 0.0
    ensures 1 <= years ==> Progresses(m, years, shape)[years - 1] == 1.0
    ensures NonDecreasing(Progresses(m, years, shape))
    ensures forall i :: 0 <= i < years ==> 0.0 <= Progresses(m, years, shape)[i] <= 1.0
  {
    var ps := Progresses(m, years, shape);
    if 2 <= years {
      ProgressEndpoints(m, years, shape);
    }
    forall i, j | 0 <= i <= j < years
      ensures ps[i] <= ps[j]
    {
      ProgressMonotone(m, i, j, years, shape);
    }
    forall i | 0 <= i < years
      ensures 0.0 <= ps[i] <= 1.0
    {
      ProgressInUnitInterval(m, i, years, shape);
    }
  }

  lemma ScaleMonotone(a: real, b: real, total: real)
    requires a <= b && 0.0 <= total
    ensures a * total <= b * total
  {
    ProductNonNegative(b - a, total);
  }

  lemma UnitScaled(p: real, total: real)
    requires 0.0 <= p <= 1.0 && 0.0 <= total
    ensures 0.0 <= p * total <= total
  {
    ProductNonNegative(p, total);
    ScaleMonotone(p, 1.0, total);
  }

  lemma ScaledPair(ps: seq<real>, total: real, i: int, j: int)
    requires 0.0 <= total && 0 <= i < |ps| && 0 <= j < |ps| && ps[i] <= ps[j]
    ensures Scaled(ps, total)[i] <= Scaled(ps, total)[j]
  {
    var a, b := ps[i], ps[j];
    ScaleMonotone(a, b, total);
    assert Scaled(ps, total)[i] == a * total;
    assert Scaled(ps, total)[j] == b * total;
  }

  /** Scaling by a non-negative total keeps the order of the entries, and
      maps entries in [0, 1] into [0, total]. */
  lemma ScaledSpec(ps: seq<real>, total: real)
    requires 0.0 <= total
    ensures NonDecreasing(ps) ==> NonDecreasing(Scaled(ps, total))
    ensures (forall i :: 0 <= i < |ps| ==> 0.0 <= ps[i] <= 1.0) ==>
              forall i :: 0 <= i < |ps| ==> 0.0 <= Scaled(ps, total)[i] <= total
  {
    var d := Scaled(ps, total);
    if NonDecreasing(ps) {
      forall i, j | 0 <= i <= j < |ps|
        ensures d[i] <= d[j]
      {
        ScaledPair(ps, total, i, j);
      }
    }
    if forall i :: 0 <= i < |ps| ==> 0.0 <= ps[i] <= 1.0 {
      forall i | 0 <= i < |ps|
        ensures 0.0 <= d[i] <= total
      {
        var a := ps[i];
        UnitScaled(a, total);
        assert d[i] == a * total;
      }
    }
  }

  /** Each forecast year's doublings: its adoption progress times the total. */
  lemma DoublingsAt(m: MathFns, years: nat, shape: string, total: real)
    requires m.ExpLaws()
    ensures |DoublingsByYear(m, years, shape, total)| == years
    ensures forall i :: 0 <= i < years ==>
              DoublingsByYear(m, years, shape, total)[i] == AdoptionProgress(m, i, years, shape) * total
  {
  }

  /** The doublings start at none, reach the total in the last year, never
      decrease in between and never leave [0, total]. */
  lemma {:induction false} DoublingsSpec(m: MathFns, years: nat, shape: string, total: real)
    requires m.Lawful() && 0.0 <= total
    ensures |DoublingsByYear(m, years, shape, total)| == years
    ensures 2 <= years ==> DoublingsByYear(m, years, shape, total)[0] == 0.0
    ensures 1 <= years ==> DoublingsByYear(m, years, shape, total)[years - 1] == total
    ensures NonDecreasing(DoublingsByYear(m, years, shape, total))
    ensures forall i :: 0 <= i < years ==>
              0.0 <= DoublingsByYear(m, years, shape, total)[i] <= total
  {
    ProgressesSpec(m, years, shape);
    ScaledSpec(Progresses(m, years, shape), total);
  }

  /** `doublingsByYear.map((d) => computeCost(chem, d))` */
  function CostSeries(m: MathFns, chem: Chemistry, doublings: seq<real>): seq<real>
  {
    seq(|doublings|, i requires 0 <= i < |doublings| => ComputeCost(m, chem, doublings[i]))
  }

  /** A chemistry's forecast costs are aligned with the forecast years, never
      below its floor and never rising; the first year costs the larger of
      baseline and floor, the last the cost at the total doublings, and a
      chemistry above its floor never exceeds its baseline. */
  lemma ForecastCostsSpec(m: MathFns, chem: Chemistry, years: nat, shape: string, total: real)
    requires m.Lawful() && 0.0 <= total
    ensures |CostSeries(m, chem, DoublingsByYear(m, years, shape, total))| == years
    ensures forall i :: 0 <= i < years ==>
              chem.floorCost <= CostSeries(m, chem, DoublingsByYear(m, years, shape, total))[i]
    ensures forall i, j :: 0 <= i <= j < years ==>
              CostSeries(m, chem, DoublingsByYear(m, years, shape, total))[j]
              <= CostSeries(m, chem, DoublingsByYear(m, years, shape, total))[i]
    ensures 2 <= years ==>
              CostSeries(m, chem, DoublingsByYear(m, years, shape, total))[0]
              == Max(chem.floorCost, chem.baselineCost)
    ensures 1 <= years ==>
              CostSeries(m, chem, DoublingsByYear(m, years, shape, total))[years - 1]
              == ComputeCost(m, chem, total)
    ensures chem.floorCost <= chem.baselineCost ==> forall i :: 0 <= i < years ==>
              CostSeries(m, chem, DoublingsByYear(m, years, shape, total))[i] <= chem.baselineCost
  {
    var d := DoublingsByYear(m, years, shape, total);
    var costs := CostSeries(m, chem, d);
    DoublingsSpec(m, years, shape, total);
    if 2 <= years {
      CostAtZeroDoublings(m, chem);
    }
    forall i, j | 0 <= i <= j < years
      ensures costs[j] <= costs[i]
    {
      CostNonIncreasing(m, chem, d[i], d[j]);
    }
    if chem.floorCost <= chem.baselineCost {
      forall i | 0 <= i < years
        ensures costs[i] <= chem.baselineCost
      {
        CostWithinBand(m, chem, d[i]);
      }
    }
  }

  /** `new Map(forecastYears.map((year, index) => [year, index]))` */
  function ForecastIndexByYear(forecastYears: seq<int>): map<int, int>
  {
    MapOfEntries(seq(|forecastYears|, i requires 0 <= i < |forecastYears| => (forecastYears[i], i)))
  }

  /** The index holds exactly the forecast years, each at its offset from
      the start. */
  lemma ForecastIndexSpec(start: int, years: nat)
    ensures forall y :: y in ForecastIndexByYear(ForecastYears(start, years)) <==> start <= y < start + years
    ensures forall y :: y in ForecastIndexByYear(ForecastYears(start, years)) ==>
              ForecastIndexByYear(ForecastYears(start, years))[y] == y - start
  {
    var fy := ForecastYears(start, years);
    var entries := seq(|fy|, i requires 0 <= i < |fy| => (fy[i], i));
    assert forall k :: 0 <= k < years ==> entries[k] == (start + k, k);
    var idx := MapOfEntries(entries);
    forall y | y in idx
      ensures start <= y < start + years && idx[y] == y - start
    {
      var k :| 0 <= k < |entries| && entries[k].0 == y;
      assert forall j :: k < j < |entries| ==> entries[j].0 != entries[k].0;
    }
    forall y | start <= y < start + years
      ensures y in idx
    {
      assert entries[y - start].0 == y;
    }
  }

  /** `[...historyYears, ...forecastYears.filter((year) => !historyYears.includes(year))]` */
  function CombinedYears(historyYears: seq<int>, forecastYears: seq<int>): seq<int>
  {
    historyYears + Without(forecastYears, historyYears)
  }

  /** The merged timeline holds every historical and every forecast year,
      starts with the historical years unchanged and repeats no year when
      neither input does. */
  lemma CombinedYearsSpec(historyYears: seq<int>, forecastYears: seq<int>)
    ensures forall y :: y in CombinedYears(historyYears, forecastYears) <==> y in historyYears || y in forecastYears
    ensures CombinedYears(historyYears, forecastYears)[..|historyYears|] == historyYears
    ensures Distinct(historyYears) && Distinct(forecastYears) ==> Distinct(CombinedYears(historyYears, forecastYears))
  {
    var added := Without(forecastYears, historyYears);
    var c := historyYears + added;
    if Distinct(historyYears) && Distinct(forecastYears) {
      forall i, j | 0 <= i < j < |c|
        ensures c[i] != c[j]
      {
        if j >= |historyYears| && i < |historyYears| {
          assert c[j] in added;
          assert c[i] in historyYears;
        } else if i >= |historyYears| {
          assert c[i] == added[i - |historyYears|] && c[j] == added[j - |historyYears|];
        }
      }
    }
  }

  /** When the history ends no later than, and the forecast starts no
      earlier than, the last historical year, the merged timeline is in
      chronological order. */
  lemma CombinedYearsAscending(historyYears: seq<int>, forecastYears: seq<int>)
    requires StrictlyAscending(historyYears) && StrictlyAscending(forecastYears)
    requires forall y :: y in historyYears ==> y <= HISTORY_END_YEAR
    requires forall y :: y in forecastYears ==> HISTORY_END_YEAR <= y
    ensures StrictlyAscending(CombinedYears(historyYears, forecastYears))
  {
    var added := Without(forecastYears, historyYears);
    var c := historyYears + added;
    forall i, j | 0 <= i < j < |c|
      ensures c[i] < c[j]
    {
      if j >= |historyYears| && i < |historyYears| {
        assert c[j] in added;
        assert c[i] in historyYears;
      } else if i >= |historyYears| {
        assert c[i] == added[i - |historyYears|] && c[j] == added[j - |historyYears|];
      }
    }
  }

  /** `costs[index]`: a number inside the series, `undefined` (plotted as
      null) outside it. */
  function CostAt(costs: seq<real>, index: int): (v: Option<real>)
    ensures v.Some? <==> 0 <= index < |costs|
    ensures v.Some? ==> v.value == costs[index]
  {
    if 0 <= index < |costs| then Some(costs[index]) else None
  }

  /** `Map.prototype.get`: `undefined` for an absent key. */
  function Get<V>(entries: map<int, V>, key: int): (v: Option<V>)
    ensures v.Some? <==> key in entries
    ensures v.Some? ==> v.value == entries[key]
  {
    if key in entries then Some(entries[key]) else None
  }

  /** The point plotted for `year`: the historical cost before the last
      historical year, the current baseline at it, then the forecast cost
      for a forecast year, which wins over both. The second branch looks up
      a year already known to be absent from the index. */
  function PointFor(year: int, chem: Chemistry, lookup: map<int, real>, index: map<int, int>, costs: seq<real>): Point
  {
    var prior :=
      if year < HISTORY_END_YEAR then Get(lookup, year)
      else if year == HISTORY_END_YEAR then Some(chem.baselineCost)
      else None;
    var value :=
      if year in index then CostAt(costs, index[year])
      else if year > HISTORY_END_YEAR then
        match Get(index, year)
        case Some(futureIndex) => CostAt(costs, futureIndex)
        case None => prior
      else prior;
    Point(year, value, year <= HISTORY_END_YEAR)
  }

  /** The point for a year in the index is its indexed cost; otherwise the
      baseline at the last historical year, the recorded cost (or null)
      before it and null after it. */
  lemma PointValue(year: int, chem: Chemistry, lookup: map<int, real>, index: map<int, int>, costs: seq<real>)
    ensures PointFor(year, chem, lookup, index, costs).x == year
    ensures PointFor(year, chem, lookup, index, costs).history <==> year <= HISTORY_END_YEAR
    ensures year in index ==> PointFor(year, chem, lookup, index, costs).y == CostAt(costs, index[year])
    ensures year !in index && year == HISTORY_END_YEAR ==>
              PointFor(year, chem, lookup, index, costs).y == Some(chem.baselineCost)
    ensures year !in index && year < HISTORY_END_YEAR ==>
              PointFor(year, chem, lookup, index, costs).y == Get(lookup, year)
    ensures year !in index && HISTORY_END_YEAR < year ==>
              PointFor(year, chem, lookup, index, costs).y == None
  {
  }

  /** The precedence of the plotted values, for an index that maps exactly
      the forecast years to their offsets from the start (as
      `forecastIndexByYear` does, by `ForecastIndexSpec`): a forecast year
      takes its forecast cost; otherwise the last historical year takes the
      baseline, an earlier year its recorded cost or null, and a later year
      null (the second lookup never assigns). The history flag marks exactly
      the years up to the last historical one. */
  lemma PointPrecedence(year: int, chem: Chemistry, lookup: map<int, real>, index: map<int, int>, start: int, costs: seq<real>)
    requires forall y :: y in index <==> start <= y < start + |costs|
    requires forall y :: y in index ==> index[y] == y - start
    ensures var p := PointFor(year, chem, lookup, index, costs);
            && p.x == year
            && (p.history <==> year <= HISTORY_END_YEAR)
            && (start <= year < start + |costs| ==> p.y == Some(costs[year - start]))
            && (!(start <= year < start + |costs|) && year == HISTORY_END_YEAR ==> p.y == Some(chem.baselineCost))
            && (!(start <= year < start + |costs|) && year < HISTORY_END_YEAR ==>
                  p.y == (if year in lookup then Some(lookup[year]) else None))
            && (!(start <= year < start + |costs|) && HISTORY_END_YEAR < year ==> p.y == None)
  {
    PointValue(year, chem, lookup, index, costs);
  }

  /** `combinedYears.map((year) => ...)`: one point per timeline year. */
  function Dataset(chem: Chemistry, lookup: map<int, real>, index: map<int, int>, costs: seq<real>, combined: seq<int>): seq<Point>
  {
    seq(|combined|, i requires 0 <= i < |combined| => PointFor(combined[i], chem, lookup, index, costs))
  }

  /** The change of the final forecast cost against the baseline, in percent
      (positive for a fall). There is none for an empty forecast or a zero
      baseline. */
  function PercentChange(baselineCost: real, costs: seq<real>): (change: Option<real>)
    ensures change.Some? <==> |costs| != 0 && baselineCost != 0.0
  {
    if |costs| == 0 || baselineCost == 0.0 then None
    else Some(((baselineCost - costs[|costs| - 1]) / baselineCost) * 100.0)
  }

  /** The summary arrow points down exactly when the final cost is at or
      below a positive baseline. */
  lemma ChangeDirection(baselineCost: real, costs: seq<real>)
    requires 0.0 < baselineCost && |costs| != 0
    ensures PercentChange(baselineCost, costs).Some?
    ensures 0.0 <= PercentChange(baselineCost, costs).value <==> costs[|costs| - 1] <= baselineCost
  {
    var final := costs[|costs| - 1];
    if final <= baselineCost {
      QuotientMonotone(0.0, baselineCost - final, baselineCost);
    } else {
      QuotientMonotone(baselineCost - final, 0.0, baselineCost);
      assert (baselineCost - final) / baselineCost != 0.0;
    }
  }

  /** For a chemistry above its floor with a positive baseline, the reported
      fall lies between 0 and the share of the baseline above the floor. */
  lemma ForecastChangeBounds(m: MathFns, chem: Chemistry, years: nat, shape: string, total: real)
    requires m.Lawful() && 0.0 <= total && 1 <= years
    requires 0.0 < chem.baselineCost && chem.floorCost <= chem.baselineCost
    ensures PercentChange(chem.baselineCost, CostSeries(m, chem, DoublingsByYear(m, years, shape, total))).Some?
    ensures 0.0 <= PercentChange(chem.baselineCost, CostSeries(m, chem, DoublingsByYear(m, years, shape, total))).value
              <= (chem.baselineCost - chem.floorCost) / chem.baselineCost * 100.0
  {
    var costs := CostSeries(m, chem, DoublingsByYear(m, years, shape, total));
    ForecastCostsSpec(m, chem, years, shape, total);
    var final := costs[years - 1];
    QuotientMonotone(0.0, chem.baselineCost - final, chem.baselineCost);
    QuotientMonotone(chem.baselineCost - final, chem.baselineCost - chem.floorCost, chem.baselineCost);
  }

  /** What `updateModel` computes for one chemistry: its cost series (the
      `costMap` entry), its plotted points and its summary change. */
  datatype ChemistrySeries = ChemistrySeries(costs: seq<real>, points: seq<Point>, change: Option<real>)

  /** Everything `updateModel` computes from the controls and the chemistries. */
  datatype ForecastResult = ForecastResult(
    startYear: int,
    years: seq<int>,
    doublings: seq<real>,
    combined: seq<int>,
    series: map<ChemId, ChemistrySeries>)

  function SeriesFor(m: MathFns, chem: Chemistry, doublings: seq<real>, index: map<int, int>, combined: seq<int>): ChemistrySeries
  {
    var costs := CostSeries(m, chem, doublings);
    var lookup := HistoryLookup(HistoricalData(chem.id));
    ChemistrySeries(costs, Dataset(chem, lookup, index, costs, combined), PercentChange(chem.baselineCost, costs))
  }

  /** The `costMap` of `updateModel`, with the points and change of each
      chemistry beside its costs. */
  function SeriesMap(m: MathFns, chems: map<ChemId, Chemistry>, doublings: seq<real>, index: map<int, int>, combined: seq<int>)
    : map<ChemId, ChemistrySeries>
    requires Complete(chems)
  {
    map id | id in Ids :: SeriesFor(m, chems[id], doublings, index, combined)
  }

  /** A map with the series of every chemistry is the `costMap`. */
  lemma SeriesMapUnique(series: map<ChemId, ChemistrySeries>, m: MathFns, chems: map<ChemId, Chemistry>,
                        doublings: seq<real>, index: map<int, int>, combined: seq<int>)
    requires Complete(chems)
    requires forall id :: id in series && series[id] == SeriesFor(m, chems[id], doublings, index, combined)
    ensures series == SeriesMap(m, chems, doublings, index, combined)
  {
    forall id
      ensures id in Ids
    {
      IdListed(id);
    }
  }

  /** `updateModel`'s computation, for a given list of historical years. */
  function ForecastWith(m: MathFns, chems: map<ChemId, Chemistry>, c: Controls, historyYears: seq<int>): ForecastResult
    requires m.ExpLaws() && Complete(chems)
  {
    var start := EffectiveStart(c.startYear);
    var years := ForecastYears(start, c.forecastYears);
    var doublings := DoublingsByYear(m, c.forecastYears, c.uptakeShape, c.totalDoublings);
    var index := ForecastIndexByYear(years);
    var combined := CombinedYears(historyYears, years);
    ForecastResult(start, years, doublings, combined, SeriesMap(m, chems, doublings, index, combined))
  }

  /** The whole of `updateModel`'s computation, over `historyYears`. */
  function ForecastOf(m: MathFns, chems: map<ChemId, Chemistry>, c: Controls): ForecastResult
    requires m.ExpLaws() && Complete(chems)
  {
    ForecastWith(m, chems, c, HistoryYears())
  }

  /** The timeline of a forecast: it starts at the clamped year and covers
      the requested number of consecutive years; the merged timeline keeps
      the historical years in front and adds every forecast year, and is in
      chronological order when the historical years are. */
  lemma ForecastTimeline(m: MathFns, chems: map<ChemId, Chemistry>, c: Controls, historyYears: seq<int>)
    requires m.ExpLaws() && Complete(chems)
    ensures var r := ForecastWith(m, chems, c, historyYears);
            && r.startYear == EffectiveStart(c.startYear)
            && |r.years| == c.forecastYears
            && (forall i :: 0 <= i < c.forecastYears ==> r.years[i] == r.startYear + i)
            && r.combined[..|historyYears|] == historyYears
            && (forall y :: y in r.combined <==> y in historyYears || r.startYear <= y < r.startYear + c.forecastYears)
    ensures StrictlyAscending(historyYears) && (forall y :: y in historyYears ==> y <= HISTORY_END_YEAR) ==>
              StrictlyAscending(ForecastWith(m, chems, c, historyYears).combined)
  {
    var r := ForecastWith(m, chems, c, historyYears);
    ForecastYearsSpec(r.startYear, c.forecastYears);
    CombinedYearsSpec(historyYears, r.years);
    if StrictlyAscending(historyYears) && (forall y :: y in historyYears ==> y <= HISTORY_END_YEAR) {
      CombinedYearsAscending(historyYears, r.years);
    }
  }

  /** Over the recorded history, the merged timeline is in chronological
      order and holds exactly the observed years up to the last historical
      one and the forecast years. */
  lemma ForecastTimelineOfHistory(m: MathFns, chems: map<ChemId, Chemistry>, c: Controls)
    requires m.ExpLaws() && Complete(chems)
    ensures var r := ForecastOf(m, chems, c);
            && StrictlyAscending(r.combined)
            && forall y :: y in r.combined <==>
                 (y <= HISTORY_END_YEAR && Observed(y)) || r.startYear <= y < r.startYear + c.forecastYears
  {
    HistoryYearsSpec();
    ForecastTimeline(m, chems, c, HistoryYears());
  }

  /** Each chemistry has a series: its costs (the `costMap` entry) are the
      cost law over the forecast doublings, its points follow the merged
      timeline one for one, and its change compares the last cost with its
      baseline. */
  lemma ForecastSeries(m: MathFns, chems: map<ChemId, Chemistry>, c: Controls, historyYears: seq<int>, id: ChemId)
    requires m.ExpLaws() && Complete(chems)
    ensures var r := ForecastWith(m, chems, c, historyYears);
            && id in r.series
            && |r.years| == |r.doublings| == c.forecastYears
            && r.series[id].costs == CostSeries(m, chems[id], DoublingsByYear(m, c.forecastYears, c.uptakeShape, c.totalDoublings))
            && |r.series[id].points| == |r.combined|
            && (forall k :: 0 <= k < |r.combined| ==> r.series[id].points[k].x == r.combined[k])
            && r.series[id].change == PercentChange(chems[id].baselineCost, r.series[id].costs)
  {
    IdListed(id);
  }

  /** The point plotted for each year of the merged timeline, in a forecast:
      a forecast year takes its forecast cost, ahead of history and
      baseline; otherwise the last historical year takes the baseline, an
      earlier year its recorded cost (or null) and a later year null. The
      history flag marks exactly the years up to the last historical one. */
  lemma ForecastPoints(m: MathFns, chems: map<ChemId, Chemistry>, c: Controls, historyYears: seq<int>, id: ChemId, k: int)
    requires m.ExpLaws() && Complete(chems)
    requires 0 <= k < |ForecastWith(m, chems, c, historyYears).combined|
    ensures var r := ForecastWith(m, chems, c, historyYears);
            var y := r.combined[k];
            var lookup := HistoryLookup(HistoricalData(id));
            var inForecast := r.startYear <= y < r.startYear + c.forecastYears;
            && id in r.series
            && |r.series[id].costs| == c.forecastYears
            && k < |r.series[id].points|
            && r.series[id].points[k].x == y
            && (r.series[id].points[k].history <==> y <= HISTORY_END_YEAR)
            && (inForecast ==> r.series[id].points[k].y == Some(r.series[id].costs[y - r.startYear]))
            && (!inForecast && y == HISTORY_END_YEAR ==> r.series[id].points[k].y == Some(chems[id].baselineCost))
            && (!inForecast && y < HISTORY_END_YEAR ==>
                  r.series[id].points[k].y == (if y in lookup then Some(lookup[y]) else None))
            && (!inForecast && HISTORY_END_YEAR < y ==> r.series[id].points[k].y == None)
  {
    var r := ForecastWith(m, chems, c, historyYears);
    ForecastSeries(m, chems, c, historyYears, id);
    var costs := r.series[id].costs;
    assert |costs| == c.forecastYears;
    var index := ForecastIndexByYear(r.years);
    ForecastIndexSpec(r.startYear, c.forecastYears);
    var lookup := HistoryLookup(HistoricalData(id));
    assert r.series[id].points[k] == PointFor(r.combined[k], chems[id], lookup, index, costs);
    PointPrecedence(r.combined[k], chems[id], lookup, index, r.startYear, costs);
  }

  /** `updateModel` as a whole: the summary of the first chemistry visited
      reads its last cost (`final.toFixed`), which throws for an empty
      horizon and abandons the recomputation; otherwise the forecast. */
  function Recompute(m: MathFns, chems: map<ChemId, Chemistry>, c: Controls): (r: Option<ForecastResult>)
    requires m.ExpLaws() && Complete(chems)
    ensures r.None? <==> c.forecastYears == 0
    ensures r.Some? ==> r.value == ForecastOf(m, chems, c)
  {
    var f := ForecastOf(m, chems, c);
    ForecastSeries(m, chems, c, HistoryYears(), Ids[0]);
    if |f.series[Ids[0]].costs| == 0 then None else Some(f)
  }

  /** The forecast cost of each year is the cost law at that year's doublings. */
  lemma ForecastCostsAt(m: MathFns, chem: Chemistry, years: nat, shape: string, total: real)
    requires m.ExpLaws()
    ensures |CostSeries(m, chem, DoublingsByYear(m, years, shape, total))| == years
    ensures forall i :: 0 <= i < years ==>
              CostSeries(m, chem, DoublingsByYear(m, years, shape, total))[i]
              == ComputeCost(m, chem, AdoptionProgress(m, i, years, shape) * total)
  {
    DoublingsAt(m, years, shape, total);
  }

  /** The default scenario: LFP starts at its 2024 baseline of 59 and, after
      five doublings reached linearly over twelve years, ends at 34.258624. */
  lemma DefaultScenario(m: MathFns)
    requires m.Lawful()
    ensures ForecastOf(m, Defaults(), DefaultControls).series[Lfp].costs[0] == 59.0
    ensures ForecastOf(m, Defaults(), DefaultControls).series[Lfp].costs[11] == 34.258624
  {
    ForecastSeries(m, Defaults(), DefaultControls, HistoryYears(), Lfp);
    ForecastCostsSpec(m, Default(Lfp), 12, "linear", 5.0);
    DefaultsWellBehaved(Lfp);
    LfpAfterFiveDoublings(m);
  }
}
