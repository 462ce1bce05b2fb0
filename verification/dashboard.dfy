/** The widget's state: the editable chemistries and the forecast controls,
    the recomputation that runs after every change, the guarded field edit
    of a chemistry card and the reset to defaults. */
module Dashboard {
  import opened Basics
  import opened MathLaws
  import opened Chemistries
  import opened History
  import opened Forecast

  /** The outcome of `parseFloat` on an input's text: a finite number, or
      NaN / an infinity. */
  datatype ParsedNumber = Finite(value: real) | NotFinite

  /** The `forEach` over the chemistries in `updateModel`: one series per
      chemistry, in the order the chemistries are visited, collected into
      `costMap`. */
  method CollectSeries(m: MathFns, chems: map<ChemId, Chemistry>, doublings: seq<real>, index: map<int, int>, combined: seq<int>)
    returns (costMap: map<ChemId, ChemistrySeries>)
    requires Complete(chems)
    ensures costMap == SeriesMap(m, chems, doublings, index, combined)
  {
    costMap := map[];
    var k := 0;
    while k < |Ids|
      invariant 0 <= k <= |Ids|
      invariant forall id :: id in costMap <==> Position(id) < k
      invariant forall id :: id in costMap ==> costMap[id] == SeriesFor(m, chems[id], doublings, index, combined)
    {
      var id := Ids[k];
      PositionOfListed(k);
      costMap := costMap[id := SeriesFor(m, chems[id], doublings, index, combined)];
      k := k + 1;
    }
    SeriesMapUnique(costMap, m, chems, doublings, index, combined);
  }

  /** `updateModel`'s computation, step by step: the start-year clamp, the
      forecast timeline, then the series of every chemistry. */
  method BuildForecast(m: MathFns, chems: map<ChemId, Chemistry>, c: Controls, historyYears: seq<int>)
    returns (out: ForecastResult)
    requires m.ExpLaws() && Complete(chems)
    ensures out == ForecastWith(m, chems, c, historyYears)
  {
    var start := c.startYear;
    if start < HISTORY_END_YEAR {
      start := HISTORY_END_YEAR;
    }
    var years := ForecastYears(start, c.forecastYears);
    var doublings := DoublingsByYear(m, c.forecastYears, c.uptakeShape, c.totalDoublings);
    var index := ForecastIndexByYear(years);
    var combined := CombinedYears(historyYears, years);
    var costMap := CollectSeries(m, chems, doublings, index, combined);
    out := ForecastResult(start, years, doublings, combined, costMap);
  }

  class Model {
    /** The global `chemistries` object. */
    var chemistries: map<ChemId, Chemistry>
    /** The values of the four forecast controls. */
    var controls: Controls

    ghost predicate Valid()
      reads this
    {
      Complete(chemistries)
    }

    /** The page starts from a copy of the default chemistries and the
        controls' initial values. */
    constructor (initial: Controls)
      ensures Valid()
      ensures chemistries == Defaults() && controls == initial
    {
      chemistries := Defaults();
      controls := initial;
    }

    /** `updateModel`: writes the clamped start year back to its control and
        computes the forecast from the current state. With no forecast
        years the first chemistry's summary throws, and no forecast comes
        out. */
    method UpdateModel(m: MathFns) returns (out: Option<ForecastResult>)
      requires Valid() && m.ExpLaws()
      modifies this
      ensures Valid()
      ensures chemistries == old(chemistries)
      ensures controls == old(controls).(startYear := EffectiveStart(old(controls).startYear))
      ensures out == Recompute(m, chemistries, controls)
      ensures out == Recompute(m, chemistries, old(controls))
    {
      if controls.startYear < HISTORY_END_YEAR {
        controls := controls.(startYear := HISTORY_END_YEAR);
      }
      var forecast := BuildForecast(m, chemistries, controls, HistoryYears());
      ForecastSeries(m, chemistries, controls, HistoryYears(), Ids[0]);
      if |forecast.series[Ids[0]].costs| == 0 {
        out := None;
      } else {
        out := Some(forecast);
      }
    }

    /** The input handler of a chemistry card: a finite number is stored
        in the field and the forecast recomputed; anything else is ignored. */
    method EditField(m: MathFns, id: ChemId, field: Field, input: ParsedNumber) returns (out: Option<ForecastResult>)
      requires Valid() && m.ExpLaws()
      modifies this
      ensures Valid()
      ensures input.NotFinite? ==>
                chemistries == old(chemistries) && controls == old(controls) && out == None
      ensures input.Finite? ==>
                && chemistries == Edited(old(chemistries), id, field, input.value)
                && controls == old(controls).(startYear := EffectiveStart(old(controls).startYear))
                && out == Recompute(m, chemistries, controls)
    {
      match input
      case NotFinite =>
        out := None;
      case Finite(value) =>
        chemistries := Edited(chemistries, id, field, value);
        out := UpdateModel(m);
    }

    /** `resetDefaults`: restores a fresh copy of the default chemistries and
        the default controls, then recomputes. */
    method ResetDefaults(m: MathFns) returns (out: ForecastResult)
      requires m.ExpLaws()
      modifies this
      ensures Valid()
      ensures chemistries == Defaults() && controls == DefaultControls
      ensures out == ForecastOf(m, Defaults(), DefaultControls)
    {
      chemistries := Defaults();
      controls := DefaultControls;
      var recomputed := UpdateModel(m);
      out := recomputed.value;
    }
  }
}
