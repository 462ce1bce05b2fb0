/** The static historical cost observations and `historyYears`, the sorted
    set of years observed for any chemistry up to the end of history. */
module History {
  import opened Basics
  import opened Chemistries

  /** The last historical year; also the earliest forecast start. */
  const HISTORY_END_YEAR: int := 2024

  datatype Observation = Observation(year: int, cost: real)

  /** `historicalData`: cost per kWh by year, for each chemistry. */
  function HistoricalData(id: ChemId): seq<Observation>
  {
    match id
    case Lfp => [
      Observation(2010, 600.0), Observation(2012, 420.0), Observation(2014, 310.0),
      Observation(2016, 215.0), Observation(2018, 162.0), Observation(2020, 130.0),
      Observation(2022, 96.0), Observation(2023, 76.0), Observation(2024, 59.0)]
    case Nmc => [
      Observation(2010, 780.0), Observation(2012, 560.0), Observation(2014, 410.0),
      Observation(2016, 290.0), Observation(2018, 210.0), Observation(2020, 160.0),
      Observation(2022, 120.0), Observation(2023, 92.0), Observation(2024, 68.6)]
    case Sodium => [
      Observation(2012, 650.0), Observation(2014, 520.0), Observation(2016, 410.0),
      Observation(2018, 320.0), Observation(2020, 250.0), Observation(2021, 220.0),
      Observation(2022, 185.0), Observation(2023, 140.0), Observation(2024, 87.0)]
  }

  function YearsOf(series: seq<Observation>): (years: seq<int>)
    ensures |years| == |series|
    ensures forall k :: 0 <= k < |series| ==> years[k] == series[k].year
  {
    seq(|series|, k requires 0 <= k < |series| => series[k].year)
  }

  /** The years of all series, chemistry after chemistry (the `flatMap`). */
  function AllObservedYears(): seq<int>
  {
    YearsOf(HistoricalData(Lfp)) + YearsOf(HistoricalData(Nmc)) + YearsOf(HistoricalData(Sodium))
  }

  /** `s.filter((year) => year <= bound)` */
  function UpTo(s: seq<int>, bound: int): (r: seq<int>)
    ensures forall y :: y in r <==> y in s && y <= bound
  {
    if |s| == 0 then []
    else (if s[0] <= bound then [s[0]] else []) + UpTo(s[1..], bound)
  }

  /** Inserts `x` into a strictly ascending sequence unless it is already there. */
  function Insert(x: int, s: seq<int>): (r: seq<int>)
    requires StrictlyAscending(s)
    ensures StrictlyAscending(r)
    ensures forall y :: y in r <==> y == x || y in s
  {
    if |s| == 0 then [x]
    else if x < s[0] then [x] + s
    else if x == s[0] then s
    else
      var rest := Insert(x, s[1..]);
      assert forall k :: 0 <= k < |rest| ==> s[0] < rest[k] by {
        forall k | 0 <= k < |rest|
          ensures s[0] < rest[k]
        {
          assert rest[k] in rest;
          if rest[k] != x {
            var i :| 0 <= i < |s[1..]| && s[1..][i] == rest[k];
            assert s[i + 1] == rest[k];
          }
        }
      }
      [s[0]] + rest
  }

  /** `Array.from(new Set(s)).sort((a, b) => a - b)`: the distinct values of
      `s` in ascending order. */
  function SortedDistinct(s: seq<int>): (r: seq<int>)
    ensures StrictlyAscending(r)
    ensures forall y :: y in r <==> y in s
  {
    if |s| == 0 then [] else Insert(s[0], SortedDistinct(s[1..]))
  }

  /** A strictly ascending sequence is determined by its elements, so the
      result above is the one a numeric sort of the set yields, whatever
      order the set and the sort visit the elements in. */
  lemma {:induction false} AscendingDeterminedByElements(a: seq<int>, b: seq<int>)
    requires StrictlyAscending(a) && StrictlyAscending(b)
    requires forall y :: y in a <==> y in b
    ensures a == b
  {
    HeadIsElement(a);
    HeadIsElement(b);
    if |a| != 0 && |b| != 0 {
      HeadsAgree(a, b);
      TailsAgree(a, b);
      AscendingDeterminedByElements(a[1..], b[1..]);
      assert a == [a[0]] + a[1..];
      assert b == [b[0]] + b[1..];
    }
  }

  /** Two strictly ascending sequences with the same elements start with
      the same (least) element. */
  lemma HeadsAgree(a: seq<int>, b: seq<int>)
    requires StrictlyAscending(a) && StrictlyAscending(b) && |a| != 0 && |b| != 0
    requires forall y :: y in a <==> y in b
    ensures a[0] == b[0]
  {
    HeadIsElement(a);
    HeadIsElement(b);
    var j :| 0 <= j < |b| && b[j] == a[0];
    assert b[0] <= a[0];
    var i :| 0 <= i < |a| && a[i] == b[0];
    assert a[0] <= b[0];
  }

  /** ... and then their tails have the same elements. */
  lemma TailsAgree(a: seq<int>, b: seq<int>)
    requires StrictlyAscending(a) && StrictlyAscending(b) && |a| != 0 && |b| != 0
    requires forall y :: y in a <==> y in b
    requires a[0] == b[0]
    ensures forall y :: y in a[1..] <==> y in b[1..]
  {
    forall y
      ensures y in a[1..] <==> y in b[1..]
    {
      if y in a[1..] {
        var i :| 1 <= i < |a| && a[i] == y;
        assert y in b && y != b[0];
        var j :| 0 <= j < |b| && b[j] == y;
        assert j != 0;
        assert b[1..][j - 1] == y;
      }
      if y in b[1..] {
        var i :| 1 <= i < |b| && b[i] == y;
        assert y in a && y != a[0];
        var j :| 0 <= j < |a| && a[j] == y;
        assert j != 0;
        assert a[1..][j - 1] == y;
      }
    }
  }

  lemma HeadIsElement(s: seq<int>)
    ensures |s| != 0 ==> s[0] in s
  {
  }

  /** `historyYears` */
  function HistoryYears(): seq<int>
  {
    SortedDistinct(UpTo(AllObservedYears(), HISTORY_END_YEAR))
  }

  /** A year observed for some chemistry. */
  ghost predicate Observed(y: int)
  {
    exists id: ChemId, k :: 0 <= k < |HistoricalData(id)| && HistoricalData(id)[k].year == y
  }

  lemma ObservedYearsListed(y: int)
    ensures y in AllObservedYears() <==> Observed(y)
  {
    var a, b, c := YearsOf(HistoricalData(Lfp)), YearsOf(HistoricalData(Nmc)), YearsOf(HistoricalData(Sodium));
    assert AllObservedYears() == a + b + c;
    if y in AllObservedYears() {
      if y in a {
        var k :| 0 <= k < |a| && a[k] == y;
        assert HistoricalData(Lfp)[k].year == y;
      } else if y in b {
        var k :| 0 <= k < |b| && b[k] == y;
        assert HistoricalData(Nmc)[k].year == y;
      } else {
        var k :| 0 <= k < |c| && c[k] == y;
        assert HistoricalData(Sodium)[k].year == y;
      }
    }
    if Observed(y) {
      var id: ChemId, k :| 0 <= k < |HistoricalData(id)| && HistoricalData(id)[k].year == y;
      match id
      case Lfp => assert a[k] == y;
      case Nmc => assert b[k] == y;
      case Sodium => assert c[k] == y;
    }
  }

  /** `historyYears` is strictly ascending, ends no later than the last
      historical year, and holds exactly the observed years up to it. */
  lemma HistoryYearsSpec()
    ensures StrictlyAscending(HistoryYears())
    ensures forall y :: y in HistoryYears() ==> y <= HISTORY_END_YEAR
    ensures forall y :: y in HistoryYears() <==> y <= HISTORY_END_YEAR && Observed(y)
  {
    forall y
      ensures y in HistoryYears() <==> y <= HISTORY_END_YEAR && Observed(y)
    {
      ObservedYearsListed(y);
    }
  }

  /** `new Map(series.map((point) => [point.year, point.cost]))` */
  function HistoryLookup(series: seq<Observation>): map<int, real>
  {
    MapOfEntries(seq(|series|, k requires 0 <= k < |series| => (series[k].year, series[k].cost)))
  }

  /** The lookup finds a year exactly when the series has an observation for
      it, and then gives the cost of that observation when the series has
      one observation per year. */
  lemma HistoryLookupSpec(series: seq<Observation>, y: int)
    ensures y in HistoryLookup(series) <==> exists k :: 0 <= k < |series| && series[k].year == y
    ensures forall k :: 0 <= k < |series| && series[k].year == y
                        && (forall j :: 0 <= j < |series| && j != k ==> series[j].year != y)
                        ==> y in HistoryLookup(series) && HistoryLookup(series)[y] == series[k].cost
  {
    var entries := seq(|series|, k requires 0 <= k < |series| => (series[k].year, series[k].cost));
    assert forall k :: 0 <= k < |series| ==> entries[k].0 == series[k].year;
  }
}
