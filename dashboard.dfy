/**
 * One interaction of the dashboard: prepare the table read from the chosen
 * file, then compute every panel for the user's current choice of state,
 * district, year and crime columns.
 */
module Dashboard {
  import opened Wrappers
  import opened Tables
  import opened Schema
  import opened Frames
  import opened Views
  import opened Aggregates

  /** What the user picked in the sidebar. */
  datatype Choice = Choice(state: Value, district: Value, year: Value, crimes: seq<string>)

  /** Everything the page shows. A `None` totals panel (and pie with it)
      stands for the warning at line 112 of the script, an empty pie for
      the notice at line 110, and an empty ranking or trend for the
      warnings at lines 123 and 133; `None` for those two means the table
      has no total column. */
  datatype Panels = Panels(
    states: seq<Value>,
    districts: seq<Value>,
    years: seq<Value>,
    crimeColumns: seq<string>,
    defaultCrimes: seq<string>,
    filtered: seq<Row>,
    totals: Option<seq<(string, int)>>,
    pie: Option<seq<(string, int)>>,
    ranking: Option<seq<(Value, int)>>,
    trend: Option<seq<(Value, int)>>)

  /** The page from the sidebar down, on a prepared frame. The frame's total
      column is coerced in place before the two charts when it exists. */
  method Explore(df: DataFrame, choice: Choice) returns (panels: Panels)
    requires df.Valid() && Prepared(df.View())
    modifies df
    ensures df.Valid()
    ensures df.View() == if TotalCol in old(df.View()).columns then CoerceColumn(old(df.View()), TotalCol) else old(df.View())
    ensures var t := old(df.View());
            && panels.states == States(t)
            && panels.districts == Districts(t, choice.state)
            && panels.years == Years(t, choice.state)
            && panels.crimeColumns == CrimeColumns(t.columns)
            && panels.defaultCrimes == DefaultCrimes(CrimeColumns(t.columns))
            && panels.filtered == Filter(t, choice.state, choice.district, choice.year)
            && panels.totals == TotalsView(t, panels.filtered, choice.crimes)
            && panels.pie == (if panels.totals.Some? then Some(PieSlices(panels.totals.value)) else None)
    ensures panels.ranking == RankingView(df.View()) && panels.trend == TrendView(df.View(), choice.state)
  {
    var t := df.View();
    var states := States(t);
    var districts := Districts(t, choice.state);
    var years := Years(t, choice.state);
    var crimeColumns := CrimeColumns(t.columns);
    var defaults := DefaultCrimes(crimeColumns);
    var filtered := Filter(t, choice.state, choice.district, choice.year);
    var totals := TotalsView(t, filtered, choice.crimes);
    var pie := if totals.Some? then Some(PieSlices(totals.value)) else None;
    if TotalCol in df.columns {
      df.CoerceTotal();
    }
    var ranking := RankingView(df.View());
    var trend := TrendView(df.View(), choice.state);
    panels := Panels(states, districts, years, crimeColumns, defaults, filtered, totals, pie, ranking, trend);
  }

  /** One whole interaction on the table read from the chosen file: it
      halts exactly when the preparation does, and otherwise shows the
      panels of the prepared table for the user's choice. */
  method Session(raw: Table, choice: Choice) returns (result: Result<Panels, Error>)
    requires WellFormed(raw)
    ensures result.Failure? <==> Prepare(raw).Failure?
    ensures result.Success? ==>
              var t := Prepare(raw).value;
              && result.value.states == States(t)
              && result.value.districts == Districts(t, choice.state)
              && result.value.years == Years(t, choice.state)
              && result.value.crimeColumns == CrimeColumns(t.columns)
              && result.value.defaultCrimes == DefaultCrimes(CrimeColumns(t.columns))
              && result.value.filtered == Filter(t, choice.state, choice.district, choice.year)
              && result.value.totals == TotalsView(t, result.value.filtered, choice.crimes)
              && result.value.pie == (if result.value.totals.Some? then Some(PieSlices(result.value.totals.value)) else None)
              && result.value.ranking == RankingView(if TotalCol in t.columns then CoerceColumn(t, TotalCol) else t)
              && result.value.trend == TrendView(if TotalCol in t.columns then CoerceColumn(t, TotalCol) else t, choice.state)
  {
    var df := new DataFrame(raw);
    var outcome := PrepareFrame(df);
    if outcome.Fail? {
      return Failure(outcome.error);
    }
    var panels := Explore(df, choice);
    return Success(panels);
  }
}
