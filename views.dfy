/**
 * What the sidebar and the first two panels derive from the prepared
 * table: the option lists, the crime columns and their defaults, the
 * exact-match subset, the per-crime totals and the pie slices.
 */
module Views {
  import opened Wrappers
  import opened Seqs
  import opened Tables
  import opened Ordering
  import opened Schema

  /** The row test `df[l] == v`. */
  function HasValue(cols: seq<string>, l: string, v: Value): Row -> bool {
    r => Cell(cols, r, l) == v
  }

  function CellOf(cols: seq<string>, l: string): Row -> Value {
    r => Cell(cols, r, l)
  }

  /** `df[l]`, one cell per row. */
  function ColumnValues(t: Table, l: string): (vs: seq<Value>)
    ensures |vs| == |t.rows|
    ensures forall v :: v in vs <==> exists r :: r in t.rows && Cell(t.columns, r, l) == v
  {
    var vs := Map(CellOf(t.columns, l), t.rows);
    assert forall r :: r in t.rows ==> Cell(t.columns, r, l) in vs by {
      forall r | r in t.rows ensures Cell(t.columns, r, l) in vs {
        var i :| 0 <= i < |t.rows| && t.rows[i] == r;
        assert vs[i] == Cell(t.columns, r, l);
      }
    }
    vs
  }

  /** `sorted(df['STATE/UT'].unique())`: the states of the table, each once, ascending. */
  function States(t: Table): (ss: seq<Value>)
    ensures StrictlyAscending(ss)
    ensures forall v :: v in ss <==> exists r :: r in t.rows && Cell(t.columns, r, StateCol) == v
  {
    SortedDistinct(ColumnValues(t, StateCol))
  }

  /** `df[df['STATE/UT'] == s]`. */
  function StateRows(t: Table, s: Value): (st: Table)
    ensures st.columns == t.columns
    ensures forall r :: r in st.rows <==> r in t.rows && Cell(t.columns, r, StateCol) == s
  {
    Table(t.columns, Where(t.rows, HasValue(t.columns, StateCol, s)))
  }

  /** `sorted(state_data['DISTRICT'].unique())`: the districts of the chosen state, each once, ascending. */
  function Districts(t: Table, s: Value): (ds: seq<Value>)
    ensures StrictlyAscending(ds)
    ensures forall v :: v in ds <==>
              exists r :: r in t.rows && Cell(t.columns, r, StateCol) == s && Cell(t.columns, r, DistrictCol) == v
  {
    SortedDistinct(ColumnValues(StateRows(t, s), DistrictCol))
  }

  /** `sorted(state_data['YEAR'].unique())`: the years of the chosen state, each once, ascending. */
  function Years(t: Table, s: Value): (ys: seq<Value>)
    ensures StrictlyAscending(ys)
    ensures forall v :: v in ys <==>
              exists r :: r in t.rows && Cell(t.columns, r, StateCol) == s && Cell(t.columns, r, YearCol) == v
  {
    SortedDistinct(ColumnValues(StateRows(t, s), YearCol))
  }

  /** On a prepared table no option is missing and every year is a number. */
  lemma OptionsPresent(t: Table, s: Value)
    requires Prepared(t)
    ensures Null !in States(t) && Null !in Districts(t, s)
    ensures forall y :: y in Years(t, s) ==> y.Num?
  {
  }

  // ---------------------------------------------------------------- crime columns

  const Dimensions: seq<string> := [StateCol, DistrictCol, YearCol]

  /** A label that is none of the three dimensions. */
  function NotDimension(c: string): bool {
    c !in Dimensions
  }

  /** `[col for col in df.columns if col not in [...dimensions]]`: every other
      label, in column order, repeats included. */
  function CrimeColumns(cols: seq<string>): (cs: seq<string>)
    ensures forall c :: c in cs <==> c in cols && c !in Dimensions
  {
    Where(cols, NotDimension)
  }

  /** The crime columns keep the order of the columns they come from. */
  lemma CrimeColumnsOrder(a: seq<string>, b: seq<string>)
    ensures CrimeColumns(a + b) == CrimeColumns(a) + CrimeColumns(b)
  {
    WhereConcat(a, b, NotDimension);
  }

  /** A repeated crime label is kept as often as it occurs among the columns. */
  lemma CrimeColumnsCount(cols: seq<string>, c: string)
    ensures multiset(CrimeColumns(cols))[c] == if c !in Dimensions then multiset(cols)[c] else 0
  {
    WhereCount(cols, NotDimension, c);
  }

  /** The crime columns preselected when the table has them. */
  const PreferredCrimes: seq<string> := ["MURDER", "RAPE"]

  /** `[crime for crime in ['MURDER', 'RAPE'] if crime in crime_columns]`. */
  function DefaultCrimes(crimes: seq<string>): (d: seq<string>)
    ensures d == (if "MURDER" in crimes then ["MURDER"] else []) + (if "RAPE" in crimes then ["RAPE"] else [])
  {
    var d := Where(PreferredCrimes, c => c in crimes);
    assert PreferredCrimes == ["MURDER"] + ["RAPE"];
    WhereConcat(["MURDER"], ["RAPE"], c => c in crimes);
    d
  }

  // ---------------------------------------------------------------- exact-match subset

  /** The row test `(STATE/UT == s) & (DISTRICT == d) & (YEAR == y)`. */
  function Matches(cols: seq<string>, s: Value, d: Value, y: Value): Row -> bool {
    r => Cell(cols, r, StateCol) == s && Cell(cols, r, DistrictCol) == d && Cell(cols, r, YearCol) == y
  }

  /** The rows of the chosen state, district and year. */
  function Filter(t: Table, s: Value, d: Value, y: Value): (f: seq<Row>)
    ensures |f| <= |t.rows|
    ensures forall r :: r in f <==>
              r in t.rows && Cell(t.columns, r, StateCol) == s && Cell(t.columns, r, DistrictCol) == d && Cell(t.columns, r, YearCol) == y
  {
    Where(t.rows, Matches(t.columns, s, d, y))
  }

  /** Nothing is deduplicated: a matching row occurs in the subset as often
      as in the table, a row that does not match not at all. */
  lemma FilterCount(t: Table, s: Value, d: Value, y: Value, r: Row)
    ensures multiset(Filter(t, s, d, y))[r] ==
              if Cell(t.columns, r, StateCol) == s && Cell(t.columns, r, DistrictCol) == d && Cell(t.columns, r, YearCol) == y
              then multiset(t.rows)[r] else 0
  {
    WhereCount(t.rows, Matches(t.columns, s, d, y), r);
  }

  /** The subset keeps the table's order: filtering two blocks of rows is
      filtering each and concatenating. */
  lemma FilterOrder(cols: seq<string>, a: seq<Row>, b: seq<Row>, s: Value, d: Value, y: Value)
    ensures Filter(Table(cols, a + b), s, d, y) == Filter(Table(cols, a), s, d, y) + Filter(Table(cols, b), s, d, y)
  {
    WhereConcat(a, b, Matches(cols, s, d, y));
  }

  // ---------------------------------------------------------------- totals and pie

  /** A column pandas treats as numeric: no cell holds text. */
  predicate NumericColumn(t: Table, l: string) {
    forall r :: r in t.rows ==> !Cell(t.columns, r, l).Str?
  }

  /** A column is numeric exactly when coercing it changes none of its cells. */
  lemma NumericColumnCoerced(t: Table, l: string)
    ensures NumericColumn(t, l) <==> forall r :: r in t.rows ==> ToNumeric(Cell(t.columns, r, l)) == Cell(t.columns, r, l)
  {
  }

  /** `filtered[selected].sum(numeric_only=True)`: one total per selected
      numeric column, in the order selected; text columns are skipped. */
  function Totals(t: Table, filtered: seq<Row>, crimes: seq<string>): (tot: seq<(string, int)>)
    ensures |tot| <= |crimes|
    ensures forall p :: p in tot ==> p.0 in crimes && NumericColumn(t, p.0) && p.1 == ColumnSum(t.columns, filtered, p.0)
    ensures forall c :: c in crimes && NumericColumn(t, c) ==> (c, ColumnSum(t.columns, filtered, c)) in tot
  {
    if |crimes| == 0 then
      []
    else
      assert crimes == [crimes[0]] + crimes[1..];
      var c := crimes[0];
      (if NumericColumn(t, c) then [(c, ColumnSum(t.columns, filtered, c))] else []) + Totals(t, filtered, crimes[1..])
  }

  /** The totals of a selection are those of its first column followed by those of the rest. */
  lemma TotalsCons(t: Table, filtered: seq<Row>, c: string, rest: seq<string>)
    ensures Totals(t, filtered, [c] + rest) ==
      (if NumericColumn(t, c) then [(c, ColumnSum(t.columns, filtered, c))] else []) + Totals(t, filtered, rest)
  {
    assert ([c] + rest)[0] == c && ([c] + rest)[1..] == rest;
  }

  /** The column label of a `(label, total)` entry. */
  function Label(p: (string, int)): string {
    p.0
  }

  /** The totals are labelled by exactly the numeric selected columns, in selection order. */
  lemma {:induction false} TotalsLabels(t: Table, filtered: seq<Row>, crimes: seq<string>)
    ensures Map(Label, Totals(t, filtered, crimes)) == Where(crimes, c => NumericColumn(t, c))
  {
    if |crimes| > 0 {
      TotalsLabels(t, filtered, crimes[1..]);
      var head: seq<(string, int)> := if NumericColumn(t, crimes[0]) then [(crimes[0], ColumnSum(t.columns, filtered, crimes[0]))] else [];
      MapConcat(Label, head, Totals(t, filtered, crimes[1..]));
    }
  }

  /** The totals panel is drawn only for a non-empty subset and a non-empty selection. */
  function TotalsView(t: Table, filtered: seq<Row>, crimes: seq<string>): (v: Option<seq<(string, int)>>)
    ensures v.Some? <==> |filtered| > 0 && |crimes| > 0
    ensures v.Some? ==> v.value == Totals(t, filtered, crimes)
  {
    if |filtered| > 0 && |crimes| > 0 then Some(Totals(t, filtered, crimes)) else None
  }

  /** A total that earns a pie slice. */
  function Positive(p: (string, int)): bool {
    p.1 > 0
  }

  /** `cleaned[cleaned > 0]`: the slices of the pie, every one strictly
      positive, every positive total kept, in order. */
  function PieSlices(tot: seq<(string, int)>): (pie: seq<(string, int)>)
    ensures forall p :: p in pie <==> p in tot && p.1 > 0
  {
    Where(tot, Positive)
  }

  /** The slices keep the order of the totals: the slices of two blocks of
      totals are the slices of each, concatenated. */
  lemma PieSlicesOrder(a: seq<(string, int)>, b: seq<(string, int)>)
    ensures PieSlices(a + b) == PieSlices(a) + PieSlices(b)
  {
    WhereConcat(a, b, Positive);
  }
}
