/**
 * The in-memory table: a sequence of column labels (which may repeat, as
 * pandas allows) and a sequence of rows holding one cell per column.
 */
module Tables {
  import opened Wrappers
  import opened Numbers
  import opened Seqs

  /** A cell: missing (NaN/None), a number (counts and years are integers), or text. */
  datatype Value = Null | Num(n: int) | Str(s: string)

  type Row = seq<Value>

  datatype Table = Table(columns: seq<string>, rows: seq<Row>)

  /** Every row has exactly one cell per column. */
  ghost predicate WellFormed(t: Table) {
    forall r :: r in t.rows ==> |r| == |t.columns|
  }

  /** The position of the first column carrying label `l`, or `|cols|` when there is none. */
  function IndexOf(cols: seq<string>, l: string): (j: nat)
    ensures j <= |cols|
    ensures j < |cols| <==> l in cols
    ensures j < |cols| ==> cols[j] == l
    ensures forall i :: 0 <= i < j ==> cols[i] != l
  {
    if |cols| == 0 then 0 else if cols[0] == l then 0 else 1 + IndexOf(cols[1..], l)
  }

  /** A label found at `j` and at no earlier position has index `j`. */
  lemma IndexOfAt(cols: seq<string>, l: string, j: nat)
    requires j < |cols| && cols[j] == l
    requires forall i :: 0 <= i < j ==> cols[i] != l
    ensures IndexOf(cols, l) == j
  {
    var k := IndexOf(cols, l);
    assert !(k < j) && !(j < k);
  }

  /** The cell of row `r` under label `l` (the first such column); missing when there is no such column. */
  function Cell(cols: seq<string>, r: Row, l: string): Value {
    var j := IndexOf(cols, l);
    if j < |cols| && j < |r| then r[j] else Null
  }

  /** `df[l]` in one row: the cell of the first column carrying `l`, and a
      missing cell when no column carries it. */
  lemma CellFirstColumn(cols: seq<string>, r: Row, l: string)
    ensures l !in cols ==> Cell(cols, r, l) == Null
    ensures forall j :: 0 <= j < |cols| && j < |r| && cols[j] == l && (forall i :: 0 <= i < j ==> cols[i] != l) ==>
              Cell(cols, r, l) == r[j]
  {
    forall j | 0 <= j < |cols| && j < |r| && cols[j] == l && (forall i :: 0 <= i < j ==> cols[i] != l)
      ensures Cell(cols, r, l) == r[j]
    {
      IndexOfAt(cols, l, j);
    }
  }

  /** `pd.to_numeric(v, errors='coerce')` on one cell. */
  function ToNumeric(v: Value): (w: Value)
    ensures w.Null? || w.Num?
    ensures v.Num? ==> w == v
    ensures v.Null? ==> w.Null?
    ensures v.Str? ==> (w.Num? <==> ParseInt(v.s).Some?)
    ensures v.Str? && ParseInt(v.s).Some? ==> w == Num(ParseInt(v.s).value)
  {
    match v
    case Null => Null
    case Num(_) => v
    case Str(s) => if ParseInt(s).Some? then Num(ParseInt(s).value) else Null
  }

  /** Coercing a coerced cell changes nothing. */
  lemma ToNumericIdempotent(v: Value)
    ensures ToNumeric(ToNumeric(v)) == ToNumeric(v)
  {
  }

  /** What a cell contributes to a pandas sum after coercion: a number
      counts as itself, text that parses as its value, and a missing cell or
      unparsable text (NaN after coercion) as 0. */
  function Amount(v: Value): (a: int)
    ensures v.Num? ==> a == v.n
    ensures v.Null? ==> a == 0
    ensures v.Str? ==> a == if ParseInt(v.s).Some? then ParseInt(v.s).value else 0
  {
    match ToNumeric(v)
    case Num(n) => n
    case _ => 0
  }

  /** The sum of column `l` over `rows` after `pd.to_numeric(errors='coerce')`, a NaN counting 0. */
  function ColumnSum(cols: seq<string>, rows: seq<Row>, l: string): int {
    if |rows| == 0 then 0 else Amount(Cell(cols, rows[0], l)) + ColumnSum(cols, rows[1..], l)
  }

  /** A column sum over two blocks of rows is the sum of the two column sums. */
  lemma {:induction false} ColumnSumConcat(cols: seq<string>, a: seq<Row>, b: seq<Row>, l: string)
    ensures ColumnSum(cols, a + b, l) == ColumnSum(cols, a, l) + ColumnSum(cols, b, l)
  {
    if |a| > 0 {
      assert (a + b)[0] == a[0] && (a + b)[1..] == a[1..] + b;
      ColumnSumConcat(cols, a[1..], b, l);
    } else {
      assert a + b == b;
    }
  }

  /** A column sum skips NaN: over cells that all count 0 or more the sum
      is not negative, and over cells none of which coerces to a number it is 0. */
  lemma {:induction false} ColumnSumBounds(cols: seq<string>, rows: seq<Row>, l: string)
    ensures (forall r :: r in rows ==> Amount(Cell(cols, r, l)) >= 0) ==> ColumnSum(cols, rows, l) >= 0
    ensures (forall r :: r in rows ==> !ToNumeric(Cell(cols, r, l)).Num?) ==> ColumnSum(cols, rows, l) == 0
  {
    if |rows| > 0 {
      assert forall r :: r in rows[1..] ==> r in rows;
      assert rows[0] in rows;
      ColumnSumBounds(cols, rows[1..], l);
    }
  }

  /** Replaces the cell at position `j` by its coerced value; rows too short are left alone. */
  function CoerceCell(j: nat, r: Row): (r': Row)
    ensures |r'| == |r|
    ensures forall i :: 0 <= i < |r| && i != j ==> r'[i] == r[i]
    ensures j < |r| ==> r'[j] == ToNumeric(r[j])
  {
    if j < |r| then r[j := ToNumeric(r[j])] else r
  }

  /** The row transformation that coerces the cell at position `j`. */
  function CoerceAt(j: nat): Row -> Row {
    r => CoerceCell(j, r)
  }

  /** `df[l] = pd.to_numeric(df[l], errors='coerce')`: coerce the column labelled `l` in place. */
  function CoerceColumn(t: Table, l: string): (t': Table)
    ensures t'.columns == t.columns && |t'.rows| == |t.rows|
    ensures WellFormed(t) ==> WellFormed(t')
    ensures forall i :: 0 <= i < |t.rows| ==> t'.rows[i] == CoerceCell(IndexOf(t.columns, l), t.rows[i])
  {
    Table(t.columns, Map(CoerceAt(IndexOf(t.columns, l)), t.rows))
  }

  /** In a row of the table's width, after coercing the cell under `l` that
      cell reads as its coerced value and every other label reads as before. */
  lemma CoerceCellReads(cols: seq<string>, r: Row, l: string, m: string)
    requires |r| == |cols| && l in cols
    ensures Cell(cols, CoerceCell(IndexOf(cols, l), r), l) == ToNumeric(Cell(cols, r, l))
    ensures m != l ==> Cell(cols, CoerceCell(IndexOf(cols, l), r), m) == Cell(cols, r, m)
  {
    if m != l && m in cols {
      assert IndexOf(cols, m) != IndexOf(cols, l);
    }
  }

  /** Coercing a column twice is coercing it once. */
  lemma CoerceColumnIdempotent(t: Table, l: string)
    ensures CoerceColumn(CoerceColumn(t, l), l) == CoerceColumn(t, l)
  {
    var c := CoerceColumn(t, l);
    var j := IndexOf(t.columns, l);
    forall i | 0 <= i < |t.rows|
      ensures CoerceColumn(c, l).rows[i] == c.rows[i]
    {
      ToNumericIdempotent(if j < |t.rows[i]| then t.rows[i][j] else Null);
    }
  }
}
