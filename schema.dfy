/**
 * The steps that turn a freshly read table into the canonical one the
 * dashboard works on: header normalisation, the synonym rename, the
 * backfill of the optional dimension columns, the required-column check
 * and the cleaning of the dimension values.
 */
module Schema {
  import opened Wrappers
  import opened Text
  import opened Seqs
  import opened Tables

  const StateCol := "STATE/UT"
  const DistrictCol := "DISTRICT"
  const YearCol := "YEAR"
  const TotalCol := "TOTAL IPC CRIMES"

  /** The value a backfilled `DISTRICT` column holds in every row. */
  const DefaultDistrict := Str("ALL")
  /** The value a backfilled `YEAR` column holds in every row. */
  const DefaultYear := Num(2012)

  // ---------------------------------------------------------------- headers

  /** A label as the header clean-up leaves it: no line breaks, no ASCII
      lower-case letter, and no whitespace at either end. */
  ghost predicate IsNormalLabel(l: string) {
    && (forall i :: 0 <= i < |l| ==> l[i] != '\n' && l[i] != '\r' && !IsLower(l[i]))
    && (|l| > 0 ==> !IsSpace(l[0]) && !IsSpace(l[|l| - 1]))
  }

  /** `label.strip().replace('\n', '').replace('\r', '').upper()`. */
  function NormalizeLabel(h: string): (l: string)
    ensures IsNormalLabel(l)
  {
    var noReturn := Remove(Remove(Strip(h), '\n'), '\r');
    RemoveTwice(Strip(h), '\n', '\r');
    CleanedIsNormal(noReturn, Upper(noReturn));
    Upper(noReturn)
  }

  /** Upper-casing a string with no line break and no whitespace at its
      ends gives a label in normal form. */
  lemma CleanedIsNormal(c: string, u: string)
    requires u == Upper(c)
    requires '\n' !in c && '\r' !in c
    requires |c| > 0 ==> !IsSpace(c[0]) && !IsSpace(c[|c| - 1])
    ensures IsNormalLabel(u)
  {
    forall i | 0 <= i < |u|
      ensures u[i] != '\n' && u[i] != '\r'
    {
      if !IsLower(c[i]) {
        assert c[i] in c;
      }
    }
  }

  /** A header with no line break and no whitespace at either end is only upper-cased. */
  lemma NormalizeUpper(h: string)
    requires '\n' !in h && '\r' !in h
    requires |h| > 0 ==> !IsSpace(h[0]) && !IsSpace(h[|h| - 1])
    ensures NormalizeLabel(h) == Upper(h)
  {
    StripFixed(h);
    RemoveAbsent(h, '\n');
    RemoveAbsent(h, '\r');
  }

  /** A label already in normal form is left as it is. */
  lemma NormalLabelFixed(l: string)
    requires IsNormalLabel(l)
    ensures NormalizeLabel(l) == l
  {
    assert '\n' !in l && '\r' !in l;
    NormalizeUpper(l);
    UpperFixed(l);
  }

  /** Normalising twice is normalising once. */
  lemma NormalizeIdempotent(h: string)
    ensures NormalizeLabel(NormalizeLabel(h)) == NormalizeLabel(h)
  {
    NormalLabelFixed(NormalizeLabel(h));
  }

  /** The header clean-up applied to every label, in place. */
  function NormalizeLabels(cols: seq<string>): (r: seq<string>)
    ensures |r| == |cols|
    ensures forall i :: 0 <= i < |cols| ==> r[i] == NormalizeLabel(cols[i])
  {
    seq(|cols|, i requires 0 <= i < |cols| => NormalizeLabel(cols[i]))
  }

  // ---------------------------------------------------------------- rename

  /** The fixed synonym table, keyed by normalised label. */
  const RenameMap: map<string, string> := map[
    "STATES/UTS" := StateCol,
    "STATE" := StateCol,
    "DISTRICT" := DistrictCol,
    "YEAR" := YearCol,
    "TOTAL COGNIZABLE IPC CRIMES" := TotalCol
  ]

  /** The image of one label under the synonym table. */
  function RenameLabel(l: string): string {
    if l in RenameMap then RenameMap[l] else l
  }

  /** `df.rename(columns=RenameMap)`: each label that is a key becomes its
      image, every other label stays; the number and order of columns are
      kept, so two synonyms both present yield a repeated label. */
  function RenameLabels(cols: seq<string>): (r: seq<string>)
    ensures |r| == |cols|
    ensures forall i :: 0 <= i < |cols| && cols[i] in RenameMap ==> r[i] == RenameMap[cols[i]]
    ensures forall i :: 0 <= i < |cols| && cols[i] !in RenameMap ==> r[i] == cols[i]
    ensures "STATES/UTS" !in r && "STATE" !in r && "TOTAL COGNIZABLE IPC CRIMES" !in r
    ensures StateCol in r <==> StateCol in cols || "STATE" in cols || "STATES/UTS" in cols
    ensures TotalCol in r <==> TotalCol in cols || "TOTAL COGNIZABLE IPC CRIMES" in cols
  {
    seq(|cols|, i requires 0 <= i < |cols| => RenameLabel(cols[i]))
  }

  /** Renaming twice is renaming once: no image is itself a key with another image. */
  lemma RenameIdempotent(cols: seq<string>)
    ensures RenameLabels(RenameLabels(cols)) == RenameLabels(cols)
  {
  }

  // ---------------------------------------------------------------- backfill

  /** `df[l] = v`: a new last column holding `v` in every row. */
  function AddColumn(t: Table, l: string, v: Value): (t': Table)
    ensures t'.columns == t.columns + [l]
    ensures |t'.rows| == |t.rows|
    ensures forall i :: 0 <= i < |t.rows| ==> t'.rows[i] == t.rows[i] + [v]
    ensures WellFormed(t) ==> WellFormed(t')
  {
    assert WellFormed(t) ==> forall i :: 0 <= i < |t.rows| ==> |t.rows[i]| == |t.columns| by {
      if WellFormed(t) {
        forall i | 0 <= i < |t.rows| ensures |t.rows[i]| == |t.columns| {
          assert t.rows[i] in t.rows;
        }
      }
    }
    Table(t.columns + [l], seq(|t.rows|, i requires 0 <= i < |t.rows| => t.rows[i] + [v]))
  }

  /** Labels already present are found where they were after columns are appended. */
  lemma IndexOfAppend(cols: seq<string>, extra: seq<string>, l: string)
    ensures l in cols ==> IndexOf(cols + extra, l) == IndexOf(cols, l)
    ensures l !in cols ==> IndexOf(cols + extra, l) == |cols| + IndexOf(extra, l)
  {
    var j := IndexOf(cols + extra, l);
    if l in cols {
      assert (cols + extra)[IndexOf(cols, l)] == l;
    } else {
      if l in extra {
        assert (cols + extra)[|cols| + IndexOf(extra, l)] == l;
        assert forall i :: 0 <= i < IndexOf(extra, l) ==> (cols + extra)[|cols| + i] == extra[i];
      }
    }
  }

  /** The labels the backfill appends to `cols`, in the order it appends them. */
  function MissingDimensions(cols: seq<string>): seq<string> {
    (if DistrictCol in cols then [] else [DistrictCol]) + (if YearCol in cols then [] else [YearCol])
  }

  /** The cells the backfill appends to every row of a table with labels `cols`. */
  function DefaultCells(cols: seq<string>): seq<Value> {
    (if DistrictCol in cols then [] else [DefaultDistrict]) + (if YearCol in cols then [] else [DefaultYear])
  }

  /** Adds `DISTRICT = "ALL"` when there is no `DISTRICT` column, then
      `YEAR = 2012` when there is no `YEAR` column. */
  function Backfill(t: Table): (b: Table)
    requires WellFormed(t)
    ensures WellFormed(b)
    ensures b.columns == t.columns + MissingDimensions(t.columns)
    ensures |b.rows| == |t.rows|
    ensures forall i :: 0 <= i < |t.rows| ==> b.rows[i] == t.rows[i] + DefaultCells(t.columns)
  {
    var withDistrict := if DistrictCol in t.columns then t else AddColumn(t, DistrictCol, DefaultDistrict);
    assert YearCol in withDistrict.columns <==> YearCol in t.columns;
    var withYear := if YearCol in withDistrict.columns then withDistrict else AddColumn(withDistrict, YearCol, DefaultYear);
    BackfillSteps(t, withDistrict, withYear);
    withYear
  }

  /** The two appends of the backfill together append the missing
      dimensions and their default cells. */
  lemma BackfillSteps(t: Table, withDistrict: Table, withYear: Table)
    requires withDistrict.columns == t.columns + (if DistrictCol in t.columns then [] else [DistrictCol])
    requires |withDistrict.rows| == |t.rows|
    requires forall i :: 0 <= i < |t.rows| ==>
      withDistrict.rows[i] == t.rows[i] + (if DistrictCol in t.columns then [] else [DefaultDistrict])
    requires YearCol in withDistrict.columns <==> YearCol in t.columns
    requires withYear.columns == withDistrict.columns + (if YearCol in t.columns then [] else [YearCol])
    requires |withYear.rows| == |t.rows|
    requires forall i :: 0 <= i < |t.rows| ==>
      withYear.rows[i] == withDistrict.rows[i] + (if YearCol in t.columns then [] else [DefaultYear])
    ensures withYear.columns == t.columns + MissingDimensions(t.columns)
    ensures forall i :: 0 <= i < |t.rows| ==> withYear.rows[i] == t.rows[i] + DefaultCells(t.columns)
  {
    assert withYear.columns == t.columns + MissingDimensions(t.columns);
  }

  /** Every label of the input reads in every row as it did before the backfill. */
  lemma BackfillKeepsCells(t: Table, i: nat, l: string)
    requires WellFormed(t) && i < |t.rows| && l in t.columns
    ensures Cell(Backfill(t).columns, Backfill(t).rows[i], l) == Cell(t.columns, t.rows[i], l)
  {
    var r := Backfill(t).rows[i];
    assert t.rows[i] in t.rows;
    IndexOfAppend(t.columns, MissingDimensions(t.columns), l);
    assert r[IndexOf(t.columns, l)] == t.rows[i][IndexOf(t.columns, l)];
  }

  /** After the backfill both optional dimensions are columns. */
  lemma BackfillHasDimensions(t: Table)
    requires WellFormed(t)
    ensures DistrictCol in Backfill(t).columns && YearCol in Backfill(t).columns
  {
    var b := Backfill(t);
    if DistrictCol !in t.columns {
      assert b.columns[|t.columns|] == DistrictCol;
    }
    if YearCol !in t.columns {
      assert b.columns[|b.columns| - 1] == YearCol;
    }
  }

  /** A label that only the appended columns carry reads, in a row of the
      original width extended by the appended cells, as its appended cell. */
  lemma CellAppended(cols: seq<string>, extra: seq<string>, r: Row, cells: Row, l: string)
    requires |r| == |cols| && |cells| == |extra| && l !in cols && l in extra
    ensures Cell(cols + extra, r + cells, l) == cells[IndexOf(extra, l)]
  {
    IndexOfAppend(cols, extra, l);
    assert (r + cells)[|cols| + IndexOf(extra, l)] == cells[IndexOf(extra, l)];
  }

  /** A backfilled `DISTRICT` column holds `"ALL"` in every row. */
  lemma BackfillDistrictCells(t: Table, i: nat)
    requires WellFormed(t) && i < |t.rows| && DistrictCol !in t.columns
    ensures Cell(Backfill(t).columns, Backfill(t).rows[i], DistrictCol) == DefaultDistrict
  {
    var extra := MissingDimensions(t.columns);
    assert t.rows[i] in t.rows;
    assert extra[0] == DistrictCol;
    CellAppended(t.columns, extra, t.rows[i], DefaultCells(t.columns), DistrictCol);
  }

  /** A backfilled `YEAR` column holds 2012 in every row. */
  lemma BackfillYearCells(t: Table, i: nat)
    requires WellFormed(t) && i < |t.rows| && YearCol !in t.columns
    ensures Cell(Backfill(t).columns, Backfill(t).rows[i], YearCol) == DefaultYear
  {
    var extra := MissingDimensions(t.columns);
    var cells := DefaultCells(t.columns);
    assert t.rows[i] in t.rows;
    var k := if DistrictCol in t.columns then 0 else 1;
    assert extra[k] == YearCol && cells[k] == DefaultYear;
    assert IndexOf(extra, YearCol) == k;
    CellAppended(t.columns, extra, t.rows[i], cells, YearCol);
  }

  /** A table that already has both optional dimensions is left as it is. */
  lemma BackfillNoop(t: Table)
    requires WellFormed(t) && DistrictCol in t.columns && YearCol in t.columns
    ensures Backfill(t) == t
  {
    var b := Backfill(t);
    assert b.columns == t.columns;
    assert forall i :: 0 <= i < |t.rows| ==> b.rows[i] == t.rows[i];
  }

  // ---------------------------------------------------------------- schema check

  /** `{'STATE/UT', 'DISTRICT', 'YEAR'}.issubset(df.columns)`. */
  predicate HasRequired(cols: seq<string>) {
    StateCol in cols && DistrictCol in cols && YearCol in cols
  }

  /** The check is the subset test on the set of labels. */
  lemma HasRequiredSubset(cols: seq<string>)
    ensures HasRequired(cols) <==> {StateCol, DistrictCol, YearCol} <= set l | l in cols
  {
  }

  /** After the backfill only a missing `STATE/UT` can fail the check. */
  lemma RequiredAfterBackfill(t: Table)
    requires WellFormed(t)
    ensures HasRequired(Backfill(t).columns) <==> StateCol in t.columns
  {
    var extra := MissingDimensions(t.columns);
    assert forall l :: l in extra ==> l == DistrictCol || l == YearCol;
  }

  // ---------------------------------------------------------------- cleaning

  /** The row test behind `dropna(subset=['STATE/UT', 'DISTRICT', 'YEAR'])`. */
  function Complete(cols: seq<string>): Row -> bool {
    r => Cell(cols, r, StateCol) != Null && Cell(cols, r, DistrictCol) != Null && Cell(cols, r, YearCol) != Null
  }

  /** `df.dropna(subset=['STATE/UT', 'DISTRICT', 'YEAR'])`. */
  function DropIncomplete(t: Table): (d: Table)
    ensures d.columns == t.columns
    ensures WellFormed(t) ==> WellFormed(d)
  {
    Table(t.columns, Where(t.rows, Complete(t.columns)))
  }

  /** `YEAR` coerced to a number, then the rows missing a dimension dropped:
      the labels are kept, rows are only dropped, and a well-formed table
      stays well-formed. */
  function Clean(t: Table): (c: Table)
    ensures c.columns == t.columns
    ensures |c.rows| <= |t.rows|
    ensures WellFormed(t) ==> WellFormed(c)
  {
    DropIncomplete(CoerceColumn(t, YearCol))
  }

  /** The rows of the input that the cleaning keeps: state and district
      present, and a year that parses as a number. */
  function Survives(cols: seq<string>): Row -> bool {
    r => Cell(cols, r, StateCol) != Null && Cell(cols, r, DistrictCol) != Null && ToNumeric(Cell(cols, r, YearCol)).Num?
  }

  /** The table the rest of the dashboard relies on: the three dimensions
      are columns, and in every row they are present and the year is a number. */
  ghost predicate Prepared(t: Table) {
    && WellFormed(t)
    && HasRequired(t.columns)
    && forall r :: r in t.rows ==>
         Cell(t.columns, r, StateCol) != Null && Cell(t.columns, r, DistrictCol) != Null && Cell(t.columns, r, YearCol).Num?
  }

  /** The cleaning keeps, in their original order and without merging any,
      exactly the rows that survive, each with its year coerced. */
  lemma CleanKeeps(t: Table)
    requires WellFormed(t) && HasRequired(t.columns)
    ensures Clean(t).columns == t.columns
    ensures Clean(t).rows == Map(CoerceAt(IndexOf(t.columns, YearCol)), Where(t.rows, Survives(t.columns)))
  {
    var cols := t.columns;
    var f := CoerceAt(IndexOf(cols, YearCol));
    forall r | r in t.rows
      ensures Survives(cols)(r) == Complete(cols)(f(r))
    {
      CoerceCellReads(cols, r, YearCol, StateCol);
      CoerceCellReads(cols, r, YearCol, DistrictCol);
    }
    WhereMap(f, t.rows, Complete(cols), Survives(cols));
  }

  /** Every row that survives the cleaning has its dimensions present and a numeric year. */
  lemma CleanPrepared(t: Table)
    requires WellFormed(t) && HasRequired(t.columns)
    ensures Prepared(Clean(t))
  {
    var cols := t.columns;
    var c := CoerceColumn(t, YearCol);
    forall r | r in Clean(t).rows
      ensures Cell(cols, r, YearCol).Num?
    {
      var i :| 0 <= i < |c.rows| && c.rows[i] == r;
      assert t.rows[i] in t.rows;
      CoerceCellReads(cols, t.rows[i], YearCol, YearCol);
    }
  }

  // ---------------------------------------------------------------- the whole preparation

  datatype Error = MissingRequiredColumns

  /** Header clean-up, rename and backfill: the rows are kept, each
      extended by the cells of the dimensions it lacked, both optional
      dimensions are then columns, and the state column is one exactly
      when some raw header normalises to a state synonym. */
  function Standardize(raw: Table): (s: Table)
    requires WellFormed(raw)
    ensures WellFormed(s)
    ensures |s.rows| == |raw.rows|
    ensures forall i :: 0 <= i < |raw.rows| ==> raw.rows[i] <= s.rows[i]
    ensures DistrictCol in s.columns && YearCol in s.columns
    ensures StateCol in s.columns <==> exists h :: h in raw.columns && NormalizeLabel(h) in StateSynonyms
  {
    var renamed := Table(RenameLabels(NormalizeLabels(raw.columns)), raw.rows);
    BackfillHasDimensions(renamed);
    StateAfterRename(raw.columns);
    StateNotBackfilled(renamed.columns);
    Backfill(renamed)
  }

  /** The backfill never adds the state column. */
  lemma StateNotBackfilled(cols: seq<string>)
    ensures StateCol !in MissingDimensions(cols)
  {
    assert StateCol != DistrictCol && StateCol != YearCol;
  }

  /** The normalised spellings under which a header is taken as the state column. */
  const StateSynonyms: set<string> := {StateCol, "STATE", "STATES/UTS"}

  /** The state column is present after the rename exactly when some
      header normalises to one of its synonyms. */
  lemma StateAfterRename(cols: seq<string>)
    ensures StateCol in RenameLabels(NormalizeLabels(cols))
      <==> exists h :: h in cols && NormalizeLabel(h) in StateSynonyms
  {
    var n := NormalizeLabels(cols);
    SynonymRenamed(n);
    SynonymNormalized(cols, n);
  }

  /** The rename yields the state column exactly when a synonym is present. */
  lemma SynonymRenamed(n: seq<string>)
    ensures StateCol in RenameLabels(n) <==> exists l :: l in n && l in StateSynonyms
  {
    if StateCol in RenameLabels(n) {
      if StateCol in n {
        assert StateCol in StateSynonyms;
      } else if "STATE" in n {
        assert "STATE" in StateSynonyms;
      } else {
        assert "STATES/UTS" in StateSynonyms;
      }
    }
  }

  /** A synonym is among the normalised labels exactly when some header
      normalises to it. */
  lemma SynonymNormalized(cols: seq<string>, n: seq<string>)
    requires n == NormalizeLabels(cols)
    ensures (exists l :: l in n && l in StateSynonyms)
      <==> exists h :: h in cols && NormalizeLabel(h) in StateSynonyms
  {
    MapHits(NormalizeLabel, cols, StateSynonyms);
    assert n == Map(NormalizeLabel, cols);
  }

  /** Everything between reading the file and drawing the sidebar: the
      session halts exactly when no header normalises to a state synonym,
      and otherwise the table is prepared. */
  function Prepare(raw: Table): (r: Result<Table, Error>)
    requires WellFormed(raw)
    ensures r.Failure? <==> forall h :: h in raw.columns ==> NormalizeLabel(h) !in StateSynonyms
    ensures r.Success? ==> Prepared(r.value) && r.value.columns == Standardize(raw).columns
  {
    var s := Standardize(raw);
    var renamed := Table(RenameLabels(NormalizeLabels(raw.columns)), raw.rows);
    RequiredAfterBackfill(renamed);
    StateAfterRename(raw.columns);
    if !HasRequired(s.columns) then
      Failure(MissingRequiredColumns)
    else
      CleanPrepared(s);
      Success(Clean(s))
  }
}
