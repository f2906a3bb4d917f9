/**
 * The data frame the dashboard script mutates step by step between reading
 * the file and drawing the sidebar, and again when it coerces the total
 * column before ranking the states.
 */
module Frames {
  import opened Wrappers
  import opened Tables
  import opened Schema

  class DataFrame {
    var columns: seq<string>
    var rows: seq<Row>

    /** Every row has one cell per column. */
    ghost predicate Valid()
      reads this
    {
      WellFormed(Table(columns, rows))
    }

    /** The frame's current contents as a value. */
    function View(): Table
      reads this
    {
      Table(columns, rows)
    }

    /** The frame as the file reader produced it. */
    constructor (t: Table)
      requires WellFormed(t)
      ensures Valid() && View() == t
    {
      columns := t.columns;
      rows := t.rows;
    }

    /** `df.columns = df.columns.str.strip()...str.upper()`. */
    method NormalizeColumns()
      requires Valid()
      modifies this
      ensures Valid()
      ensures columns == NormalizeLabels(old(columns)) && rows == old(rows)
    {
      columns := NormalizeLabels(columns);
    }

    /** `df.rename(columns=rename_map, inplace=True)`. */
    method RenameColumns()
      requires Valid()
      modifies this
      ensures Valid()
      ensures columns == RenameLabels(old(columns)) && rows == old(rows)
    {
      columns := RenameLabels(columns);
    }

    /** The two conditional column assignments `df['DISTRICT'] = 'ALL'` and `df['YEAR'] = 2012`. */
    method BackfillDimensions()
      requires Valid()
      modifies this
      ensures Valid()
      ensures View() == Backfill(old(View()))
    {
      var b := Backfill(View());
      columns, rows := b.columns, b.rows;
    }

    /** `df['YEAR'] = pd.to_numeric(df['YEAR'], errors='coerce')`. */
    method CoerceYear()
      requires Valid()
      modifies this
      ensures Valid()
      ensures View() == CoerceColumn(old(View()), YearCol)
    {
      rows := CoerceColumn(View(), YearCol).rows;
    }

    /** `df = df.dropna(subset=['STATE/UT', 'DISTRICT', 'YEAR'])`. */
    method DropIncompleteRows()
      requires Valid()
      modifies this
      ensures Valid()
      ensures View() == Schema.DropIncomplete(old(View()))
    {
      rows := Schema.DropIncomplete(View()).rows;
    }

    /** `df['TOTAL IPC CRIMES'] = pd.to_numeric(df['TOTAL IPC CRIMES'], errors='coerce')`. */
    method CoerceTotal()
      requires Valid()
      modifies this
      ensures Valid()
      ensures View() == CoerceColumn(old(View()), TotalCol)
    {
      rows := CoerceColumn(View(), TotalCol).rows;
    }
  }

  /** The script from the header clean-up to the cleaning of the dimension
      values, run on the frame in place: it halts exactly when `Prepare`
      does, and otherwise leaves the frame holding `Prepare`'s table. */
  method PrepareFrame(df: DataFrame) returns (outcome: Outcome<Error>)
    requires df.Valid()
    modifies df
    ensures df.Valid()
    ensures outcome.Fail? <==> Prepare(old(df.View())).Failure?
    ensures outcome.Pass? ==> df.View() == Prepare(old(df.View())).value && Prepared(df.View())
  {
    df.NormalizeColumns();
    df.RenameColumns();
    df.BackfillDimensions();
    if !HasRequired(df.columns) {
      return Fail(MissingRequiredColumns);
    }
    df.CoerceYear();
    df.DropIncompleteRows();
    return Pass;
  }
}
