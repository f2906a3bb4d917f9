/**
 * Two worked examples, computed on the model: a one-row table for North
 * Goa in 2012, from its raw headers to its totals, and a state-only table
 * that gains the two backfilled dimension columns.
 */
module Scenarios {
  import opened Wrappers
  import opened Text
  import opened Seqs
  import opened Tables
  import opened Schema
  import opened Views

  /** The headers as the CSV file spells them. */
  const Raw: seq<string> := [RawState, RawDistrict, RawYear, RawMurder, RawRape]
  const RawState := "States/UTs"
  const RawDistrict := "District"
  const RawYear := "Year"
  const RawMurder := "Murder"
  const RawRape := "Rape"

  /** The same headers after the header clean-up. */
  const Normalized: seq<string> := ["STATES/UTS", "DISTRICT", "YEAR", "MURDER", "RAPE"]

  /** The same headers after the rename. */
  const Canonical: seq<string> := ["STATE/UT", "DISTRICT", "YEAR", "MURDER", "RAPE"]
  const GoaRow: Row := [Str("Goa"), Str("North Goa"), Num(2012), Num(5), Num(2)]

  /** Each raw header holds no line break and neither starts nor ends
      with whitespace, so the header clean-up only upper-cases it; the
      upper-case form is checked one position at a time. */
  lemma UpperStates()
    ensures Upper("States/UTs") == "STATES/UTS"
  {
    var u := Upper("States/UTs");
    forall i | 0 <= i < 10
      ensures u[i] == "STATES/UTS"[i]
    {
      if i == 0 {} else if i == 1 {} else if i == 2 {} else if i == 3 {} else if i == 4 {} else if i == 5 {} else if i == 6 {} else if i == 7 {} else if i == 8 {} else {}
    }
  }

  lemma NormalizeStates()
    ensures NormalizeLabel(RawState) == "STATES/UTS"
  {
    NormalizeUpper(RawState);
    UpperStates();
  }

  lemma UpperDistrict()
    ensures Upper("District") == "DISTRICT"
  {
    var u := Upper("District");
    forall i | 0 <= i < 8
      ensures u[i] == "DISTRICT"[i]
    {
      if i == 0 {} else if i == 1 {} else if i == 2 {} else if i == 3 {} else if i == 4 {} else if i == 5 {} else if i == 6 {} else {}
    }
  }

  lemma NormalizeDistrict()
    ensures NormalizeLabel(RawDistrict) == "DISTRICT"
  {
    NormalizeUpper(RawDistrict);
    UpperDistrict();
  }

  lemma UpperYear()
    ensures Upper("Year") == "YEAR"
  {
    var u := Upper("Year");
    forall i | 0 <= i < 4
      ensures u[i] == "YEAR"[i]
    {
      if i == 0 {} else if i == 1 {} else if i == 2 {} else {}
    }
  }

  lemma NormalizeYear()
    ensures NormalizeLabel(RawYear) == "YEAR"
  {
    NormalizeUpper(RawYear);
    UpperYear();
  }

  lemma UpperMurder()
    ensures Upper("Murder") == "MURDER"
  {
    var u := Upper("Murder");
    forall i | 0 <= i < 6
      ensures u[i] == "MURDER"[i]
    {
      if i == 0 {} else if i == 1 {} else if i == 2 {} else if i == 3 {} else if i == 4 {} else {}
    }
  }

  lemma NormalizeMurder()
    ensures NormalizeLabel(RawMurder) == "MURDER"
  {
    NormalizeUpper(RawMurder);
    UpperMurder();
  }

  lemma UpperRape()
    ensures Upper("Rape") == "RAPE"
  {
    var u := Upper("Rape");
    forall i | 0 <= i < 4
      ensures u[i] == "RAPE"[i]
    {
      if i == 0 {} else if i == 1 {} else if i == 2 {} else {}
    }
  }

  lemma NormalizeRape()
    ensures NormalizeLabel(RawRape) == "RAPE"
  {
    NormalizeUpper(RawRape);
    UpperRape();
  }

  /** The header clean-up turns the raw headers into the normalised ones. */
  lemma NormalizeGoa()
    ensures NormalizeLabels(Raw) == Normalized
  {
    forall j | 0 <= j < |Raw|
      ensures NormalizeLabel(Raw[j]) == Normalized[j]
    {
      if j == 0 {
        assert Raw[0] == RawState;
        NormalizeStates();
      } else if j == 1 {
        assert Raw[1] == RawDistrict;
        NormalizeDistrict();
      } else if j == 2 {
        assert Raw[2] == RawYear;
        NormalizeYear();
      } else if j == 3 {
        assert Raw[3] == RawMurder;
        NormalizeMurder();
      } else {
        assert Raw[4] == RawRape;
        NormalizeRape();
      }
    }
    LabelsNormalizeTo(Raw, Normalized);
  }

  /** Labels that normalise one by one to `ns` normalise together to `ns`. */
  lemma LabelsNormalizeTo(cols: seq<string>, ns: seq<string>)
    requires |cols| == |ns| && forall j :: 0 <= j < |cols| ==> NormalizeLabel(cols[j]) == ns[j]
    ensures NormalizeLabels(cols) == ns
  {
  }

  /** The rename turns the state synonym into `STATE/UT` and keeps the rest. */
  lemma RenameGoa()
    ensures RenameLabels(Normalized) == Canonical
  {
    var r := RenameLabels(Normalized);
    assert r[0] == "STATE/UT";
    assert r[3] == "MURDER";
  }

  /** Clean-up and rename together take the raw headers to the canonical ones. */
  lemma GoaHeaders()
    ensures RenameLabels(NormalizeLabels(Raw)) == Canonical
  {
    NormalizeGoa();
    RenameGoa();
  }

  /** The canonical headers start with five different letters. */
  lemma CanonicalInitials()
    ensures forall i :: 0 <= i < |Canonical| ==> |Canonical[i]| > 0 && Canonical[i][0] == "SDYMR"[i]
  {
  }

  /** The canonical headers are distinct, so each is found at its own position. */
  lemma GoaIndex(j: nat)
    requires j < |Canonical|
    ensures IndexOf(Canonical, Canonical[j]) == j
  {
    CanonicalInitials();
    IndexOfAt(Canonical, Canonical[j], j);
  }

  /** The cells of the Goa row under the two crime columns. */
  lemma GoaCells()
    ensures Cell(Canonical, GoaRow, "MURDER") == Num(5) && Cell(Canonical, GoaRow, "RAPE") == Num(2)
  {
    GoaIndex(3);
    GoaIndex(4);
  }

  /** The year cell is already a number, so coercing the year column changes nothing. */
  lemma GoaCoerce()
    ensures CoerceColumn(Table(Canonical, [GoaRow]), YearCol) == Table(Canonical, [GoaRow])
  {
    GoaIndex(2);
    assert CoerceCell(2, GoaRow) == GoaRow by {
      assert ToNumeric(GoaRow[2]) == GoaRow[2];
    }
    var c := CoerceColumn(Table(Canonical, [GoaRow]), YearCol);
    assert |c.rows| == 1 && c.rows[0] == CoerceCell(2, GoaRow);
  }

  /** The row has all three dimensions, so dropping incomplete rows keeps it. */
  lemma GoaComplete()
    ensures DropIncomplete(Table(Canonical, [GoaRow])) == Table(Canonical, [GoaRow])
  {
    GoaIndex(0);
    GoaIndex(1);
    GoaIndex(2);
    assert Complete(Canonical)(GoaRow);
    WhereAll([GoaRow], Complete(Canonical));
  }

  /** The one row survives the cleaning unchanged. */
  lemma GoaClean()
    ensures Clean(Table(Canonical, [GoaRow])) == Table(Canonical, [GoaRow])
  {
    GoaCoerce();
    GoaComplete();
  }

  /** The raw table has one cell per header. */
  lemma GoaWellFormed()
    ensures WellFormed(Table(Raw, [GoaRow]))
  {
    assert |GoaRow| == |Raw|;
  }

  /** Clean-up, rename and backfill take the file's own headers to the
      canonical ones and leave the row alone. */
  lemma GoaStandardize()
    ensures WellFormed(Table(Raw, [GoaRow]))
    ensures Standardize(Table(Raw, [GoaRow])) == Table(Canonical, [GoaRow])
  {
    GoaWellFormed();
    var t := Table(Canonical, [GoaRow]);
    assert DistrictCol == Canonical[1] && YearCol == Canonical[2];
    BackfillNoop(t);
    GoaHeaders();
  }

  /** The canonical headers pass the required-column check. */
  lemma GoaRequired()
    ensures HasRequired(Canonical)
  {
    assert StateCol == Canonical[0] && DistrictCol == Canonical[1] && YearCol == Canonical[2];
  }

  /** From the file's own headers, the preparation yields the canonical
      headers over the unchanged row. */
  lemma GoaPrepare()
    ensures WellFormed(Table(Raw, [GoaRow]))
    ensures Prepare(Table(Raw, [GoaRow])) == Success(Table(Canonical, [GoaRow]))
  {
    GoaRequired();
    GoaClean();
    GoaStandardize();
  }

  /** Choosing Goa, North Goa and 2012 selects the row. */
  lemma GoaFilter()
    ensures Filter(Table(Canonical, [GoaRow]), Str("Goa"), Str("North Goa"), Num(2012)) == [GoaRow]
  {
    GoaIndex(0);
    GoaIndex(1);
    GoaIndex(2);
    assert Matches(Canonical, Str("Goa"), Str("North Goa"), Num(2012))(GoaRow);
    WhereAll([GoaRow], Matches(Canonical, Str("Goa"), Str("North Goa"), Num(2012)));
  }

  /** Both crime columns hold numbers only. */
  lemma GoaNumeric()
    ensures NumericColumn(Table(Canonical, [GoaRow]), "MURDER")
    ensures NumericColumn(Table(Canonical, [GoaRow]), "RAPE")
  {
    GoaCells();
  }

  /** Over the one row, MURDER sums to 5 and RAPE to 2. */
  lemma GoaSums()
    ensures ColumnSum(Canonical, [GoaRow], "MURDER") == 5
    ensures ColumnSum(Canonical, [GoaRow], "RAPE") == 2
  {
    GoaCells();
    assert [GoaRow][1..] == [];
  }

  /** Over the one row, selecting RAPE alone gives its total. */
  lemma GoaRapeTotal()
    ensures Totals(Table(Canonical, [GoaRow]), [GoaRow], ["RAPE"]) == [("RAPE", 2)]
  {
    GoaNumeric();
    GoaSums();
    TotalsCons(Table(Canonical, [GoaRow]), [GoaRow], "RAPE", []);
    assert ["RAPE"] + [] == ["RAPE"];
  }

  /** The MURDER total comes first, ahead of the totals of the rest of the selection. */
  lemma GoaMurderFirst()
    ensures Totals(Table(Canonical, [GoaRow]), [GoaRow], ["MURDER", "RAPE"]) == [("MURDER", 5)] + Totals(Table(Canonical, [GoaRow]), [GoaRow], ["RAPE"])
  {
    GoaNumeric();
    GoaSums();
    TotalsCons(Table(Canonical, [GoaRow]), [GoaRow], "MURDER", ["RAPE"]);
    assert ["MURDER"] + ["RAPE"] == ["MURDER", "RAPE"];
  }

  /** With MURDER and RAPE selected the totals are 5 and 2, in that order. */
  lemma GoaTotalsList()
    ensures Totals(Table(Canonical, [GoaRow]), [GoaRow], ["MURDER", "RAPE"]) == [("MURDER", 5), ("RAPE", 2)]
  {
    GoaMurderFirst();
    GoaRapeTotal();
    assert [("MURDER", 5)] + [("RAPE", 2)] == [("MURDER", 5), ("RAPE", 2)];
  }

  /** The totals panel for the selected row shows those two totals. */
  lemma GoaTotals()
    ensures TotalsView(Table(Canonical, [GoaRow]), [GoaRow], ["MURDER", "RAPE"]) == Some([("MURDER", 5), ("RAPE", 2)])
  {
    GoaTotalsList();
  }

  /** Both totals are positive, so both are slices of the pie. */
  lemma GoaPie()
    ensures PieSlices([("MURDER", 5), ("RAPE", 2)]) == [("MURDER", 5), ("RAPE", 2)]
  {
    WhereAll([("MURDER", 5), ("RAPE", 2)], Positive);
  }

  /** The raw headers of a state-only file, as the file spells them. */
  const RawStateOnly: seq<string> := [RawStateWord, RawMurder]
  const RawStateWord := "State"

  lemma UpperState()
    ensures Upper("State") == "STATE"
  {
    var u := Upper("State");
    forall i | 0 <= i < 5
      ensures u[i] == "STATE"[i]
    {
      if i == 0 {} else if i == 1 {} else if i == 2 {} else if i == 3 {} else {}
    }
  }

  lemma NormalizeStateWord()
    ensures NormalizeLabel(RawStateWord) == "STATE"
  {
    NormalizeUpper(RawStateWord);
    UpperState();
  }

  /** Both raw headers only upper-case under the header clean-up. */
  lemma NormalizeStateOnly()
    ensures NormalizeLabels(RawStateOnly) == ["STATE", "MURDER"]
  {
    forall j | 0 <= j < |RawStateOnly|
      ensures NormalizeLabel(RawStateOnly[j]) == ["STATE", "MURDER"][j]
    {
      if j == 0 {
        assert RawStateOnly[0] == RawStateWord;
        NormalizeStateWord();
      } else {
        assert RawStateOnly[1] == RawMurder;
        NormalizeMurder();
      }
    }
    LabelsNormalizeTo(RawStateOnly, ["STATE", "MURDER"]);
  }

  /** The rename turns `STATE` into `STATE/UT` and keeps `MURDER`. */
  lemma RenameStateOnly()
    ensures RenameLabels(["STATE", "MURDER"]) == ["STATE/UT", "MURDER"]
  {
    var r := RenameLabels(["STATE", "MURDER"]);
    assert r[0] == "STATE/UT";
    assert r[1] == "MURDER";
  }

  /** Clean-up and rename take `State, Murder` to `STATE/UT, MURDER`. */
  lemma StateOnlyHeaders()
    ensures RenameLabels(NormalizeLabels(RawStateOnly)) == ["STATE/UT", "MURDER"]
  {
    NormalizeStateOnly();
    RenameStateOnly();
  }

  lemma StateOnlyWellFormed(goa: Value, m: Value)
    ensures WellFormed(Table(RawStateOnly, [[goa, m]]))
  {
    assert |[goa, m]| == |RawStateOnly|;
  }

  /** From the file's own headers, a state-only table is renamed and
      gains `DISTRICT = "ALL"` and `YEAR = 2012`. */
  lemma StateOnlyStandardize(goa: Value, m: Value)
    ensures WellFormed(Table(RawStateOnly, [[goa, m]]))
    ensures Standardize(Table(RawStateOnly, [[goa, m]])) ==
            Table(["STATE/UT", "MURDER", "DISTRICT", "YEAR"], [[goa, m, Str("ALL"), Num(2012)]])
  {
    StateOnlyWellFormed(goa, m);
    StateOnlyHeaders();
    StateOnlyBackfill(goa, m);
  }

  /** A table with only a state and a crime column gains `DISTRICT = "ALL"` and `YEAR = 2012`. */
  lemma StateOnlyBackfill(goa: Value, m: Value)
    ensures Backfill(Table(["STATE/UT", "MURDER"], [[goa, m]])) ==
            Table(["STATE/UT", "MURDER", "DISTRICT", "YEAR"], [[goa, m, Str("ALL"), Num(2012)]])
  {
    var t := Table(["STATE/UT", "MURDER"], [[goa, m]]);
    assert DistrictCol !in t.columns && YearCol !in t.columns;
    assert Backfill(t).rows[0] == [goa, m, Str("ALL"), Num(2012)];
  }
}
