# India crime dashboard: the table pipeline

This project models the data-handling core of a Streamlit dashboard that explores Indian crime
statistics. The dashboard reads one CSV file into a data frame and then works on it as follows:

1. It normalises the column headers: strip, drop line feeds and carriage returns, upper-case.
2. It renames the synonyms of the state and total columns.
3. It backfills a missing `DISTRICT` column with `"ALL"` and a missing `YEAR` column with `2012`.
4. It halts unless `STATE/UT`, `DISTRICT` and `YEAR` are all columns.
5. It coerces `YEAR` to a number and drops the rows that lack any of the three dimensions.
6. From the cleaned table it builds the sidebar options, the rows for the chosen state, district
   and year, the totals of the chosen crime columns and their pie slices, the five states with the
   largest `TOTAL IPC CRIMES` sums, and the chosen state's sum per year.

The model works on a table of cells:

- A cell is `Null` (missing or NaN), `Num(n)` or `Str(s)`.
- A table is its label sequence plus its rows, a row being one cell per column.
- Labels form a sequence, not a set, because the rename can produce a repeated label.
- A label reads the first column that carries it.

The steps that change the frame in place (lines 31, 41, 45, 49, 62, 63 and 118) are methods of
the class `Frames.DataFrame`. Each is tied to a pure function of the old contents. The views
derived from the frame are pure functions, and the properties the dashboard relies on are
lemmas about those functions. `Dashboard.Session` runs one whole interaction: it prepares the
table read from the file, then computes every panel for the user's choice.

Module layout:

| module | contents |
|---|---|
| `Wrappers` | `Option`, `Result` and `Outcome` |
| `Text` | ASCII strip, character removal, upper-casing, Python's string order |
| `Numbers` | integer parsing and printing (the model of `pd.to_numeric` on text) |
| `Seqs` | selection by predicate (boolean-mask indexing) and `map` |
| `Tables` | cells, tables, label lookup, coercion, column sums |
| `Ordering` | the cell order used by `sorted`, and `sorted(unique())` |
| `Schema` | header clean-up, rename, backfill, required-column check, cleaning |
| `Frames` | the mutable data frame and the preparation run in place |
| `Views` | option lists, crime columns, default crimes, filter, totals, pie slices |
| `Aggregates` | the top-5 state ranking and the yearly trend |
| `Dashboard` | a whole interaction |
| `Scenarios` | two worked examples: a one-row North Goa table from its raw headers, and a state-only table |

## Model

| member | source | states |
|---|---|---|
| Text.Strip | app.py:31 | the result has no ASCII whitespace at either end and is a contiguous piece of the input, with only whitespace cut off on each side |
| Text.Remove | app.py:31 | the character is gone, no other character is lost, the result is no longer than the input, and a first or last character other than it stays in place |
| Text.RemoveCount | app.py:31 | every character other than the removed one is kept exactly as often as it occurs |
| Text.RemoveConcat | app.py:31 | removing from a concatenation is removing from each part, so the kept characters stay in their order |
| Text.RemoveAbsent | app.py:31 | a string without the character is left as it is |
| Text.Upper | app.py:31 | same length; no lower-case letter is left; each lower-case letter becomes its own capital (code point minus 32); every other character is kept |
| Schema.NormalizeUpper | app.py:31 | a header with no line break and no whitespace at either end is only upper-cased |
| Schema.NormalizeLabel | app.py:31 | a normalised header has no line feed or carriage return, no lower-case letter, and no whitespace at either end |
| Schema.NormalizeIdempotent | app.py:31 | normalising a header twice gives the same label as normalising it once |
| Schema.NormalizeLabels | app.py:31 | every label is normalised, in place, and the number of labels is kept |
| Schema.RenameLabels | app.py:34-41 | number and order of labels kept; keys of the map replaced by their images, other labels unchanged; no `STATES/UTS`, `STATE` or `TOTAL COGNIZABLE IPC CRIMES` left; `STATE/UT` and `TOTAL IPC CRIMES` present exactly when they or a synonym were |
| Schema.RenameIdempotent | app.py:34-41 | renaming twice gives the same labels as renaming once |
| Schema.AddColumn | app.py:45 | the new label is appended and every row gains the value as its last cell; a well-formed table stays well-formed |
| Schema.Backfill | app.py:44-49 | the missing dimensions are appended in the order `DISTRICT`, `YEAR`, and each row gains the matching default cells; the table stays well-formed |
| Schema.BackfillHasDimensions | app.py:44-49 | after the backfill both `DISTRICT` and `YEAR` are columns |
| Schema.BackfillKeepsCells | app.py:44-49 | every label already present reads in every row as before |
| Schema.BackfillDistrictCells | app.py:44-45 | a backfilled `DISTRICT` column reads `"ALL"` in every row |
| Schema.BackfillYearCells | app.py:47-49 | a backfilled `YEAR` column reads 2012 in every row |
| Schema.BackfillNoop | app.py:44-49 | a table that has both dimensions is unchanged |
| Schema.RequiredAfterBackfill | app.py:51-55 | after the backfill the required-column check passes exactly when `STATE/UT` is a column |
| Schema.StateAfterRename | app.py:31-41 | `STATE/UT` is present after normalisation and rename exactly when some raw header normalises to `STATE/UT`, `STATE` or `STATES/UTS` |
| Schema.HasRequiredSubset | app.py:52-53 | the required-column check passes exactly when `{STATE/UT, DISTRICT, YEAR}` is a subset of the set of labels |
| Numbers.ParseInt | app.py:62 | text parses exactly when it is a non-empty run of decimal digits, or a `-` or `+` followed by one; the digits give the value and a `-` negates it |
| Numbers.ParseShowInt | app.py:62 | every integer's decimal spelling coerces back to that integer |
| Tables.ToNumeric | app.py:62 | coercion yields a number or NaN; numbers are kept, NaN stays NaN, and text becomes a number exactly when it parses as an integer, namely the integer it spells |
| Tables.ToNumericIdempotent | app.py:62 | coercing a coerced cell changes nothing |
| Tables.CoerceColumn | app.py:62 | labels and row count are kept; in each row only the cell under the label is coerced; a well-formed table stays well-formed |
| Tables.CoerceColumnIdempotent | app.py:62 | coercing a column twice is coercing it once |
| Tables.CoerceCellReads | app.py:62 | after coercion the coerced label reads its coerced cell and every other label reads as before |
| Tables.CellFirstColumn | app.py:66-70 | `df[l]` in one row reads the cell of the first column carrying `l`, and a missing cell when no column does |
| Tables.Amount | app.py:118-119 | a number counts as itself, text that parses as the number it spells, and a missing cell or unparsable text as 0 |
| Tables.ColumnSumBounds | app.py:119 | a column sum skips NaN: it is not negative when no cell counts below 0, and it is 0 when no cell coerces to a number |
| Tables.ColumnSumConcat | app.py:119 | the sum over two blocks of rows is the sum of the two blocks' sums |
| Schema.DropIncomplete | app.py:63 | labels are kept; a well-formed table stays well-formed |
| Schema.Clean | app.py:62-63 | the cleaning keeps the labels and a well-formed table well-formed, and never adds rows |
| Schema.CleanKeeps | app.py:62-63 | the cleaning keeps, in their original order and without merging, exactly the rows whose state and district are present and whose year parses, each with its year coerced |
| Schema.CleanPrepared | app.py:62-63 | every row that survives the cleaning has a state, a district and a numeric year |
| Schema.Standardize | app.py:31-49 | clean-up, rename and backfill keep every row and its cells, add both optional dimensions as columns, and yield a state column exactly when some raw header normalises to a state synonym |
| Schema.Prepare | app.py:31-63 | `Standardize`, then the check, then `Clean`: the script halts exactly when no raw header normalises to a state synonym; otherwise the result is a prepared table whose labels are the standardised ones |
| Frames.DataFrame.NormalizeColumns | app.py:31 | the frame's labels become their normalised forms and its rows are untouched |
| Frames.DataFrame.RenameColumns | app.py:41 | the frame's labels become their renamed forms and its rows are untouched |
| Frames.DataFrame.BackfillDimensions | app.py:44-49 | the frame becomes the backfilled table |
| Frames.DataFrame.CoerceYear | app.py:62 | the frame's `YEAR` column is coerced in place |
| Frames.DataFrame.DropIncompleteRows | app.py:63 | the frame keeps only its complete rows |
| Frames.DataFrame.CoerceTotal | app.py:118 | the frame's `TOTAL IPC CRIMES` column is coerced in place |
| Frames.PrepareFrame | app.py:31-63 | run in place on the frame, the steps halt exactly when `Prepare` fails, and otherwise leave the frame holding `Prepare`'s prepared table |
| Ordering.SortedDistinct | app.py:66 | `sorted(unique())`: strictly ascending, holds exactly the input's values, and is no longer than the input |
| Text.StrLessIrreflexive | app.py:66 | no string comes before itself |
| Text.StrLessTransitive | app.py:66 | the string order is transitive |
| Text.StrLessTotal | app.py:66 | any two different strings are ordered one way or the other |
| Text.StrLessPrefix | app.py:66 | a proper prefix comes before the longer string, as in Python |
| Ordering.LessIrreflexive | app.py:66 | no cell comes before itself |
| Ordering.LessTransitive | app.py:66 | the cell order is transitive |
| Ordering.LessTotal | app.py:66 | any two different cells are ordered one way or the other, so sorting is well defined |
| Views.States | app.py:66 | the state options strictly ascend and are exactly the states that occur in the table |
| Views.StateRows | app.py:70 | the state's rows are exactly the table's rows whose state is the chosen one |
| Views.Districts | app.py:72 | the district options strictly ascend and are exactly the districts of rows of the chosen state |
| Views.Years | app.py:75 | the year options strictly ascend and are exactly the years of rows of the chosen state |
| Views.OptionsPresent | app.py:62-76 | on a prepared table no state or district option is missing and every year option is a number |
| Views.CrimeColumns | app.py:78 | the crime columns are exactly the labels that are not dimensions |
| Views.CrimeColumnsOrder | app.py:78 | the crime columns keep the column order |
| Views.CrimeColumnsCount | app.py:78 | a label that is not a dimension is a crime column as often as it is a column, and a dimension never is |
| Views.DefaultCrimes | app.py:79 | the defaults are `MURDER` then `RAPE`, each one only when it is a crime column |
| Views.Filter | app.py:83-87 | the subset holds exactly the rows whose state, district and year all equal the chosen ones |
| Views.FilterCount | app.py:83-87 | a matching row occurs in the subset as often as in the table, and a non-matching row not at all |
| Views.FilterOrder | app.py:83-87 | the subset keeps the table's order |
| Views.NumericColumnCoerced | app.py:96 | a column counts as numeric exactly when coercing it to numbers changes none of its cells |
| Views.Totals | app.py:96 | each total belongs to a selected numeric column and is that column's sum over the subset, and every selected numeric column has its total |
| Views.TotalsLabels | app.py:96 | the totals are labelled by exactly the selected numeric columns, in selection order |
| Views.TotalsCons | app.py:96 | the totals of a selection are those of its first column followed by those of the rest |
| Views.TotalsView | app.py:91-96 | the totals are shown exactly when the subset is non-empty and some crime is selected |
| Views.PieSlices | app.py:102-103 | the slices are exactly the strictly positive totals |
| Views.PieSlicesOrder | app.py:102-103 | the slices keep the order of the totals |
| Aggregates.InsertDescending | app.py:119 | inserting keeps the values non-increasing and adds exactly the new entry |
| Aggregates.SortDescending | app.py:119 | the result is a permutation of the input with non-increasing values |
| Aggregates.StateTotalAbsent | app.py:119 | a value that is not one of the states sums to 0 |
| Aggregates.Groups | app.py:119 | one entry per state, in ascending state order, carrying that state's sum |
| Aggregates.Head | app.py:119 | `.head(5)`: the first five entries, or all of them when there are fewer |
| Aggregates.Top | app.py:119 | at most five entries by non-increasing value, each one of the groups, and every group when there are five or fewer |
| Aggregates.TopDistinct | app.py:119 | over groups with distinct keys, no two ranked entries share a key |
| Aggregates.TopLeftOut | app.py:119 | a group whose key is not ranked comes after five ranked entries, none with a smaller value than it |
| Aggregates.TopStates | app.py:119 | the ranking holds at most five of the state groups |
| Aggregates.GroupsPartition | app.py:118-119 | the group sums add up to the column total over all rows, so no row is lost or counted twice |
| Aggregates.TopStatesShape | app.py:119 | the ranking has at most five entries with non-increasing sums, and ranks every state when there are five or fewer |
| Aggregates.TopStatesEntries | app.py:119 | ranked entries are distinct states, each carrying that state's sum |
| Aggregates.TopStatesLeftOut | app.py:119 | a state left out of the ranking means there are five ranked entries, and its sum is no greater than the last one's |
| Aggregates.RankingView | app.py:115-123 | the ranking is attempted exactly when the table has a `TOTAL IPC CRIMES` column; an empty ranking stands for the warning |
| Aggregates.TrendYears | app.py:127-129 | the trend's years are the state's years: strictly ascending, one entry per year in which the state has rows |
| Aggregates.Trend | app.py:127-129 | one entry per year of the state, in the order of its years, each carrying the sum over the state's rows of that year |
| Aggregates.TrendView | app.py:125-133 | the trend is attempted exactly when the table has a `TOTAL IPC CRIMES` column; an empty trend stands for the warning |
| Dashboard.Explore | app.py:57-131 | every panel is the matching view of the prepared frame; the frame's total column is coerced in place before the two charts when present |
| Dashboard.Session | app.py:31-133 | a session halts exactly when preparation fails; otherwise all ten panels are the matching views of the prepared table, the two charts on its total column coerced |
| Scenarios.NormalizeGoa | app.py:31 | the raw headers `States/UTs, District, Year, Murder, Rape` are cleaned up to `STATES/UTS, DISTRICT, YEAR, MURDER, RAPE` |
| Scenarios.RenameGoa | app.py:34-41 | the headers `STATES/UTS, DISTRICT, YEAR, MURDER, RAPE` are renamed to `STATE/UT, DISTRICT, YEAR, MURDER, RAPE` |
| Scenarios.GoaHeaders | app.py:31-41 | clean-up and rename together take the raw headers to `STATE/UT, DISTRICT, YEAR, MURDER, RAPE` |
| Scenarios.GoaStandardize | app.py:31-49 | clean-up, rename and backfill change only the headers of the raw Goa table |
| Scenarios.GoaPrepare | app.py:31-63 | the preparation of the raw Goa table succeeds with the canonical headers over the unchanged row |
| Scenarios.GoaClean | app.py:62-63 | the one North Goa row survives the cleaning unchanged |
| Scenarios.GoaFilter | app.py:83-87 | choosing Goa, North Goa and 2012 selects that row |
| Scenarios.GoaTotalsList | app.py:96 | with `MURDER` and `RAPE` selected the totals are 5 and 2, in that order |
| Scenarios.GoaTotals | app.py:91-96 | the totals panel shows those two totals |
| Scenarios.GoaPie | app.py:102-103 | both totals are positive, so both are pie slices |
| Scenarios.NormalizeStateOnly | app.py:31 | the raw headers `State, Murder` are cleaned up to `STATE, MURDER` |
| Scenarios.StateOnlyHeaders | app.py:31-41 | clean-up and rename take `State, Murder` to `STATE/UT, MURDER` |
| Scenarios.StateOnlyStandardize | app.py:31-49 | from its raw headers, a state-only table is renamed and gains `DISTRICT = "ALL"` and `YEAR = 2012` |
| Scenarios.StateOnlyBackfill | app.py:44-49 | a table with only a state and a crime column gains `DISTRICT = "ALL"` and `YEAR = 2012` |

## Left out

- Streamlit calls are not modelled: the page title, select boxes, the multiselect, `st.dataframe`, the charts and the notices. The user's picks become the `Choice` parameter, which is not limited to the offered options: a selected crime that is not a column gets a zero total where the script would raise `KeyError` at lines 92 and 96, a case the multiselect never produces. The halting notice at lines 53-55 (the missing-columns error) becomes `Schema.Prepare`'s `Failure(MissingRequiredColumns)`.
- The display projection `filtered_data[selected_crimes]` at line 92 is not modelled. It only shows the rows.
- Listing the data folder and reading the CSV (lines 13-28) are file-system I/O and CSV parsing, so they are left out. The model starts from the table the reader produced. The two fatal loader errors are left out with them.
- How pandas infers column types at load time is left out. `Views.NumericColumn` judges a column numeric when no cell in it holds text.
- The pie's rendering and `autopct` percentages (lines 101-108) are floating point and charting, so they are left out. `Views.PieSlices` models only which totals become slices.
- Text.Strip: whitespace is ASCII only, because full Unicode `str.strip` semantics are out of scope. It covers space, 9-13 and 28-31.
- Text.Upper: upper-casing is ASCII only, for the same reason.
- Tables.ToNumeric: it parses only integers, with an optional sign and ASCII digits. Floats, exponents, surrounding whitespace and `inf`/`nan` spellings are not modelled, and all counts are `int`.
- Tables.Cell: a label reads its first column, which is the model's own choice. A label can repeat because the rename maps two synonyms of the state or total column onto it, or because two headers normalise alike (`Year` and `YEAR`, `District` and `DISTRICT`). Then `df[l]` is a sub-frame and the script raises: at line 62 for `YEAR`, 66 for `STATE/UT`, 72 for `DISTRICT` and 118 for `TOTAL IPC CRIMES`. The model reads the first column and does not halt. So `Schema.Prepare`'s "halts exactly when" covers only the halt at lines 53-55, not these crashes.
- Aggregates.SortDescending: the order of two states with equal sums is not stated, because pandas' default sort does not promise one.
- Ordering.Less: Python's `sorted` raises on a column that mixes text and numbers. The model orders `Null < Num < Str` instead, so the options are defined for every table.
- Aggregates.Trend: the second coercion at line 128 is not a separate step, because the model folds it into the cell's amount. `Tables.CoerceColumnIdempotent` shows that coercing an already coerced column changes nothing.
