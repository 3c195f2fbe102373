# Agency coverage dashboard: reconciliation core

A Dafny model of `update_content`, the one callback of the agency-coverage
dashboard (`src/Dashboard.py`). The callback answers two kinds of query
against a fixed sub-agency catalog (`AGENCY`, `ABBV`, `Agency STATE`):

* **Agency search.** A non-empty dropdown selection keeps the catalog rows
  whose `AGENCY` or `ABBV` is selected. It maps their distinct states, each
  with Count 1.
* **Plate search.** An uploaded coverage file, a click and a plate are all
  needed. The file name picks the schema: `Coverage Lps.xlsx` is Primary and
  `updated_agency.xlsx` is Alternative. The search upper-cases the typed
  plate and keeps the rows whose plate column equals it exactly. It
  left-joins those rows to the catalog on `agency name` = `AGENCY` and keeps
  the joined rows where `agency state` = `Agency STATE`. It then collapses
  them into one summary row: every string column becomes its distinct values
  joined by `", "`, and each 0/1 flag becomes "some row has 1". Splitting
  the summary's state string on `", "` gives the states mapped with Count 1.

Otherwise the callback returns an empty map titled "No data found for the
selected agencies", "Invalid file", "No data found for License Plate: ..."
or "No search input", each with an empty record table.

Modules, one per component:

* `Wrappers` (wrappers.dfy): `Option`.
* `Text` (text.dfy): the string operations the code borrows from Python and
  pandas. These are `', '.join` (`Join`), `.split(', ')` (`Split`),
  `Series.unique()` (`Distinct`) and `str.upper()` (`ToUpper`), with
  round-trip, order and idempotence lemmas.
* `Catalog` (catalog.dfy): catalog rows and the agency lookup.
* `Coverage` (coverage.dfy): the schema tag, uploaded rows, the plate
  filter, the left join and the state-consistency filter. It also gives a
  direct reference definition of the reconciled rows, proved equal to
  join-then-filter.
* `Aggregate` (aggregate.dfy): the per-column reducers, the summary row, the
  renamed output columns and the state-count table.
* `Dashboard` (dashboard.dfy): the outcome of one call, the two search paths
  and the dispatch between them.

Everything is pure: the source works through filters, merges, group
aggregations and join/split, and it updates no state.

Three behaviours of the code shape the model:

* **Reconciliation can leave no rows.** This happens when every matched
  row's state disagrees with the catalog, or its agency is missing from the
  catalog. The code then reads row 0 of an empty frame
  (`src/Dashboard.py:156`, `:207`) and raises. The model returns
  `Outcome.IndexError`, an outcome with no returned data.
* **The Alternative schema filters and reports on different columns.** It
  filters on `agency state` (`:192`) but reports the covered states from
  `STATE_GOOGLE` (`:195`, renamed at `:205`). So a raw row carries both
  fields.
* **Only the typed plate is upper-cased** (`:124`). The table's plate column
  is compared as it is.

## Model

| member | source | states |
|---|---|---|
| `Text.Split` | src/Dashboard.py:156 | `str.split(', ')` always yields at least one piece, even for the empty string |
| `Text.Join` | src/Dashboard.py:144 | `', '.join` of a non-empty list is as long as its elements plus one two-character separator between each neighbouring pair |
| `Text.JoinSplit` | src/Dashboard.py:144-156 | joining the pieces of any split gives back the split string |
| `Text.SplitJoin` | src/Dashboard.py:144-156 | splitting a joined non-empty list gives the list back when no element contains `", "` |
| `Text.Distinct` | src/Dashboard.py:89 | `unique()` keeps exactly the values of its input, each once, never lengthening it |
| `Text.DistinctFirstSeen` | src/Dashboard.py:89 | `unique()` lists values in the order of their first occurrence |
| `Text.ToUpper` | src/Dashboard.py:124 | upper-casing keeps the length, leaves no lower-case letter and changes nothing else |
| `Text.ToUpperIdempotent` | src/Dashboard.py:124 | upper-casing twice equals upper-casing once |
| `Catalog.AgencyRows` | src/Dashboard.py:82-85 | the kept rows are exactly the catalog rows whose `AGENCY` or `ABBV` is selected |
| `Catalog.AgencyRowsAppend` | src/Dashboard.py:82-85 | the filter keeps catalog order: it distributes over concatenation of the catalog |
| `Catalog.CoveredStates` | src/Dashboard.py:89 | the agency path's states are `unique()` of the kept rows' `Agency STATE` column: duplicate-free, exactly those states, in first-seen order, and non-empty when rows were kept |
| `Coverage.SchemaOf` | src/Dashboard.py:116-121 | only `Coverage Lps.xlsx` (Primary) and `updated_agency.xlsx` (Alternative) are recognised; every other name gives no schema |
| `Coverage.PlateRows` | src/Dashboard.py:128 | the plate filter (also `:180`) keeps exactly the rows whose plate equals the searched plate |
| `Coverage.PlateRowsAppend` | src/Dashboard.py:128 | the plate filter keeps row order: it distributes over concatenation of the table |
| `Coverage.NamedEntries` | src/Dashboard.py:131-137 | the merge key meets exactly the catalog rows whose `AGENCY` equals the row's `agency name` |
| `Coverage.LeftJoinRow` | src/Dashboard.py:131-137 | a left-merged row yields at least one joined row, and the joined rows are exactly the row paired with each catalog row of its agency, or with no catalog row when none has it |
| `Coverage.LeftJoin` | src/Dashboard.py:131-137 | the left merge loses no input row, its joined rows are exactly input rows paired as `LeftJoined` describes, and (`LeftJoinAppend`) it keeps the table's row order |
| `Coverage.LeftJoinAppend` | src/Dashboard.py:131-137 | the left merge keeps the table's row order: it distributes over concatenation of the table (also `:183-189`) |
| `Coverage.StateAgrees` | src/Dashboard.py:140 | a joined row passes the state test iff it has a catalog match whose `Agency STATE` equals its `agency state`; the unmatched (NaN) row never passes |
| `Coverage.KeepAgreeing` | src/Dashboard.py:140 | the state filter keeps a joined row iff it is in the input and passes the state test |
| `Coverage.Reconcile` | src/Dashboard.py:131-140 | merge then filter keeps a joined row iff its raw row is an input row, its catalog part is the merge's, and the states agree |
| `Coverage.ReconcileAppend` | src/Dashboard.py:131-140 | merge then state filter keeps the table's row order, which fixes the first-seen order of every aggregated column and of the plate count table |
| `Coverage.ConsistentEntries` | src/Dashboard.py:140 | a row's consistent catalog rows are exactly those with its agency name and its state |
| `Coverage.ConsistentJoin` | src/Dashboard.py:131-140 | the reconciled rows are exactly pairs of a row and a catalog row agreeing on agency name and state |
| `Coverage.ConsistentJoinAppend` | src/Dashboard.py:131-140 | the reference pairing follows the table's row order as well |
| `Coverage.ConsistentWithinNamed` | src/Dashboard.py:131-140 | a row's state-consistent catalog rows are never more than the catalog rows of its agency |
| `Coverage.ReconcileIsConsistentJoin` | src/Dashboard.py:131-140 | left-join then state filter equals the direct pairing, order and multiplicity included; rows with no catalog match contribute nothing |
| `Aggregate.AnyIsOne` | src/Dashboard.py:145-146 | a flag column aggregates to true iff some contributing row has value 1 |
| `Aggregate.JoinUnique` | src/Dashboard.py:144 | splitting a `', '.join(x.unique())` value gives back the distinct values in first-seen order, when the column is non-empty and none of its values contains `", "` |
| `Aggregate.PrimaryColumns` | src/Dashboard.py:143-154 | the nine Primary labels are all different; `abbreviation` appears only as `LP State`, and the key is `license plate` |
| `Aggregate.AlternativeColumns` | src/Dashboard.py:194-205 | the nine Alternative labels are all different; `STATE_GOOGLE` appears only as `agency state`, and `abbreviation` and `license_plate` are kept |
| `Aggregate.Columns` | src/Dashboard.py:143-154 | output labels: nine distinct ones; both schemas report states as `agency state`; only Primary renames `abbreviation` to `LP State` (Alternative renames `STATE_GOOGLE`, `:205`); the key keeps its schema's name |
| `Aggregate.Record` | src/Dashboard.py:143-154 | a record's labels are exactly `Columns` of its schema, in aggregation order (`:194-205` for Alternative) |
| `Aggregate.CellOfAt` | src/Dashboard.py:171 | looking a record up by label finds the cell at the first index carrying that label |
| `Aggregate.RecordCells` | src/Dashboard.py:143-171 | looked up by label, a record holds all nine of the summary's values: the state string under `agency state`, the flags, the agency names, the lifecycle states, both account columns, and the plate and abbreviations under the schema's own labels |
| `Aggregate.PrimaryCells` | src/Dashboard.py:143-154 | all nine cells of the Primary record, each under its label, including the abbreviations under `LP State` |
| `Aggregate.AlternativeCells` | src/Dashboard.py:194-205 | all nine cells of the Alternative record, each under its label, including the reported state under `agency state` |
| `Aggregate.Summarize` | src/Dashboard.py:143-152 | the summary keeps its group's key and schema; every string column, whatever its values contain, is its column's distinct values in first-seen order joined by `", "` (the reported state is `STATE_GOOGLE` for Alternative, `:195`); each flag is set iff some row of the group has it at 1 |
| `Aggregate.GroupByPlate` | src/Dashboard.py:143-152 | grouping one plate's rows yields no row for no input, and otherwise exactly one row: the summary of all the rows, keyed by their plate |
| `Aggregate.SummarizeContents` | src/Dashboard.py:143-152 | for a non-empty group, each summary string column whose values contain no `", "` reads back as its column's distinct values in first-seen order; each flag is set iff some row has it at 1 |
| `Aggregate.StateCounts` | src/Dashboard.py:157 | the count table has one row per listed state, in order, each with Count 1 |
| `Dashboard.AgencySearch` | src/Dashboard.py:80-106 | data iff some catalog row is selected; records are the selected rows; the counts list exactly `CoveredStates` of the records, in order, each once with weight 1 |
| `Dashboard.ReconciledRows` | src/Dashboard.py:131-140 | reconciled rows come from the input, and none survive iff no input row has a catalog row with its agency name and state |
| `Dashboard.PlateSearch` | src/Dashboard.py:126-178 | "not found" iff no row has the plate; the exception iff rows have it but none is state-consistent; otherwise the one summary is `Summarize` of the reconciled plate rows, the returned table (`to_dict('records')`, `:171`, `:222`) is that summary's `Record`, and the counts list exactly the pieces of the summary's state string (`:156`, `:207`), each with weight 1 |
| `Dashboard.UpdateContent` | src/Dashboard.py:78-230 | dispatch order: selection, then upload and click, then file name, then plate; a known upload with a plate gives exactly the plate search for the upper-cased plate; a returned outcome has counts iff it has records iff it carries data; every count is 1 |
| `Dashboard.SelectionIgnoresUpload` | src/Dashboard.py:80-106 | with a selection, upload, plate, clicks and file name do not change the outcome |
| `Dashboard.InputCaseIgnored` | src/Dashboard.py:123-124 | typing the plate in any case gives the same outcome |
| `Dashboard.LowerCaseTablePlateNeverMatches` | src/Dashboard.py:124-128 | a table row whose plate has a lower-case letter is never found |
| `Dashboard.PlateCountsAreDistinctStates` | src/Dashboard.py:156-157 | the plate path maps each reconciled state once, in first-seen order, when no state contains `", "` |
| `Dashboard.SchemasAgree` | src/Dashboard.py:180-208 | when `STATE_GOOGLE` equals `agency state` on every row, both schemas give the same counts and the same summary apart from its schema tag |
| `Dashboard.DotSelectionExample` | src/Dashboard.py:82-90 | selecting `DOT` with rows in CA, CA, NV maps `[CA 1, NV 1]` and returns three rows |

## Left out

- The page layout, the dropdown's option list and the callback wiring (`src/Dashboard.py:16-77`): user interface and framework plumbing.
- Loading the catalog spreadsheet, splitting the upload's data URL, base64 decoding and `pd.read_excel` (`:12-13`, `:110-114`): I/O and library calls. The model receives decoded rows. Exceptions raised there are not modelled, for example on a file that is not a spreadsheet or lacks its schema's columns.
- Figure construction (`px.choropleth`, colour scale, titles): rendering. Each outcome carries only its kind, its count table and the plate or agency names its title shows.
- The `waitress` server start (`:233-234`): network runtime.
- Catalog columns other than `AGENCY`, `ABBV` and `Agency STATE`: the agency path returns whole catalog rows, and the model's rows have only these three columns.
- Pandas missing values beyond the unmatched left-join row. A cell that is NaN or not a string is not modelled (`', '.join` would raise on it). Neither is an absent file name or plate input: they are modelled as an unrecognised name and the empty plate, which the code treats the same way.
- Text.ToUpper: only the ASCII letters `a`-`z` are upper-cased. Python's `str.upper()` maps every cased Unicode letter and can lengthen a string (`"ß"` becomes `"SS"`).
- Aggregate.GroupByPlate: requires every row to carry the same plate, so it models the one-group case only. This is the only case that can arise, because the rows were first filtered to equal the searched plate (`:128`, `:180`).
- Dashboard.PlateCountsAreDistinctStates: holds only when no state value contains `", "`. Otherwise splitting the joined string cuts such a state apart.
