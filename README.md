# Portfolio backtest pipeline — a verified model of its data core

The repository drives a web backtesting tool for asset-allocation portfolios. It splits a
grid of candidate portfolios into batches of three, fills the tool's form from each batch's
allocation CSV, and downloads one results workbook per batch. It then parses the workbooks
back into tables and consolidates everything into a metadata table (portfolio, asset,
weight) and a long-format metrics table, linked by one identifier per portfolio. A separate
generator builds a treasury-maturity grid: every split of a 25% treasury sleeve over four
maturities in 5-point steps.

This project models the data side of that pipeline in Dafny:

- **Table parser** (`table_parser.dfy`, `sheet.dfy`). A result sheet is a grid of cells.
  - The boundary scan cuts it into maximal runs of non-empty rows.
  - Each table gets a header row and a type.
  - A table is then parsed as key/value pairs or as a tabular frame.
  - The parsed frames are kept in an insertion-ordered dictionary under unique names.
- **Legacy metadata and metrics** (`legacy_extraction.dfy`, `records.dfy`, `registry.dfy`).
  - One fresh identifier per portfolio column.
  - One metadata row per positive weight.
  - One metric row per numeric cell of the two target tables.
- **Consolidation** (`consolidation.dfy`). Identifiers are resolved or created batch by
  batch, in one dictionary threaded through every batch. Result columns are mapped back to
  batch columns through the tool's labels ("Sample Portfolio", "Portfolio 2", ...).
- **Treasury grid** (`treasury_grid.dfy`). The four nested split loops, the grid of
  portfolios built from them, and the transposed asset table.
- **Batch runner and single backtest, data parts** (`batch_runner.dfy`, `allocations.dfy`,
  `portfolio_backtest.dfy`, `destination.dfy`). These cover:
  - batch counting and slicing, and the batch file names;
  - the run log and the manifest merge;
  - reading allocation CSVs into the form's asset classes and allocation dictionary;
  - weight validation;
  - the name of the downloaded workbook, and the loop that finds a free destination name.

Modelling choices:

- **Loops are methods.** Every loop of the source is a Dafny method. Its `ensures` ties the
  result to a declarative function, and lemmas prove what that function promises.
- **Dictionaries and pandas frames.**
  - Python dictionaries that are iterated keep insertion order, so they are sequences of
    entries with unique keys. `d[k] = v` is `Util.Assign`: it replaces in place or appends.
  - pandas frames are column labels plus rows of cells. A cell is missing, a number (with
    its `str()` text) or a string.
- **Identifiers.** `uuid.uuid4()` is an oracle that hands out consecutive natural numbers,
  held by the class `Registry.IdRegistry`. Its fields are updated in place, as the
  dictionary `portfolio_uuid_map` is.
- **External inputs become parameters.** The clock, the browser run of each batch, and the
  set of files already on disk are parameters of the operations that use them.

## Model

| member | source | states |
|---|---|---|
| Sheet.NonEmptyCells | backtest_analysis_processor_working.py:76 | `row.dropna()` keeps only non-missing cells, is empty exactly for an all-missing row, and starts with the row's first cell when that one is present |
| Sheet.NonEmptyCellsAt | backtest_analysis_processor_working.py:76 | `row.dropna()` is exactly the cells at the row's non-missing positions, in column order |
| Sheet.ValuePositionsSpec | backtest_analysis_processor_working.py:76 | the positions `dropna()` keeps are exactly the non-missing ones, in increasing order |
| Sheet.NextValue | backtest_analysis_processor_working.py:165-169 | the first non-missing position at or after a column, with only missing cells before it, or none when the rest of the row is missing |
| Sheet.FirstValues | backtest_analysis_processor_working.py:165-176 | `non_nan.iloc[0]` is the cell at the row's first non-missing position and `non_nan.iloc[1]` the cell at the next one; `dropna()` is empty for a row without values and has one cell when nothing follows the first value |
| Sheet.NonEmptyCountSpec | backtest_analysis_processor_working.py:113 | `row.notna().sum()` is the number of non-missing positions of the row |
| Sheet.NonEmptyCellsOfFull | backtest_analysis_processor_working.py:165 | a row without missing cells is unchanged by `dropna()` |
| Sheet.Fit | backtest_analysis_processor_working.py:215 | `row.iloc[:w]` has exactly `w` cells, the row's own cells first and missing cells after |
| Sheet.ColumnIndex | consolidate_batch_results.py:84-85 | reading a CSV column by label finds the position holding that label |
| TableParser.RunEnd | backtest_analysis_processor_working.py:71-83 | the end of the run of non-empty rows that contains a row lies inside the sheet, at or below that row |
| TableParser.RunEndRows | backtest_analysis_processor_working.py:71-83 | every row of the run is non-empty, and the row after it is empty or absent |
| TableParser.Segments | backtest_analysis_processor_working.py:49-89 | the reference segmentation lies inside the sheet |
| TableParser.SegmentsInside | backtest_analysis_processor_working.py:79-87 | every table starts at or after the current row and ends inside the sheet |
| TableParser.SegmentsFull | backtest_analysis_processor_working.py:71-74 | every row of a table has a non-missing value |
| TableParser.SegmentsEnd | backtest_analysis_processor_working.py:79-87 | no table can be extended downwards: the row after it is empty or absent |
| TableParser.SegmentsStart | backtest_analysis_processor_working.py:72-74 | no table can be extended upwards: the row before it is empty |
| TableParser.SegmentsNamed | backtest_analysis_processor_working.py:75-77 | a table is named after the first non-missing value of its first row |
| TableParser.BlockNameFirstValue | backtest_analysis_processor_working.py:75-77 | a table whose first row has a value is named by the text of the cell at that row's first non-missing position, so `Table_<n>` is never used |
| TableParser.SegmentsSeparated | backtest_analysis_processor_working.py:79-83 | tables are in increasing order with an empty row between any two |
| TableParser.SegmentsCover | backtest_analysis_processor_working.py:66-87 | every non-empty row lies in some table |
| TableParser.SegmentsSound | backtest_analysis_processor_working.py:49-89 | the tables satisfy all of the above together |
| TableParser.IdentifyTableBoundaries | backtest_analysis_processor_working.py:49-89 | the one-pass row scan returns exactly the maximal runs of non-empty rows, in order, each named after its first value |
| TableParser.BoundaryOpen | backtest_analysis_processor_working.py:72-77 | a non-empty row with no open table opens one there, named after the row's first value |
| TableParser.BoundaryExtend | backtest_analysis_processor_working.py:71-72 | a non-empty row inside an open table keeps it open |
| TableParser.BoundarySkip | backtest_analysis_processor_working.py:78-79 | an empty row with no open table changes nothing |
| TableParser.BoundaryClose | backtest_analysis_processor_working.py:79-83 | an empty row closes the open table at the row above it |
| TableParser.BoundaryLast | backtest_analysis_processor_working.py:86-87 | a table still open after the last row ends at the last row |
| TableParser.BoundaryNoLast | backtest_analysis_processor_working.py:86-89 | with no table open at the end, the closed tables are all of them |
| TableParser.SkipEmptyRows | backtest_analysis_processor_working.py:78-79 | empty rows contribute no table |
| TableParser.SingleRowSingleBlock | backtest_analysis_processor_working.py:49-89 | a sheet with one non-empty row holds exactly one one-row table, named after that row's first value |
| TableParser.EmptySheetNoBlocks | backtest_analysis_processor_working.py:49-89 | a sheet of empty rows holds no table |
| TableParser.ClassifyIsFirstMatch | backtest_analysis_processor_working.py:138-145 | the if-chain of table types is first-match over the ordered rule list (allocation, metrics/performance, return/year, correlation) |
| TableParser.AllocationWins | backtest_analysis_processor_working.py:138-139 | a header mentioning "allocation" is an allocation table, whatever else it says |
| TableParser.FirstHeaderFrom | backtest_analysis_processor_working.py:111-125 | the header search returns the first row with at least two values and a header keyword, and finds none only when no row qualifies |
| TableParser.DetectTableStructure | backtest_analysis_processor_working.py:92-147 | an empty table has no header and type unknown; otherwise the header is the first candidate row or else row 0, data starts on the next row, the column count is the header's non-missing count, and the type comes from the header text |
| TableParser.NonEmptyRowsIn | backtest_analysis_processor_working.py:163-174 | the rows that yield a pair are exactly the non-empty ones, in increasing order |
| TableParser.ParseKeyValueTable | backtest_analysis_processor_working.py:150-178 | the row loop yields the Key/Value frame of the pairs, or an empty frame when there are none |
| TableParser.KeyValuePairsSpec | backtest_analysis_processor_working.py:163-174 | there is one pair per row with a value, in row order; its key is the cell at the row's first non-missing position, and its value the cell at the next non-missing position, or none when the rest of the row is missing |
| TableParser.RowPairSpec | backtest_analysis_processor_working.py:165-174 | one row's pair is its first value and the next value after it, by position |
| TableParser.SingleValueRowPair | backtest_analysis_processor_working.py:172-174 | a row with a single value gives a key with no value |
| TableParser.KeptColumns | backtest_analysis_processor_working.py:221 | `dropna(axis=1, how='all')` keeps exactly the columns with a value somewhere, in order |
| TableParser.Project | backtest_analysis_processor_working.py:221 | dropping columns keeps every row, each with one cell per kept column |
| TableParser.DataRowsIn | backtest_analysis_processor_working.py:210-216 | the data rows have one cell per header column, and there are no more of them than table rows |
| TableParser.DataRowsInSpec | backtest_analysis_processor_working.py:210-216 | the data rows are exactly the rows from the data start on that have some value, all of them and in order, each cut or padded to the header's width |
| TableParser.ColumnNames | backtest_analysis_processor_working.py:199-204 | each kept column is labelled by its header value, or `Column_<i>` when that is missing |
| TableParser.ParseTabularData | backtest_analysis_processor_working.py:181-226 | the method builds the tabular frame: header labels, non-empty rows, then all-missing columns and rows dropped |
| TableParser.TabularRowsHaveValues | backtest_analysis_processor_working.py:218-224 | a tabular frame has no all-missing row, and each row has one cell per column |
| TableParser.TabularColumnsHaveValues | backtest_analysis_processor_working.py:218-224 | a tabular frame has no all-missing column |
| TableParser.Iota | backtest_analysis_processor_working.py:199 | the column positions `0..w-1` in order |
| TableParser.KeptColumnsAll | backtest_analysis_processor_working.py:221 | when every column has a value, no column is dropped |
| TableParser.ProjectAll | backtest_analysis_processor_working.py:221 | projecting onto all columns changes nothing |
| TableParser.FullDataRows | backtest_analysis_processor_working.py:210-216 | fully filled rows under a header are all taken as data rows |
| TableParser.FullTableRoundTrip | backtest_analysis_processor_working.py:181-226 | a fully filled header and two rows parse back to exactly those rows, under the header's texts |
| TableParser.FullRowsKept | backtest_analysis_processor_working.py:221-223 | two fully filled rows lose no column and no row |
| TableParser.KeptFrameFull | backtest_analysis_processor_working.py:219-224 | with nothing dropped, the frame is the data under the header's labels |
| TableParser.LabelsAllNamed | backtest_analysis_processor_working.py:199-201 | a fully filled header labels every column with its own text |
| TableParser.BlockFrames | backtest_analysis_processor_working.py:254-285 | each table is parsed from exactly its own rows |
| TableParser.ParseTable | backtest_analysis_processor_working.py:256-285 | one loop iteration detects the table's structure, then parses it as key/value (at most two columns, type unknown) or as tabular data |
| TableParser.Assemble | backtest_analysis_processor_working.py:252-285 | the dictionary built table by table never holds two entries under one name |
| TableParser.AddTable | backtest_analysis_processor_working.py:262-285 | adding one table keeps the names unique |
| TableParser.AssembleSkip | backtest_analysis_processor_working.py:277-285 | an empty parsed table is dropped |
| TableParser.AssembleKeepsNonEmpty | backtest_analysis_processor_working.py:273-285 | only non-empty tables are stored, and each table adds at most one entry |
| TableParser.AddTableNonEmpty | backtest_analysis_processor_working.py:273-285 | one table is stored only when non-empty, and adds at most one entry |
| TableParser.AllTablesWellFormed | backtest_analysis_processor_working.py:229-291 | the parsed dictionary has unique names, only non-empty tables, and at most one entry per table of the sheet |
| TableParser.ParseAllTables | backtest_analysis_processor_working.py:229-291 | the method returns the dictionary of the sheet's tables as the reference definition builds it |
| TableParser.ParseBlocks | backtest_analysis_processor_working.py:252-285 | the loop over the tables builds the dictionary in table order, numbering tables from 1 |
| TableParser.KeepTable | backtest_analysis_processor_working.py:262-285 | one table is stored under its stripped name, suffixed `_<n>` when taken, unless it is empty |
| TableParser.AssembleLoopStep | backtest_analysis_processor_working.py:254-285 | one iteration preserves the loop invariant |
| TableParser.AssembleLoopDone | backtest_analysis_processor_working.py:291 | at the end of the loop the dictionary is the final one |
| TableParser.FreshEntry | backtest_analysis_processor_working.py:277-285 | a table contributes nothing when empty, otherwise one entry under its stripped name |
| TableParser.AssignFresh | backtest_analysis_processor_working.py:278 | storing under a new name appends one entry and keeps the names unique |
| TableParser.AssembleDistinct | backtest_analysis_processor_working.py:252-285 | with distinct stripped names, the loop appends each non-empty table under its own name |
| TableParser.AllTablesDistinct | backtest_analysis_processor_working.py:229-291 | when no two tables share a stripped name, nothing is renamed or overwritten: every non-empty table is kept under its name, in sheet order |
| TableParser.RenameCanOverwrite | backtest_analysis_processor_working.py:265-266 | the `_<n>` suffix can collide: with tables `A` and `A_3` parsed, a third table `A` replaces the one stored as `A_3` |
| Records.PortfolioColumns | consolidate_batch_results.py:65-71 | the batch portfolio columns are exactly the CSV labels starting with "Grid_", "Portfolio_" or "TreasuryGrid_" |
| Records.PositiveWeight | consolidate_batch_results.py:85-87 | a weight counts exactly when it is a number above zero |
| Records.ColumnMetadata | consolidate_batch_results.py:83-95 | one column yields at most one metadata row per CSV row |
| Records.ColumnMetadataExact | consolidate_batch_results.py:83-95 | a metadata row of a column is exactly one that a positive weight of that column yields, carrying the identifier, the column, the asset description and the weight over 100 |
| Records.CollectColumnMetadata | backtest_analysis_processor_working.py:435-446 | the row loop returns one metadata row per positive weight, in row order |
| Records.MetadataParts | consolidate_batch_results.py:75-95 | the metadata of each portfolio column, column by column |
| Records.MetadataSnoc | consolidate_batch_results.py:75-95 | the metadata of a list of columns is that of all but the last, followed by the last column's |
| Records.MetadataExact | backtest_analysis_processor_working.py:429-446 | the metadata holds exactly the (portfolio column, asset row) pairs with a positive weight, with the weight divided by 100 |
| Records.MetadataWeightsPositive | backtest_analysis_processor_working.py:440 | every metadata weight is positive |
| Records.CellAt | backtest_analysis_processor_working.py:509-510 | reading a row by position gives that cell |
| Records.MetricAt | consolidate_batch_results.py:171-184 | a cell yields a metric row exactly when it is a number; the row is named by `str()` of the row's first cell |
| Records.ColumnMetrics | consolidate_batch_results.py:171-184 | one column yields at most one metric row per table row |
| Records.ColumnMetricsExact | consolidate_batch_results.py:171-184 | a metric row of a column is exactly one that a numeric cell of that column yields |
| Records.ColumnMetricsNoNumbers | backtest_analysis_processor_working.py:513 | a column without numbers yields no metric rows |
| Records.CollectColumnMetrics | backtest_analysis_processor_working.py:508-520 | the row loop returns the metric rows of the column, in row order |
| Registry.IdRegistry.constructor | consolidate_batch_results.py:209 | the dictionary starts empty |
| Registry.IdRegistry.Mint | backtest_analysis_processor_working.py:431-432 | a fresh identifier is stored under the name, replacing any earlier one, and the dictionary stays valid |
| Registry.IdRegistry.ResolveOrCreate | consolidate_batch_results.py:76-80 | a known name keeps its identifier and nothing changes; a new name gets a fresh identifier |
| Legacy.SelectedColumns | backtest_analysis_processor_working.py:423-424 | the names given, or else every CSV label starting with "Portfolio_", in CSV order |
| Legacy.Consecutive | backtest_analysis_processor_working.py:429-431 | the oracle hands out `first`, `first + 1`, ... in column order |
| Legacy.MintedIdsValid | backtest_analysis_processor_working.py:429-432 | the identifier dictionary has exactly the selected names as keys, identifiers from the oracle, and no identifier shared by two names |
| Legacy.MintedIdsDistinct | backtest_analysis_processor_working.py:429-432 | with distinct names, the `k`-th name gets the `k`-th identifier |
| Legacy.GeneratePortfolioMetadata | backtest_analysis_processor_working.py:406-456 | the method returns the metadata of the selected columns with consecutive identifiers, and the dictionary of those identifiers |
| Legacy.MintAndCollect | backtest_analysis_processor_working.py:429-446 | the column loop mints one identifier per column and collects that column's metadata |
| Legacy.MetadataMatchesIds | backtest_analysis_processor_working.py:429-446 | with distinct columns, every metadata row carries the identifier the returned dictionary gives its portfolio |
| Legacy.LegacyKey | backtest_analysis_processor_working.py:492-499 | a result column maps to Portfolio_1, Portfolio_2 or Portfolio_3, tried in that order, or to nothing |
| Legacy.LegacyTableParts | backtest_analysis_processor_working.py:489-520 | the metrics of each result column of a table, all columns but the first |
| Legacy.LegacyTableMetricsExact | backtest_analysis_processor_working.py:489-520 | a metric row of a table is exactly one that a numeric cell of a mapped result column yields |
| Legacy.LegacyTableOrigin | backtest_analysis_processor_working.py:489-520 | every metric row of a table comes from some column and row |
| Legacy.LegacyTableEmitted | backtest_analysis_processor_working.py:508-520 | every numeric cell of a mapped result column gives a metric row |
| Legacy.LegacyParts | backtest_analysis_processor_working.py:478-520 | the metrics of each target table, in target order |
| Legacy.LegacyMetricsExact | backtest_analysis_processor_working.py:459-528 | the metrics hold exactly the numbers of the mapped result columns of the target tables present |
| Legacy.LegacyMetricsSound | backtest_analysis_processor_working.py:501-520 | every metric row names a target table and one of the three portfolios, and carries that portfolio's identifier |
| Legacy.ExtractPerformanceMetricsLong | backtest_analysis_processor_working.py:459-528 | the method returns the long-format metrics: target tables in order, a missing table skipped |
| Legacy.LegacyTableRows | backtest_analysis_processor_working.py:486-520 | the result-column loop of one table returns its metrics |
| Consolidation.FirstTableContaining | consolidate_batch_results.py:36-37 | the first table in dictionary order whose name contains the text, or none when no name does |
| Consolidation.ResultColumns | consolidate_batch_results.py:40-42 | exactly the result columns, all but the first, containing "Portfolio" or "Sample" |
| Consolidation.PortfolioNames | consolidate_batch_results.py:25-45 | only result columns are returned, and only when a performance table exists |
| Consolidation.ExtractPortfolioNamesFromBatch | consolidate_batch_results.py:25-45 | the loop returns at the first performance table with that table's portfolio columns, or returns none |
| Consolidation.ResolveAllSnoc | consolidate_batch_results.py:75-80 | resolving one more name is one more resolve-or-create step |
| Consolidation.ResolveAllSpec | consolidate_batch_results.py:75-80 | resolving keeps every existing identifier, adds exactly the new names with fresh identifiers, and keeps the dictionary valid |
| Consolidation.ResolveAllKnown | consolidate_batch_results.py:77-78 | resolving names that all have an identifier mints nothing and changes nothing |
| Consolidation.ResolveAllIdempotent | consolidate_batch_results.py:75-80 | resolving the same batch of names twice gives the same dictionary and oracle state as resolving it once |
| Consolidation.ResolveAllAppend | consolidate_batch_results.py:212-229 | resolving two batches in turn is resolving their columns together |
| Consolidation.ResolveAllKeeps | consolidate_batch_results.py:77 | a known name keeps its identifier |
| Consolidation.ResolveAllHas | consolidate_batch_results.py:75-80 | afterwards, a name is known exactly when it was known before or was resolved |
| Consolidation.UuidsOf | consolidate_batch_results.py:80 | the identifier the dictionary holds for each column |
| Consolidation.GenerateBatchMetadata | consolidate_batch_results.py:48-97 | the registry resolves every batch column in order, and the rows are the batch's metadata with the identifiers the dictionary now holds |
| Consolidation.MetadataLoopStep | consolidate_batch_results.py:75-95 | resolving column `k` and appending its rows keeps the loop state |
| Consolidation.MetadataLoopDone | consolidate_batch_results.py:97 | at the end of the loop the dictionary and the rows are the promised ones |
| Consolidation.PvLabelInjective | consolidate_batch_results.py:146-150 | different batch positions get different result-column labels |
| Consolidation.PvMapAt | consolidate_batch_results.py:146-150 | the label of position `i` maps to batch column `i` |
| Consolidation.PvMapKey | consolidate_batch_results.py:146-150 | the mapping has no key but those labels, and yields only batch columns |
| Consolidation.BuildPvMapping | consolidate_batch_results.py:145-150 | the loop builds the label-to-column mapping |
| Consolidation.MapGet | consolidate_batch_results.py:159-163 | `dict.get` finds a key exactly when it is present |
| Consolidation.GridNameSpec | consolidate_batch_results.py:153-163 | a result column only maps to a batch column, and the label of position `i` maps to column `i` |
| Consolidation.PvMapGet | consolidate_batch_results.py:145-150 | looking up the label of position `i` gives batch column `i`, or nothing past the last column |
| Consolidation.FallbackKeys | consolidate_batch_results.py:159-163 | "Sample Portfolio", "Portfolio 2" and "Portfolio 3" look up the first, second and third batch columns, or nothing when the batch is shorter |
| Consolidation.GridNameFallback | consolidate_batch_results.py:155-163 | a result column that is no label goes to the first batch column when its lower-case text holds "sample", else to the second for "portfolio 2", else to the third for "portfolio 3", and to nothing otherwise |
| Consolidation.SampleBeforePortfolio2 | consolidate_batch_results.py:158-161 | "sample" is tried before "portfolio 2": "Sample Portfolio 2" holds both and goes to the first batch column |
| Consolidation.NotALabel | consolidate_batch_results.py:156 | a text starting with 'S' other than "Sample Portfolio" is not a key of the mapping |
| Consolidation.BatchTableParts | consolidate_batch_results.py:153-184 | the metrics of each result column of a table |
| Consolidation.BatchParts | consolidate_batch_results.py:132-184 | the metrics of each target, in target order |
| Consolidation.BatchTableMetricsExact | consolidate_batch_results.py:153-184 | a metric row of a table is exactly one a numeric cell of a mapped result column yields |
| Consolidation.BatchMetricsExact | consolidate_batch_results.py:132-184 | the batch metrics hold exactly the numbers of the mapped result columns of the tables the targets find |
| Consolidation.BatchMetricsOrigin | consolidate_batch_results.py:132-184 | every metric row of a batch comes from some target, column and row |
| Consolidation.BatchMetricsEmitted | consolidate_batch_results.py:171-184 | every numeric cell of a mapped result column of a found table gives a metric row |
| Consolidation.BatchMetricsSound | consolidate_batch_results.py:165-184 | every metric row names a batch column and carries its identifier, from a table whose name contains a target's first 30 characters |
| Consolidation.ExtractBatchMetrics | consolidate_batch_results.py:100-186 | the method returns the batch metrics for the batch CSV's portfolio columns |
| Consolidation.BatchTableRows | consolidate_batch_results.py:153-184 | the result-column loop of one table returns its metrics |
| Consolidation.ParsedTargetsHaveColumns | consolidate_batch_results.py:142 | every table the parser returns has a first column to read |
| Consolidation.ResolvedAllIn | consolidate_batch_results.py:75-80 | after resolving, every resolved name has an identifier |
| Consolidation.MetadataOfBatches | consolidate_batch_results.py:227-230 | the metadata of each batch, in manifest order |
| Consolidation.MetricsOfBatches | consolidate_batch_results.py:233-236 | the metrics of each batch, in manifest order |
| Consolidation.ConsolidateAllBatches | consolidate_batch_results.py:189-252 | the method threads one dictionary through the batches and returns the concatenated metadata, metrics and final dictionary, or nothing for no batch |
| Consolidation.StateAfterSpec | consolidate_batch_results.py:212-229 | after `n` batches, the dictionary is valid and its identifiers were drawn from the oracle since the start |
| Consolidation.StateAfterKeys | consolidate_batch_results.py:212-229 | after `n` batches, the dictionary holds exactly the portfolio columns seen so far |
| Consolidation.SeenInStep | consolidate_batch_results.py:212-229 | a column is seen in the first `n` batches when it is seen in the first `n - 1` or in batch `n` |
| Consolidation.StateAfterExtends | consolidate_batch_results.py:227-229 | a later dictionary keeps every identifier of an earlier one |
| Consolidation.ConsolidatedMap | consolidate_batch_results.py:241-252 | there is no result exactly when there is no batch; the final dictionary holds exactly the columns of all batches, with no shared identifier |
| Consolidation.ConsolidatedIdsConsistent | consolidate_batch_results.py:212-236 | every metadata and metric row carries the identifier the final dictionary holds for its portfolio, whichever batch it came from |
| Consolidation.MetadataRowConsistent | consolidate_batch_results.py:227-230 | a consolidated metadata row carries its portfolio's final identifier |
| Consolidation.BatchMetadataRowConsistent | consolidate_batch_results.py:227-230 | a metadata row of batch `b` carries its portfolio's final identifier |
| Consolidation.MetadataColumnOf | consolidate_batch_results.py:88-95 | a metadata row comes from a column whose name and identifier it carries |
| Consolidation.MetricRowConsistent | consolidate_batch_results.py:233-236 | a consolidated metric row carries its portfolio's final identifier |
| Consolidation.MetricRowOfBatch | consolidate_batch_results.py:233-235 | a metric row of batch `b` carries the identifier its portfolio had after that batch |
| TreasuryGrid.Max4 | generate_treasury_term_grid.py:64 | `max` of four values is one of them and at least each of them |
| TreasuryGrid.IncrementsValues | generate_treasury_term_grid.py:56 | the increments are 0, 5, ..., 25 |
| TreasuryGrid.ChooseExact | generate_treasury_term_grid.py:58-70 | once outer weights are chosen, the inner loops emit exactly the accepted on-grid splits starting with them |
| TreasuryGrid.ExpandExact | generate_treasury_term_grid.py:58-70 | a loop that has run over its first `n` increments has emitted exactly the accepted on-grid splits continuing the prefix with one of them |
| TreasuryGrid.SplitsExact | generate_treasury_term_grid.py:47-72 | the splits are exactly those with every weight a 5-point step, a total of 25 and a positive weight |
| TreasuryGrid.ChooseAscending | generate_treasury_term_grid.py:58-70 | the inner loops emit in strictly increasing lexicographic order |
| TreasuryGrid.ExpandAscending | generate_treasury_term_grid.py:58-70 | a partial loop emits in strictly increasing lexicographic order |
| TreasuryGrid.SplitsAscending | generate_treasury_term_grid.py:47-72 | every split appears once, in lexicographic order |
| TreasuryGrid.ExpandSnoc | generate_treasury_term_grid.py:58-61 | one more loop iteration appends the splits of that increment |
| TreasuryGrid.GenerateTreasurySplits | generate_treasury_term_grid.py:47-72 | the four nested loops return the splits |
| TreasuryGrid.SplitsAfter | generate_treasury_term_grid.py:60-70 | the ten-year loop returns the splits for the fixed short and intermediate weights |
| TreasuryGrid.LongSplits | generate_treasury_term_grid.py:61-70 | the long loop returns the accepted completions of three weights |
| TreasuryGrid.GridIdInjective | generate_treasury_term_grid.py:90 | different positions give different `TreasuryGrid_{idx:03d}` ids |
| TreasuryGrid.PortfolioOfSpec | generate_treasury_term_grid.py:89-101 | a portfolio keeps the base weights, takes the split on the treasuries, and totals exactly 100 when the split totals 25 |
| TreasuryGrid.AssetOrderSum | generate_treasury_term_grid.py:104 | the total is the sum of the ten asset weights |
| TreasuryGrid.WeightSumSnoc | generate_treasury_term_grid.py:104 | the running sum adds one weight per asset |
| TreasuryGrid.Grid | generate_treasury_term_grid.py:88-107 | one portfolio per split |
| TreasuryGrid.GridIdsDistinct | generate_treasury_term_grid.py:88-90 | grid ids are `TreasuryGrid_` and the 1-based position, so no two portfolios share one |
| TreasuryGrid.CreatePortfolioGrid | generate_treasury_term_grid.py:74-109 | the loop returns one portfolio per generated split, in order; its sum check never fails |
| TreasuryGrid.SplitPortfolioTotal | generate_treasury_term_grid.py:103-105 | every generated split gives a portfolio within 0.01 of 100 |
| TreasuryGrid.GridSnoc | generate_treasury_term_grid.py:88-107 | one more iteration appends the next portfolio |
| TreasuryGrid.AssetFrame | generate_treasury_term_grid.py:115-179 | the asset frame has four distinct columns, with numbers 1..10 and the descriptions in asset order |
| TreasuryGrid.AssetFrameNotGrid | generate_treasury_term_grid.py:191 | no column of the asset list is a grid column |
| TreasuryGrid.AllocationsOf | generate_treasury_term_grid.py:184-187 | a portfolio's column holds its weight for each asset, in row order |
| TreasuryGrid.SetColumns | generate_treasury_term_grid.py:182-189 | setting columns keeps the names unique |
| TreasuryGrid.SetNewColumns | generate_treasury_term_grid.py:182-189 | setting columns with new, distinct names appends them in order |
| TreasuryGrid.SetNewColumn | generate_treasury_term_grid.py:189 | setting one new column appends it |
| TreasuryGrid.AssignNew | generate_treasury_term_grid.py:189 | assigning a new column name appends it |
| TreasuryGrid.NewColumnKey | generate_treasury_term_grid.py:189 | a distinct grid column is not among the columns before it |
| TreasuryGrid.SetColumnsStep | generate_treasury_term_grid.py:182-189 | each iteration is one column assignment |
| TreasuryGrid.BaseColumnsKept | generate_treasury_term_grid.py:182-191 | setting columns keeps the number and description columns |
| TreasuryGrid.GridColumns | generate_treasury_term_grid.py:182-189 | one column per portfolio |
| TreasuryGrid.CreateAssetMappingTable | generate_treasury_term_grid.py:111-191 | the method returns the asset table: the asset list, each portfolio's column set in grid order, then the selection |
| TreasuryGrid.CollectPortfolioAllocations | generate_treasury_term_grid.py:184-187 | the inner loop returns the portfolio's weight for each asset |
| TreasuryGrid.UniqueWithGridColumns | generate_treasury_term_grid.py:189-191 | the asset list followed by distinct grid columns has distinct names |
| TreasuryGrid.AssetTableLayout | generate_treasury_term_grid.py:178-191 | for distinct grid ids, the table is the asset numbers, the descriptions, then one column per portfolio in grid order |
| TreasuryGrid.SelectFrameAndColumns | generate_treasury_term_grid.py:191 | the selection keeps the number and description columns, then exactly the grid columns |
| TreasuryGrid.AssetFrameKeys | generate_treasury_term_grid.py:191 | the asset list has the two selected columns |
| TreasuryGrid.FrameNotGrid | generate_treasury_term_grid.py:191 | the asset list contributes no grid column |
| TreasuryGrid.GridAssetTable | generate_treasury_term_grid.py:111-191 | the table of the generated grid is the asset numbers, the descriptions, then one column per grid portfolio holding its weights |
| TreasuryGrid.GridPortfolio | generate_treasury_term_grid.py:88-101 | every grid portfolio has a weight for each asset and a `TreasuryGrid_` id |
| BatchRunner.NumBatchesCeiling | run_batch_backtest_optimized.py:338 | the batch count is the ceiling of n / 3 |
| BatchRunner.BatchColumnsInRange | run_batch_backtest_optimized.py:357-359 | a batch inside the count holds one to three consecutive columns |
| BatchRunner.BatchColumnsPastEnd | run_batch_backtest_optimized.py:357-359 | a batch past the count is empty |
| BatchRunner.BatchParts | run_batch_backtest_optimized.py:355-359 | the batches, in order |
| BatchRunner.BatchesCover | run_batch_backtest_optimized.py:355-359 | read in order, the batches give back every column exactly once |
| BatchRunner.BatchFileName | run_batch_backtest_optimized.py:364 | the batch file name starts with `batch_<nnn>_<first column>` and ends with `.csv`; an empty batch has none (the index raises) |
| BatchRunner.OutputAliasInjective | run_batch_backtest_optimized.py:285 | different batches get different aliases |
| BatchRunner.RunStopped | run_batch_backtest_optimized.py:355-379 | once the run stops on an empty batch, later batches do not restart it |
| BatchRunner.RunStopsAt | run_batch_backtest_optimized.py:359-364 | an empty batch in the range stops the run |
| BatchRunner.RunStepResult | run_batch_backtest_optimized.py:372-377 | a batch that produced a workbook adds its result row |
| BatchRunner.RunStepFailed | run_batch_backtest_optimized.py:378-379 | a batch that produced nothing adds its number to the failures |
| BatchRunner.RunEmpty | run_batch_backtest_optimized.py:350-351 | the log starts empty |
| BatchRunner.RunDone | run_batch_backtest_optimized.py:355 | when the loop ends, the log is the run over the whole range |
| BatchRunner.RunBatches | run_batch_backtest_optimized.py:337-379 | the batch loop returns the run log over `start_batch - 1 .. end_idx` |
| BatchRunner.RunLogged | run_batch_backtest_optimized.py:355-379 | inside the batch count the run never stops, and every batch of the range is logged once, as a result or as a failure |
| BatchRunner.RunOrdered | run_batch_backtest_optimized.py:355-379 | results and failures are in batch order, each result with its batch's columns and workbook |
| BatchRunner.ResultsSnoc | run_batch_backtest_optimized.py:373-377 | appending the next batch's row keeps the results ordered |
| BatchRunner.FailuresSnoc | run_batch_backtest_optimized.py:379 | appending the next failure keeps the failures ordered |
| BatchRunner.KeepLastBatches | run_batch_backtest_optimized.py:412 | deduplication keeps every batch number and adds none |
| BatchRunner.KeepLastIsLast | run_batch_backtest_optimized.py:412 | the row kept for a batch is its last row |
| BatchRunner.KeepLastDistinct | run_batch_backtest_optimized.py:412 | after deduplication each batch number appears once |
| BatchRunner.MergeManifestSpec | run_batch_backtest_optimized.py:406-414 | the merged manifest holds every batch of the run with its new row, and keeps an old row only for batches the run did not redo |
| BatchRunner.FormColumns | run_batch_backtest_optimized.py:226-227 | at most the first three batch portfolio columns, a prefix of them |
| BatchRunner.ReadBatch | run_batch_backtest_optimized.py:224-263 | the asset classes by known description and the allocation dictionary of the first three columns, text weights read through `float()` |
| Allocations.FloatValue | portfolio_backtest.py:986 | `float()` keeps a number, reads text through the parse parameter, and gives nothing for a missing cell |
| Allocations.FormWeight | portfolio_backtest.py:985-987 | a weight counts exactly when the column exists, the cell is present and `float()` of it is above zero; the weight is that value |
| Allocations.FormWeightOfNumbers | portfolio_backtest.py:985-987 | on a column without text, the form loaders read the same weights as the metadata generators |
| Allocations.TextWeightLoads | portfolio_backtest.py:985-987 | a text weight that `float()` reads as a positive number is loaded |
| Allocations.AllocationParts | portfolio_backtest.py:981-988 | the entries of each CSV row |
| Allocations.RowAllocationsSpec | portfolio_backtest.py:984-988 | a row's entries are exactly its positive weights, in slot order |
| Allocations.RowAllocationsExact | portfolio_backtest.py:984-988 | an entry belongs to a row exactly when it is that row's positive weight for the slot |
| Allocations.RowAllocationsSound | portfolio_backtest.py:984-988 | an entry of a row is keyed by that row and a chosen slot and holds its positive weight |
| Allocations.RowAllocationsComplete | portfolio_backtest.py:984-988 | every positive weight of a row gives an entry |
| Allocations.RowAllocationsAscending | portfolio_backtest.py:984-988 | a row's entries are keyed by that row, in slot order |
| Allocations.AllocationsPrefixExact | portfolio_backtest.py:980-988 | after `k` rows, the dictionary holds exactly their positive weights |
| Allocations.AllocationsPrefixAscending | portfolio_backtest.py:980-988 | after `k` rows, the entries are in row-major slot order |
| Allocations.AllocationsSpec | portfolio_backtest.py:980-988 | one entry per positive weight, keyed by row and slot from 1, in row-major order, no key assigned twice |
| Allocations.CollectAllocations | portfolio_backtest.py:980-988 | the loop returns the allocation dictionary, reading text weights through `float()` |
| Allocations.CollectRowAllocations | portfolio_backtest.py:984-988 | the inner loop returns one row's entries |
| Allocations.DescribedClass | portfolio_backtest.py:973-975 | a row gets a class exactly when its description is in the table, and gets the table's class |
| Allocations.DescribedAssetsSpec | portfolio_backtest.py:970-977 | one entry per row with a known description, keyed by row from 1 with the table's class; unknown rows are skipped; keys ascend |
| Allocations.CollectDescribedAssets | portfolio_backtest.py:970-977 | the description loop returns that mapping |
| Backtest.FormColumns | portfolio_backtest.py:927-941 | the "Grid_" and "Portfolio_" columns in CSV order, cut to three |
| Backtest.TreasuryGridNotForm | portfolio_backtest.py:927-928 | a `TreasuryGrid_` column is never taken by the single backtest |
| Backtest.Trunc | portfolio_backtest.py:955 | `int()` of a float truncates toward zero |
| Backtest.OptionRows | portfolio_backtest.py:954-957 | one (asset number, option value) pair per row, in row order |
| Backtest.AssignAll | portfolio_backtest.py:953-957 | assigning the pairs in turn keeps keys unique |
| Backtest.AssignAllKeys | portfolio_backtest.py:953-957 | the dictionary has a key for each assigned key and no other |
| Backtest.AssignAllLast | portfolio_backtest.py:953-957 | when a key is assigned several times, the last assignment gives its value |
| Backtest.AssignedNow | portfolio_backtest.py:957 | the last pair assigned gives its key's value |
| Backtest.AssignedBefore | portfolio_backtest.py:957 | assigning another key leaves a key's value as it was |
| Backtest.CollectOptionValues | portfolio_backtest.py:951-957 | the option-value loop returns the mapping |
| Backtest.OptionValuesSpec | portfolio_backtest.py:951-957 | the mapping has exactly the asset numbers that occur, and the last row with a number gives its option value |
| Backtest.LoadAllocations | portfolio_backtest.py:923-988 | the form's portfolios, its asset classes by whichever format the CSV has, and the allocation dictionary |
| Backtest.PortfolioTotalAppend | portfolio_backtest.py:217-219 | portfolio totals add up over concatenation |
| Backtest.ValidatePortfolioWeights | portfolio_backtest.py:204-236 | three records for portfolios 1 to 3, each with its total and valid exactly when that total is within 0.01 of 100 |
| Backtest.RowTotal | portfolio_backtest.py:984-988 | one row contributes its positive weight in column `p` to portfolio `p` only |
| Backtest.CellTotal | portfolio_backtest.py:985-988 | the entry of one cell counts toward its own portfolio only |
| Backtest.AllocationsTotal | portfolio_backtest.py:217-219 | the total over the first `k` rows is the sum of the positive weights in that column |
| Backtest.ValidationOfCsv | portfolio_backtest.py:204-236 | validating a loaded CSV judges each chosen column by the sum of its positive weights |
| Backtest.WithXlsx | portfolio_backtest.py:504-505 | the name ends with ".xlsx", unchanged when it already did |
| Backtest.DownloadNameSuffix | portfolio_backtest.py:503-520 | the workbook name always ends with `_<timestamp>.xlsx` |
| Backtest.DownloadNameOfStem | portfolio_backtest.py:503-510 | with or without ".xlsx", an output name with a real stem gives `<stem>_<timestamp>.xlsx` |
| Backtest.NamedAfterStem | portfolio_backtest.py:504-510 | an output name whose ".xlsx" form splits into a stem gives `<stem>_<timestamp>.xlsx` |
| Backtest.WithXlsxOfStem | portfolio_backtest.py:504-505 | adding ".xlsx" to a stem and keeping `stem.xlsx` agree |
| Backtest.XlsxSplits | portfolio_backtest.py:509 | `stem.xlsx` splits back into the stem and ".xlsx" |
| Destination.CandidateInjective | run_batch_backtest_optimized.py:301 | different counters give different names |
| Destination.CandidateIsNew | run_batch_backtest_optimized.py:298-301 | an alternative name is never the original |
| Destination.UniqueDestination | run_batch_backtest_optimized.py:296-302 | the destination never collides: the original when free, otherwise the first free `base_<n>.ext` |
| Destination.ProbeStep | run_batch_backtest_optimized.py:300-302 | a taken name joins the tried ones, and the next one is untried |
| Destination.NotTriedYet | run_batch_backtest_optimized.py:300-302 | the next alternative differs from all names tried |
| Util.Filter | consolidate_batch_results.py:65-71 | a filtering list comprehension keeps exactly the elements that pass, in order |
| Util.FilterAppend | consolidate_batch_results.py:40-42 | filtering distributes over concatenation |
| Util.PySlice | run_batch_backtest_optimized.py:359 | Python slicing agrees with the plain slice for in-range bounds |
| Util.Take | consolidate_batch_results.py:134 | `s[:n]` is a prefix of length `min(n, len(s))` |
| Util.FlattenIn | consolidate_batch_results.py:242-243 | an element of the concatenation is an element of one part, and back |
| Util.Lower | backtest_analysis_processor_working.py:118 | `lower()` maps each character |
| Util.Strip | backtest_analysis_processor_working.py:262 | the stripped name is a slice of the raw name with only whitespace outside it, and neither starts nor ends with whitespace |
| Util.StripLeft | backtest_analysis_processor_working.py:262 | the leading whitespace is removed and nothing else |
| Util.StripRight | backtest_analysis_processor_working.py:262 | the trailing whitespace is removed and nothing else |
| Util.Dec | backtest_analysis_processor_working.py:266 | `str(n)` is a string of digits whose length grows with `n` |
| Util.DecInjective | backtest_analysis_processor_working.py:266 | different numbers have different decimal forms |
| Util.Pad03 | run_batch_backtest_optimized.py:285 | `{n:03d}` has at least three characters, exactly three below 1000 |
| Util.Pad03Digits | run_batch_backtest_optimized.py:285 | below 1000 the padded form is exactly the three digits |
| Util.Pad03Large | run_batch_backtest_optimized.py:285 | from 1000 on the padded form is the plain decimal |
| Util.Pad03Injective | run_batch_backtest_optimized.py:364 | different batch numbers get different padded forms |
| Util.RFind | portfolio_backtest.py:509 | the last occurrence of a character, with nothing after it |
| Util.Splitext | run_batch_backtest_optimized.py:298 | `splitext` splits a name into a root and an extension that starts with a dot, and their concatenation is the name |
| Util.SplitextOfStem | portfolio_backtest.py:1131 | a stem with a plain extension splits back into stem and extension |
| Util.Assign | consolidate_batch_results.py:78 | `d[k] = v` replaces an existing key in place and appends a new one, keeping keys unique |
| Util.AssignKeys | consolidate_batch_results.py:78 | after an assignment the keys are the old ones and the assigned one |
| Util.Lookup | consolidate_batch_results.py:80 | `d[k]` gives the value stored under `k` |
| Util.LookupAt | consolidate_batch_results.py:80 | with unique keys, looking up a position's key yields its value |

## Left out

- Browser automation is not modelled: Selenium, the login modal, dropdown selection,
  form entry and the download wait. A batch's run is an `outcome` parameter giving the
  workbook it produced, if any.
- File I/O is not modelled: `pd.read_excel`, `pd.read_csv`, `to_csv`, `shutil.move` and
  `os.makedirs`. Files arrive as already-loaded grids and CSVs, and the files already on
  disk are a set parameter.
- The clock is not modelled: the timestamp in download names is a string parameter.
- The sleep times and the `--wait-time` pause between batches are left out.
- Console output (`print`, progress reports, warnings), `display_parsed_tables` and the
  scripts' `main` entry points are left out, except for the batch loop of the batch
  runner's `main`.
- Registry: `uuid.uuid4()` is a counter oracle. Real identifiers are random strings; the
  model assumes they never collide.
- Sheet.CellText: `str()` of a numeric cell is not computed. A numeric cell carries its
  own text, and `str()` of a missing cell is "nan".
- Numbers are Dafny reals, not floats. Rounding in weight sums is not modelled, so the
  `abs(total - 100) < 0.01` test is exact arithmetic here.
- Util.Lower lower-cases ASCII letters only. Util.Strip uses Python's whitespace set by
  code point.
- pandas frames with duplicate column labels are read by position.
- A CSV that would make the scripts crash is excluded by a precondition rather than
  modelled as an error. This covers a missing `Asset_Description` column, and text in a
  weight column where `float()` or the comparison with 0 raises. The metadata generators
  compare the raw cell with 0, so they exclude any text. The form loaders call `float()`
  first, so they exclude only text `float()` rejects. It also covers a non-numeric
  `Asset_Number` passed to `int()`.
- Allocations.FloatValue: which texts `float()` accepts, and the number each spells, is a
  parameter rather than computed. Text that `float()` reads as `nan` or `inf` is outside the
  model, since reals have neither.
- BatchRunner.ReadBatch: a weight `float()` rejects, or a missing `Asset_Description`
  column, raises inside `run_single_batch`, whose handler turns it into a failed batch.
  ReadBatch excludes such CSVs by precondition, and the run loop's `outcome` parameter
  carries the failure.
- Consolidation.ConsolidateAllBatches takes each manifest row as an already-parsed batch:
  its tables and its CSV. The `glob` lookup of the batch file is left out. So is an
  `IndexError` when no file matches.
- Consolidation.ConsolidateAllBatches returns nothing for an empty manifest. There,
  `pd.concat` of no frames raises.
- BatchRunner.RunBatches: an empty batch (a start or end batch past the batch count) makes
  `batch_cols[0]` raise. The model stops the run with no log, and no manifest is written.
- BatchRunner.RunBatches: batches are run in the order given, by browser sessions outside
  the model. The exception handler that turns any failure into a failed batch is the
  `outcome` parameter returning nothing.
- The manifest merge is modelled on rows already read. Reading and writing the manifest
  file are left out.
- Backtest.LoadAllocations: the default CSV path is left out. So are the `FileNotFoundError`
  branch and the preview printed for ten or fewer portfolios.
- Destination.UniqueDestination is the same loop as portfolio_backtest.py:1130-1137. The
  later `shutil.move` is left out. A move onto an existing file elsewhere overwrites it;
  only the chosen name is modelled.
- resume_batches.py and generate_portfolio_grid.py are not part of this model.
- The single-file metrics step of backtest_analysis_processor_working.py after line 530 is
  left out. It sits after a `return` and cannot run.
