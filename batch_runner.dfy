/**
 * The data side of the batch runner: splitting the grid's portfolio columns into
 * batches of three, naming the batch files, collecting which batches produced a
 * results workbook, merging the run into the manifest, and reading a batch CSV into
 * the form's asset classes and allocations.
 */
module BatchRunner {
  import opened Util
  import opened Sheet
  import opened Records
  import opened Allocations

  // ---------------------------------------------------------------------------
  // Batch planning
  // ---------------------------------------------------------------------------

  const BatchSize: nat := 3

  /** `(num_portfolios + 2) // 3`. */
  function NumBatches(n: nat): nat
  {
    (n + 2) / 3
  }

  /** The batch count is the ceiling of n / 3: enough batches of three for every column,
      and not one more. */
  lemma NumBatchesCeiling(n: nat)
    ensures 3 * NumBatches(n) >= n
    ensures n > 0 ==> 3 * (NumBatches(n) - 1) < n
    ensures NumBatches(n) == 0 <==> n == 0
  {
  }

  /** `portfolio_cols[start_col:end_col]` for batch index `idx` (from 0; negative when
      the start batch is below 1). */
  function BatchColumns(cols: seq<string>, idx: int): seq<string>
  {
    var startCol := idx * 3;
    var endCol := if startCol + 3 < |cols| then startCol + 3 else |cols|;
    PySlice(cols, startCol, endCol)
  }

  /** A batch inside the count holds one to three consecutive columns. */
  lemma BatchColumnsInRange(cols: seq<string>, idx: nat)
    requires idx < NumBatches(|cols|)
    ensures 1 <= |BatchColumns(cols, idx)| <= BatchSize
    ensures BatchColumns(cols, idx) == cols[3 * idx .. if 3 * idx + 3 < |cols| then 3 * idx + 3 else |cols|]
  {
  }

  /** A batch past the count is empty. */
  lemma BatchColumnsPastEnd(cols: seq<string>, idx: nat)
    requires idx >= NumBatches(|cols|)
    ensures BatchColumns(cols, idx) == []
  {
  }

  function BatchParts(cols: seq<string>): (parts: seq<seq<string>>)
    ensures |parts| == NumBatches(|cols|)
    ensures forall i :: 0 <= i < |parts| ==> parts[i] == BatchColumns(cols, i)
  {
    seq(NumBatches(|cols|), i requires 0 <= i < NumBatches(|cols|) => BatchColumns(cols, i))
  }

  /** The batches partition the columns: read in order, they give back every column once. */
  lemma {:induction false} BatchesCover(cols: seq<string>)
    ensures Flatten(BatchParts(cols)) == cols
  {
    var parts := BatchParts(cols);
    var k := 0;
    while k < |parts|
      invariant 0 <= k <= |parts|
      invariant 3 * k <= |cols| || k == |parts|
      invariant Flatten(parts[..k]) == cols[..if 3 * k < |cols| then 3 * k else |cols|]
    {
      FlattenSnoc(parts, k);
      BatchColumnsInRange(cols, k);
      var next := if 3 * k + 3 < |cols| then 3 * k + 3 else |cols|;
      assert cols[..next] == cols[..3 * k] + cols[3 * k .. next];
      k := k + 1;
    }
    assert parts[..|parts|] == parts;
  }

  /** `f'batch_{batch_num:03d}_{batch_cols[0]}_to_{batch_cols[-1]}.csv'`; indexing an empty
      batch raises. */
  function BatchFileName(batchNum: int, batchCols: seq<string>): (r: Option<string>)
    ensures r.None? <==> batchCols == []
    ensures r.Some? ==> StartsWith(r.value, "batch_" + Pad03(batchNum) + "_" + batchCols[0]) && EndsWith(r.value, ".csv")
  {
    if batchCols == [] then None
    else
      var name := "batch_" + Pad03(batchNum) + "_" + batchCols[0] + "_to_" + batchCols[|batchCols| - 1] + ".csv";
      assert name[..|"batch_" + Pad03(batchNum) + "_" + batchCols[0]|] == "batch_" + Pad03(batchNum) + "_" + batchCols[0];
      assert name[|name| - 4..] == ".csv";
      Some(name)
  }

  /** `f"batch_{batch_num:03d}"`. */
  function OutputAlias(batchNum: int): string
  {
    "batch_" + Pad03(batchNum)
  }

  /** Different batches get different aliases. */
  lemma OutputAliasInjective(a: nat, b: nat)
    requires OutputAlias(a) == OutputAlias(b)
    ensures a == b
  {
    assert OutputAlias(a)[6..] == Pad03(a);
    assert OutputAlias(b)[6..] == Pad03(b);
    Pad03Injective(a, b);
  }

  /** The name the results workbook is downloaded under. */
  function ResultsDownloadName(batchNum: int): string
  {
    "portfolio_backtest_results_" + OutputAlias(batchNum) + ".xlsx"
  }

  // ---------------------------------------------------------------------------
  // The batch loop and the manifest
  // ---------------------------------------------------------------------------

  /** One manifest row: the batch, its portfolio columns and its results workbook. */
  datatype ManifestRow = ManifestRow(batchNum: int, portfolios: seq<string>, resultsFile: string)

  /** What the loop collects: `results_files` and `failed_batches`. */
  datatype RunLog = RunLog(results: seq<ManifestRow>, failed: seq<int>)

  /** `end_idx`: the requested end batch when given and non-zero, else the batch count. */
  function EndIndex(endBatch: Option<int>, numBatches: nat): int
  {
    if endBatch.Some? && endBatch.value != 0 then endBatch.value else numBatches
  }

  /**
   * The log after batch indices `lo..hi`, where `outcome(b)` is the results workbook
   * that running batch `b` produced, if any; an empty batch stops the run.
   */
  function Run(cols: seq<string>, lo: int, hi: int, outcome: int -> Option<string>): Option<RunLog>
    decreases if hi > lo then hi - lo else 0
  {
    if hi <= lo then Some(RunLog([], []))
    else match Run(cols, lo, hi - 1, outcome)
      case None => None
      case Some(log) =>
        var batchCols := BatchColumns(cols, hi - 1);
        if batchCols == [] then None
        else if outcome(hi).Some? then Some(RunLog(log.results + [ManifestRow(hi, batchCols, outcome(hi).value)], log.failed))
        else Some(RunLog(log.results, log.failed + [hi]))
  }

  /** Once the run has stopped on an empty batch, later batches do not restart it. */
  lemma {:induction false} RunStopped(cols: seq<string>, lo: int, h: int, hi: int, outcome: int -> Option<string>)
    requires Run(cols, lo, h, outcome).None? && h <= hi
    ensures Run(cols, lo, hi, outcome).None?
    decreases hi - h
  {
    if hi > h {
      RunStopped(cols, lo, h, hi - 1, outcome);
    }
  }

  /** The run over batch indices `lo..h` has not stopped and has logged `log`. */
  predicate RunSoFar(cols: seq<string>, lo: int, h: int, outcome: int -> Option<string>, log: RunLog)
  {
    Run(cols, lo, h, outcome) == Some(log)
  }

  /** An empty batch stops the run, and so the whole range. */
  lemma RunStopsAt(cols: seq<string>, lo: int, h: int, hi: int, outcome: int -> Option<string>)
    requires lo <= h < hi && BatchColumns(cols, h) == []
    ensures Run(cols, lo, hi, outcome).None?
  {
    RunStopped(cols, lo, h + 1, hi, outcome);
  }

  /** A batch that produced a workbook adds its result row to the log. */
  lemma RunStepResult(cols: seq<string>, lo: int, h: int, outcome: int -> Option<string>,
                      results: seq<ManifestRow>, failed: seq<int>, file: string)
    requires lo <= h && RunSoFar(cols, lo, h, outcome, RunLog(results, failed))
    requires BatchColumns(cols, h) != [] && outcome(h + 1) == Some(file)
    ensures RunSoFar(cols, lo, h + 1, outcome, RunLog(results + [ManifestRow(h + 1, BatchColumns(cols, h), file)], failed))
  {
  }

  /** A batch that produced nothing adds its number to the failures. */
  lemma RunStepFailed(cols: seq<string>, lo: int, h: int, outcome: int -> Option<string>,
                      results: seq<ManifestRow>, failed: seq<int>)
    requires lo <= h && RunSoFar(cols, lo, h, outcome, RunLog(results, failed))
    requires BatchColumns(cols, h) != [] && outcome(h + 1).None?
    ensures RunSoFar(cols, lo, h + 1, outcome, RunLog(results, failed + [h + 1]))
  {
  }

  lemma RunEmpty(cols: seq<string>, lo: int, outcome: int -> Option<string>)
    ensures RunSoFar(cols, lo, lo, outcome, RunLog([], []))
  {
  }

  /** When the loop ends, the log is the run over the whole range. */
  lemma RunDone(cols: seq<string>, lo: int, h: int, hi: int, outcome: int -> Option<string>, log: RunLog)
    requires RunSoFar(cols, lo, h, outcome, log) && !(h < hi) && (h == lo || h <= hi)
    ensures Run(cols, lo, hi, outcome) == Some(log)
  {
  }

  /** The loop of `main`: one batch file per batch index, run it, log the outcome. */
  method RunBatches(portfolioCols: seq<string>, startBatch: int, endBatch: Option<int>,
                    outcome: int -> Option<string>) returns (r: Option<RunLog>)
    ensures r == Run(portfolioCols, startBatch - 1, EndIndex(endBatch, NumBatches(|portfolioCols|)), outcome)
  {
    var numPortfolios := |portfolioCols|;
    var numBatches := (numPortfolios + 2) / 3;
    var startIdx := startBatch - 1;
    var endIdx := if endBatch.Some? && endBatch.value != 0 then endBatch.value else numBatches;
    assert endIdx == EndIndex(endBatch, NumBatches(|portfolioCols|));
    var resultsFiles: seq<ManifestRow> := [];
    var failedBatches: seq<int> := [];
    var batchIdx := startIdx;
    RunEmpty(portfolioCols, startIdx, outcome);
    while batchIdx < endIdx
      invariant startIdx <= batchIdx
      invariant batchIdx == startIdx || batchIdx <= endIdx
      invariant RunSoFar(portfolioCols, startIdx, batchIdx, outcome, RunLog(resultsFiles, failedBatches))
      decreases endIdx - batchIdx
    {
      var batchNum := batchIdx + 1;
      var batchCols := BatchColumns(portfolioCols, batchIdx);
      var batchFile := BatchFileName(batchNum, batchCols);
      if batchFile.None? {
        RunStopsAt(portfolioCols, startIdx, batchIdx, endIdx, outcome);
        return None;
      }
      var resultFile := outcome(batchNum);
      if resultFile.Some? {
        RunStepResult(portfolioCols, startIdx, batchIdx, outcome, resultsFiles, failedBatches, resultFile.value);
        resultsFiles := resultsFiles + [ManifestRow(batchNum, batchCols, resultFile.value)];
      } else {
        RunStepFailed(portfolioCols, startIdx, batchIdx, outcome, resultsFiles, failedBatches);
        failedBatches := failedBatches + [batchNum];
      }
      batchIdx := batchIdx + 1;
    }
    RunDone(portfolioCols, startIdx, batchIdx, endIdx, outcome, RunLog(resultsFiles, failedBatches));
    r := Some(RunLog(resultsFiles, failedBatches));
  }

  /** `rows` has a row with batch number `b`. */
  predicate HasBatch(rows: seq<ManifestRow>, b: int)
  {
    exists i :: 0 <= i < |rows| && rows[i].batchNum == b
  }

  /** Batch number `b` is in the log, as a result or as a failure. */
  predicate Logged(log: RunLog, b: int)
  {
    HasBatch(log.results, b) || b in log.failed
  }

  /**
   * Between batch 1 and the batch count the run never stops early, and every batch
   * number of the range is logged exactly once: as a result or as a failure, not both.
   */
  lemma {:induction false} RunLogged(cols: seq<string>, lo: nat, hi: int, outcome: int -> Option<string>, b: int)
    requires hi <= NumBatches(|cols|)
    ensures Run(cols, lo, hi, outcome).Some?
    ensures Logged(Run(cols, lo, hi, outcome).value, b) <==> lo < b <= hi
    ensures !(HasBatch(Run(cols, lo, hi, outcome).value.results, b) && b in Run(cols, lo, hi, outcome).value.failed)
    decreases if hi > lo then hi - lo else 0
  {
    if hi > lo {
      RunLogged(cols, lo, hi - 1, outcome, b);
      BatchColumnsInRange(cols, hi - 1);
      var log := Run(cols, lo, hi - 1, outcome).value;
      if outcome(hi).Some? {
        var rs := log.results + [ManifestRow(hi, BatchColumns(cols, hi - 1), outcome(hi).value)];
        assert rs[|log.results|].batchNum == hi;
        if HasBatch(rs, b) && b != hi {
          var i :| 0 <= i < |rs| && rs[i].batchNum == b;
          assert log.results[i] == rs[i];
        }
        if HasBatch(log.results, b) {
          var i :| 0 <= i < |log.results| && log.results[i].batchNum == b;
          assert rs[i] == log.results[i];
        }
      } else {
        RunLogged(cols, lo, hi - 1, outcome, hi);
      }
    }
  }

  /** A result row of batch indices `lo..hi`: a batch of the range, its one to three
      columns, and the workbook its run produced. */
  predicate ResultOfRun(cols: seq<string>, lo: int, hi: int, outcome: int -> Option<string>, row: ManifestRow)
  {
    lo < row.batchNum <= hi
    && row.portfolios == BatchColumns(cols, row.batchNum - 1)
    && 1 <= |row.portfolios| <= BatchSize
    && outcome(row.batchNum) == Some(row.resultsFile)
  }

  /** Result rows of the range, in increasing batch order. */
  predicate ResultsOfRun(cols: seq<string>, lo: int, hi: int, outcome: int -> Option<string>, rs: seq<ManifestRow>)
  {
    (forall i :: 0 <= i < |rs| ==> ResultOfRun(cols, lo, hi, outcome, rs[i]))
    && forall i, j :: 0 <= i < j < |rs| ==> rs[i].batchNum < rs[j].batchNum
  }

  /** Failed batches of the range, in increasing order. */
  predicate FailuresOfRun(lo: int, hi: int, fs: seq<int>)
  {
    (forall i :: 0 <= i < |fs| ==> lo < fs[i] <= hi)
    && forall i, j :: 0 <= i < j < |fs| ==> fs[i] < fs[j]
  }

  /**
   * The results are in batch order, each row holding its batch's one to three columns
   * and the workbook that batch produced; the failures are in batch order too.
   */
  lemma {:induction false} RunOrdered(cols: seq<string>, lo: nat, hi: int, outcome: int -> Option<string>)
    requires hi <= NumBatches(|cols|)
    ensures Run(cols, lo, hi, outcome).Some?
    ensures ResultsOfRun(cols, lo, hi, outcome, Run(cols, lo, hi, outcome).value.results)
    ensures FailuresOfRun(lo, hi, Run(cols, lo, hi, outcome).value.failed)
    decreases if hi > lo then hi - lo else 0
  {
    if hi > lo {
      RunOrdered(cols, lo, hi - 1, outcome);
      BatchColumnsInRange(cols, hi - 1);
      var log := Run(cols, lo, hi - 1, outcome).value;
      if outcome(hi).Some? {
        var row := ManifestRow(hi, BatchColumns(cols, hi - 1), outcome(hi).value);
        ResultsSnoc(cols, lo, hi, outcome, log.results, row);
        FailuresWiden(lo, hi, log.failed);
      } else {
        ResultsWiden(cols, lo, hi, outcome, log.results);
        FailuresSnoc(lo, hi, log.failed);
      }
    }
  }

  lemma ResultsSnoc(cols: seq<string>, lo: int, hi: int, outcome: int -> Option<string>,
                    rs: seq<ManifestRow>, row: ManifestRow)
    requires ResultsOfRun(cols, lo, hi - 1, outcome, rs) && ResultOfRun(cols, lo, hi, outcome, row)
    requires row.batchNum == hi
    ensures ResultsOfRun(cols, lo, hi, outcome, rs + [row])
  {
    forall i | 0 <= i < |rs|
      ensures ResultOfRun(cols, lo, hi, outcome, rs[i]) && rs[i].batchNum < hi
    {
      assert ResultOfRun(cols, lo, hi - 1, outcome, rs[i]);
    }
  }

  lemma ResultsWiden(cols: seq<string>, lo: int, hi: int, outcome: int -> Option<string>, rs: seq<ManifestRow>)
    requires ResultsOfRun(cols, lo, hi - 1, outcome, rs)
    ensures ResultsOfRun(cols, lo, hi, outcome, rs)
  {
    forall i | 0 <= i < |rs|
      ensures ResultOfRun(cols, lo, hi, outcome, rs[i])
    {
      assert ResultOfRun(cols, lo, hi - 1, outcome, rs[i]);
    }
  }

  lemma FailuresSnoc(lo: int, hi: int, fs: seq<int>)
    requires FailuresOfRun(lo, hi - 1, fs) && lo < hi
    ensures FailuresOfRun(lo, hi, fs + [hi])
  {
  }

  lemma FailuresWiden(lo: int, hi: int, fs: seq<int>)
    requires FailuresOfRun(lo, hi - 1, fs)
    ensures FailuresOfRun(lo, hi, fs)
  {
  }

  /**
   * `drop_duplicates(subset=['batch_num'], keep='last')`: a row survives when no later
   * row has its batch number.
   */
  function KeepLast(rows: seq<ManifestRow>): seq<ManifestRow>
  {
    if rows == [] then []
    else
      var head := if HasBatch(rows[1..], rows[0].batchNum) then [] else [rows[0]];
      head + KeepLast(rows[1..])
  }

  /** Row `i` is the last row with its batch number. */
  predicate LastOfBatch(rows: seq<ManifestRow>, i: int)
  {
    0 <= i < |rows| && forall j :: i < j < |rows| ==> rows[j].batchNum != rows[i].batchNum
  }

  /** Every batch number survives the merge, and no other appears. */
  lemma {:induction false} KeepLastBatches(rows: seq<ManifestRow>, b: int)
    ensures HasBatch(KeepLast(rows), b) <==> HasBatch(rows, b)
  {
    if rows != [] {
      var later := rows[1..];
      KeepLastBatches(later, b);
      var kept := KeepLast(later);
      var h := |KeepLast(rows)| - |kept|;
      if HasBatch(later, b) {
        var i :| 0 <= i < |later| && later[i].batchNum == b;
        assert rows[i + 1] == later[i];
        var k :| 0 <= k < |kept| && kept[k].batchNum == b;
        assert KeepLast(rows)[h + k] == kept[k];
      } else if rows[0].batchNum == b {
        assert KeepLast(rows)[0] == rows[0];
      }
    }
  }

  /** The row kept at position `k` is the last row of its batch number. */
  lemma {:induction false} KeepLastIsLast(rows: seq<ManifestRow>, k: nat)
    requires k < |KeepLast(rows)|
    ensures exists i :: LastOfBatch(rows, i) && rows[i] == KeepLast(rows)[k]
  {
    var later := rows[1..];
    var kept := KeepLast(later);
    var h := |KeepLast(rows)| - |kept|;
    if k >= h {
      assert KeepLast(rows)[k] == kept[k - h];
      KeepLastIsLast(later, k - h);
      var i :| LastOfBatch(later, i) && later[i] == kept[k - h];
      forall j | i + 1 < j < |rows|
        ensures rows[j].batchNum != rows[i + 1].batchNum
      {
        assert rows[j] == later[j - 1];
      }
      assert LastOfBatch(rows, i + 1);
    } else {
      forall j | 0 < j < |rows|
        ensures rows[j].batchNum != rows[0].batchNum
      {
        assert later[j - 1] == rows[j];
      }
      assert LastOfBatch(rows, 0);
    }
  }

  /** After the merge each batch number appears once. */
  lemma {:induction false} KeepLastDistinct(rows: seq<ManifestRow>)
    ensures forall i, j :: 0 <= i < j < |KeepLast(rows)| ==> KeepLast(rows)[i].batchNum != KeepLast(rows)[j].batchNum
  {
    if rows != [] {
      var later := rows[1..];
      KeepLastDistinct(later);
      var kept := KeepLast(later);
      var h := |KeepLast(rows)| - |kept|;
      forall i, j | 0 <= i < j < |KeepLast(rows)|
        ensures KeepLast(rows)[i].batchNum != KeepLast(rows)[j].batchNum
      {
        assert KeepLast(rows)[j] == kept[j - h];
        if i < h {
          KeepLastBatches(later, rows[0].batchNum);
          assert HasBatch(kept, kept[j - h].batchNum);
        } else {
          assert KeepLast(rows)[i] == kept[i - h];
        }
      }
    }
  }

  /**
   * The manifest after a run: nothing is written without new results; otherwise the new
   * rows follow the existing ones, keeping the last row of each batch number when a
   * manifest already exists.
   */
  function MergeManifest(existing: Option<seq<ManifestRow>>, added: seq<ManifestRow>): Option<seq<ManifestRow>>
  {
    if added == [] then None
    else if existing.Some? then Some(KeepLast(existing.value + added))
    else Some(added)
  }

  /** A merged manifest holds every batch of the run with its new row, and keeps a
      previous row only for the batches the run did not redo. */
  lemma MergeManifestSpec(existing: seq<ManifestRow>, added: seq<ManifestRow>)
    requires added != []
    requires forall i, j :: 0 <= i < j < |added| ==> added[i].batchNum != added[j].batchNum
    ensures var m := MergeManifest(Some(existing), added).value;
      (forall i, j :: 0 <= i < j < |m| ==> m[i].batchNum != m[j].batchNum)
      && (forall b :: HasBatch(m, b) <==> HasBatch(existing, b) || HasBatch(added, b))
      && (forall i :: 0 <= i < |added| ==> added[i] in m)
  {
    var all := existing + added;
    var m := KeepLast(all);
    KeepLastDistinct(all);
    forall b
      ensures HasBatch(m, b) <==> HasBatch(existing, b) || HasBatch(added, b)
    {
      KeepLastBatches(all, b);
      if HasBatch(all, b) {
        var i :| 0 <= i < |all| && all[i].batchNum == b;
        if i >= |existing| {
          assert added[i - |existing|] == all[i];
        }
      }
      if HasBatch(added, b) {
        var i :| 0 <= i < |added| && added[i].batchNum == b;
        assert all[|existing| + i] == added[i];
      }
      if HasBatch(existing, b) {
        var i :| 0 <= i < |existing| && existing[i].batchNum == b;
        assert all[i] == existing[i];
      }
    }
    forall i | 0 <= i < |added|
      ensures added[i] in m
    {
      var q := |existing| + i;
      assert all[q] == added[i];
      KeepLastBatches(all, added[i].batchNum);
      var k :| 0 <= k < |m| && m[k].batchNum == added[i].batchNum;
      KeepLastIsLast(all, k);
      var p :| LastOfBatch(all, p) && all[p] == m[k];
      assert p == q;
    }
  }

  // ---------------------------------------------------------------------------
  // Reading a batch CSV
  // ---------------------------------------------------------------------------

  /** The portfolio columns the form can take: the first three batch portfolio columns. */
  function FormColumns(csv: Csv): (cols: seq<string>)
    ensures |cols| <= BatchSize
    ensures cols <= PortfolioColumns(csv.columns)
  {
    Take(PortfolioColumns(csv.columns), 3)
  }

  /** The ten asset descriptions the batch runner knows, with their form option values. */
  const DescriptionToOption: map<string, string> := map[
    "US Equities - US Stock Market" := "TotalStockMarket",
    "Foreign Developed Equities - Intl Developed ex-US Market" := "IntlDeveloped",
    "Emerging Market Equities - Emerging Markets" := "EmergingMarket",
    "US Treasuries - Short Term Treasury" := "ShortTreasury",
    "US Treasuries - Intermediate Term Treasury" := "IntermediateTreasury",
    "US Treasuries - 10-year Treasury" := "TreasuryNotes",
    "US Treasuries - Long Term Treasury" := "LongTreasury",
    "TIPS - Inflation-Protected Bonds" := "TIPS",
    "Corporate Bonds - Investment Grade Corporate Bonds" := "CorpBond",
    "Real Estate/REITs - US REIT" := "REIT"
  ]

  /** What one batch puts into the form. */
  datatype FormInput = FormInput(assetClasses: seq<Entry<nat, string>>, allocations: AllocationDict)

  /** Reading a batch CSV: asset classes by description, then the allocations of the
      first three portfolio columns. */
  method ReadBatch(csv: Csv, parse: FloatParse) returns (form: FormInput)
    requires FormReadable(csv, FormColumns(csv), parse) && AssetDescription in csv.columns
    ensures form.assetClasses == DescribedAssets(csv, DescriptionToOption, |csv.rows|)
    ensures form.allocations == Allocations.Allocations(csv, FormColumns(csv), parse)
  {
    var portfolioCols := Take(Filter(csv.columns, IsBatchPortfolioColumn), 3);
    var assetClassMappings := CollectDescribedAssets(csv, DescriptionToOption);
    var portfolioAllocations := CollectAllocations(csv, portfolioCols, parse);
    form := FormInput(assetClassMappings, portfolioAllocations);
  }
}
