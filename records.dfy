/**
 * The two long-format tables the processing scripts produce, and the rules
 * that fill them: a metadata row per positive allocation weight, and a metric
 * row per numeric cell of a result table.
 */
module Records {
  import opened Util
  import opened Sheet
  import opened Registry

  /** One row of the portfolio metadata table. */
  datatype MetadataRow = MetadataRow(uuid: Uuid, portfolioName: string, assetName: Cell, weight: real)

  /** One row of the long-format performance metrics table. */
  datatype MetricRow = MetricRow(uuid: Uuid, portfolioName: string, metricName: string, value: real, source: string)

  const AssetDescription: string := "Asset_Description"

  /** A portfolio column of a batch CSV: its label starts with "Grid_", "Portfolio_" or
      "TreasuryGrid_". */
  predicate IsBatchPortfolioColumn(c: string)
  {
    StartsWith(c, "Grid_") || StartsWith(c, "Portfolio_") || StartsWith(c, "TreasuryGrid_")
  }

  /** The portfolio columns of a batch CSV, in CSV order. */
  function PortfolioColumns(columns: seq<string>): (cols: seq<string>)
    ensures forall k :: 0 <= k < |cols| ==> cols[k] in columns && IsBatchPortfolioColumn(cols[k])
    ensures forall k :: 0 <= k < |columns| && IsBatchPortfolioColumn(columns[k]) ==> columns[k] in cols
  {
    Filter(columns, IsBatchPortfolioColumn)
  }

  // ---------------------------------------------------------------------------
  // Metadata from an allocation CSV
  // ---------------------------------------------------------------------------

  /** `row["Asset_Description"]` and `row[col] > 0` can be evaluated on every row:
      both columns exist and `col` holds no text (text compared with 0 raises). The form
      loaders, which call `float()` before comparing, read weights by
      `Allocations.FormWeight` instead. */
  predicate WeightColumn(csv: Csv, col: string)
    requires csv.WellFormed()
  {
    col in csv.columns && AssetDescription in csv.columns
    && forall r :: 0 <= r < |csv.rows| ==> !Get(csv, r, col).Str?
  }

  /** Every portfolio column of `cols` can be read; with no data rows nothing is read. */
  predicate Readable(csv: Csv, cols: seq<string>)
  {
    csv.WellFormed() && (|csv.rows| > 0 ==> forall k :: 0 <= k < |cols| ==> WeightColumn(csv, cols[k]))
  }

  /** `pd.notna(weight) and weight > 0`, giving the weight. */
  function PositiveWeight(csv: Csv, r: nat, col: string): (w: Option<real>)
    requires csv.WellFormed() && r < |csv.rows| && WeightColumn(csv, col)
    ensures w.Some? ==> w.value > 0.0 && Get(csv, r, col).Num? && Get(csv, r, col).value == w.value
    ensures w.None? <==> Get(csv, r, col).Empty? || Get(csv, r, col).value <= 0.0
  {
    match Get(csv, r, col)
    case Num(v, _) => if v > 0.0 then Some(v) else None
    case _ => None
  }

  /** Row `r` of column `col` yields metadata row `e`: its weight is positive, and `e`
      carries the identifier, the column, the asset description and the weight over 100. */
  predicate Emitted(csv: Csv, col: string, u: Uuid, r: nat, e: MetadataRow)
  {
    csv.WellFormed() && r < |csv.rows| && WeightColumn(csv, col)
    && PositiveWeight(csv, r, col).Some?
    && e == MetadataRow(u, col, Get(csv, r, AssetDescription), PositiveWeight(csv, r, col).value / 100.0)
  }

  /** The metadata rows of column `col` for CSV rows `0..n`, in row order. */
  function ColumnMetadata(csv: Csv, col: string, u: Uuid, n: nat): (rows: seq<MetadataRow>)
    requires csv.WellFormed() && n <= |csv.rows| && (n > 0 ==> WeightColumn(csv, col))
    ensures |rows| <= n
  {
    if n == 0 then []
    else
      var prev := ColumnMetadata(csv, col, u, n - 1);
      match PositiveWeight(csv, n - 1, col)
      case Some(v) => prev + [MetadataRow(u, col, Get(csv, n - 1, AssetDescription), v / 100.0)]
      case None => prev
  }

  /** A metadata row of a column is exactly one its rows yield. */
  lemma {:induction false} ColumnMetadataExact(csv: Csv, col: string, u: Uuid, n: nat, e: MetadataRow)
    requires csv.WellFormed() && n <= |csv.rows| && (n > 0 ==> WeightColumn(csv, col))
    ensures e in ColumnMetadata(csv, col, u, n) <==> exists r :: 0 <= r < n && Emitted(csv, col, u, r, e)
  {
    if n > 0 {
      ColumnMetadataExact(csv, col, u, n - 1, e);
      if e in ColumnMetadata(csv, col, u, n) && e !in ColumnMetadata(csv, col, u, n - 1) {
        assert Emitted(csv, col, u, n - 1, e);
      }
      if exists r :: 0 <= r < n && Emitted(csv, col, u, r, e) {
        var r :| 0 <= r < n && Emitted(csv, col, u, r, e);
        if r < n - 1 {
          assert e in ColumnMetadata(csv, col, u, n - 1);
        }
      }
    }
  }

  /** The row loop shared by both metadata generators: one row per positive weight of
      column `col`. */
  method CollectColumnMetadata(csv: Csv, col: string, u: Uuid) returns (rows: seq<MetadataRow>)
    requires csv.WellFormed() && (|csv.rows| > 0 ==> WeightColumn(csv, col))
    ensures rows == ColumnMetadata(csv, col, u, |csv.rows|)
  {
    rows := [];
    for r := 0 to |csv.rows|
      invariant rows == ColumnMetadata(csv, col, u, r)
    {
      var assetName := Get(csv, r, AssetDescription);
      var weight := Get(csv, r, col);
      if weight.Num? && weight.value > 0.0 {
        rows := rows + [MetadataRow(u, col, assetName, weight.value / 100.0)];
      }
    }
  }

  /** The metadata rows of the portfolio columns `cols`, column by column; column `k`
      carries identifier `uuids[k]`. */
  function Metadata(csv: Csv, cols: seq<string>, uuids: seq<Uuid>): seq<MetadataRow>
    requires Readable(csv, cols) && |uuids| == |cols|
  {
    Flatten(MetadataParts(csv, cols, uuids))
  }

  function MetadataParts(csv: Csv, cols: seq<string>, uuids: seq<Uuid>): (parts: seq<seq<MetadataRow>>)
    requires Readable(csv, cols) && |uuids| == |cols|
    ensures |parts| == |cols|
    ensures forall k :: 0 <= k < |cols| ==> parts[k] == ColumnMetadata(csv, cols[k], uuids[k], |csv.rows|)
  {
    seq(|cols|, k requires 0 <= k < |cols| => ColumnMetadata(csv, cols[k], uuids[k], |csv.rows|))
  }

  /** The metadata of the last column follows that of the others. */
  lemma MetadataSnoc(csv: Csv, cols: seq<string>, uuids: seq<Uuid>)
    requires Readable(csv, cols) && |uuids| == |cols| && |cols| > 0
    ensures Readable(csv, cols[..|cols| - 1])
    ensures Metadata(csv, cols, uuids) == Metadata(csv, cols[..|cols| - 1], uuids[..|cols| - 1])
      + ColumnMetadata(csv, cols[|cols| - 1], uuids[|cols| - 1], |csv.rows|)
  {
    var n := |cols|;
    var parts := MetadataParts(csv, cols, uuids);
    assert MetadataParts(csv, cols[..n - 1], uuids[..n - 1]) == parts[..n - 1];
  }

  /**
   * The metadata table holds exactly the (portfolio column, asset row) pairs with a
   * positive weight: every row comes from such a pair, and every such pair gives a row
   * with the weight divided by 100.
   */
  lemma MetadataExact(csv: Csv, cols: seq<string>, uuids: seq<Uuid>, e: MetadataRow)
    requires Readable(csv, cols) && |uuids| == |cols|
    ensures e in Metadata(csv, cols, uuids) <==>
      exists k, r :: 0 <= k < |cols| && 0 <= r < |csv.rows| && Emitted(csv, cols[k], uuids[k], r, e)
  {
    var parts := MetadataParts(csv, cols, uuids);
    FlattenIn(parts, e);
    forall k | 0 <= k < |cols|
      ensures e in parts[k] <==> exists r :: 0 <= r < |csv.rows| && Emitted(csv, cols[k], uuids[k], r, e)
    {
      ColumnMetadataExact(csv, cols[k], uuids[k], |csv.rows|, e);
    }
  }

  /** Every metadata weight is positive. */
  lemma MetadataWeightsPositive(csv: Csv, cols: seq<string>, uuids: seq<Uuid>)
    requires Readable(csv, cols) && |uuids| == |cols|
    ensures forall e :: e in Metadata(csv, cols, uuids) ==> e.weight > 0.0
  {
    forall e | e in Metadata(csv, cols, uuids)
      ensures e.weight > 0.0
    {
      MetadataExact(csv, cols, uuids, e);
    }
  }

  // ---------------------------------------------------------------------------
  // Metrics from a parsed result table
  // ---------------------------------------------------------------------------

  /** `row[j]` of a parsed table; pandas rows are as wide as the header, and a
      shorter row here reads as missing. */
  function CellAt(row: seq<Cell>, j: nat): (c: Cell)
    ensures j < |row| ==> c == row[j]
  {
    if j < |row| then row[j] else Empty
  }

  /** The metric row of row `r` of column `j`: only a number (`pd.notna` and an int
      or float) gives one, named by `str()` of the row's first cell. */
  function MetricAt(f: Frame, r: nat, j: nat, u: Uuid, name: string, source: string): (m: Option<MetricRow>)
    requires r < |f.rows|
    ensures m.Some? <==> CellAt(f.rows[r], j).Num?
    ensures m.Some? ==> m.value == MetricRow(u, name, CellText(CellAt(f.rows[r], 0)),
      CellAt(f.rows[r], j).value, source)
  {
    match CellAt(f.rows[r], j)
    case Num(v, _) => Some(MetricRow(u, name, CellText(CellAt(f.rows[r], 0)), v, source))
    case _ => None
  }

  /** The metric rows of column `j` for rows `0..n`, in row order. */
  function ColumnMetrics(f: Frame, j: nat, u: Uuid, name: string, source: string, n: nat): (rows: seq<MetricRow>)
    requires n <= |f.rows|
    ensures |rows| <= n
  {
    if n == 0 then []
    else
      var prev := ColumnMetrics(f, j, u, name, source, n - 1);
      match MetricAt(f, n - 1, j, u, name, source)
      case Some(m) => prev + [m]
      case None => prev
  }

  /** A metric row of a column is exactly one its numeric cells yield. */
  lemma {:induction false} ColumnMetricsExact(f: Frame, j: nat, u: Uuid, name: string, source: string,
                                              n: nat, e: MetricRow)
    requires n <= |f.rows|
    ensures e in ColumnMetrics(f, j, u, name, source, n) <==>
      exists r :: 0 <= r < n && MetricAt(f, r, j, u, name, source) == Some(e)
  {
    if n > 0 {
      ColumnMetricsExact(f, j, u, name, source, n - 1, e);
      if e in ColumnMetrics(f, j, u, name, source, n) && e !in ColumnMetrics(f, j, u, name, source, n - 1) {
        assert MetricAt(f, n - 1, j, u, name, source) == Some(e);
      }
      if exists r :: 0 <= r < n && MetricAt(f, r, j, u, name, source) == Some(e) {
        var r :| 0 <= r < n && MetricAt(f, r, j, u, name, source) == Some(e);
        if r < n - 1 {
          assert e in ColumnMetrics(f, j, u, name, source, n - 1);
        }
      }
    }
  }

  /** A column with no number gives no metric rows. */
  lemma {:induction false} ColumnMetricsNoNumbers(f: Frame, j: nat, u: Uuid, name: string, source: string, n: nat)
    requires n <= |f.rows|
    requires forall r :: 0 <= r < n ==> !CellAt(f.rows[r], j).Num?
    ensures ColumnMetrics(f, j, u, name, source, n) == []
  {
    if n > 0 {
      ColumnMetricsNoNumbers(f, j, u, name, source, n - 1);
    }
  }

  /** The row loop shared by both metric extractions: for each row of the table, the
      metric named by its first cell when column `j` holds a number. */
  method CollectColumnMetrics(f: Frame, j: nat, u: Uuid, name: string, source: string)
    returns (rows: seq<MetricRow>)
    ensures rows == ColumnMetrics(f, j, u, name, source, |f.rows|)
  {
    rows := [];
    for r := 0 to |f.rows|
      invariant rows == ColumnMetrics(f, j, u, name, source, r)
    {
      var metricName := CellAt(f.rows[r], 0);
      var metricValue := CellAt(f.rows[r], j);
      if metricValue.Num? {
        rows := rows + [MetricRow(u, name, CellText(metricName), metricValue.value, source)];
      }
    }
  }
}
