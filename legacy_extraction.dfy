/**
 * The single-file path of the backtest processor: portfolio metadata from an
 * allocation CSV (`generate_portfolio_metadata`) and long-format metrics from
 * the parsed result tables (`extract_performance_metrics_long`).
 */
module Legacy {
  import opened Util
  import opened Sheet
  import opened Registry
  import opened Records

  // ---------------------------------------------------------------------------
  // generate_portfolio_metadata
  // ---------------------------------------------------------------------------

  predicate IsLegacyPortfolioColumn(c: string)
  {
    StartsWith(c, "Portfolio_")
  }

  /** The portfolio columns covered: the names given, or else every CSV column whose
      label starts with "Portfolio_", in CSV order. */
  function SelectedColumns(csv: Csv, portfolioNames: Option<seq<string>>): (cols: seq<string>)
    ensures portfolioNames.Some? ==> cols == portfolioNames.value
    ensures portfolioNames.None? ==>
      (forall k :: 0 <= k < |cols| ==> cols[k] in csv.columns && IsLegacyPortfolioColumn(cols[k]))
      && (forall k :: 0 <= k < |csv.columns| && IsLegacyPortfolioColumn(csv.columns[k]) ==> csv.columns[k] in cols)
  {
    match portfolioNames
    case None => Filter(csv.columns, IsLegacyPortfolioColumn)
    case Some(ns) => ns
  }

  /** The identifiers the oracle hands out from `first` on: `first`, `first + 1`, ... */
  function Consecutive(first: Uuid, n: nat): (us: seq<Uuid>)
    ensures |us| == n && forall k :: 0 <= k < n ==> us[k] == first + k
  {
    seq(n, k requires 0 <= k < n => first + k)
  }

  /** The identifier dictionary after one fresh identifier per name, in order; a
      repeated name keeps the identifier of its last occurrence. */
  function MintedIds(names: seq<string>, first: Uuid): map<string, Uuid>
  {
    if names == [] then map[]
    else MintedIds(names[..|names| - 1], first)[names[|names| - 1] := first + |names| - 1]
  }

  /** The dictionary has an entry for every name and nothing else, its identifiers are
      the ones handed out, and no two names share one. */
  lemma {:induction false} MintedIdsValid(names: seq<string>, first: Uuid)
    ensures MintedIds(names, first).Keys == set k | 0 <= k < |names| :: names[k]
    ensures forall n :: n in MintedIds(names, first) ==>
      first <= MintedIds(names, first)[n] < first + |names|
    ensures forall a, b :: a in MintedIds(names, first) && b in MintedIds(names, first) && a != b ==>
      MintedIds(names, first)[a] != MintedIds(names, first)[b]
  {
    if names != [] {
      var init := names[..|names| - 1];
      MintedIdsValid(init, first);
      assert forall k :: 0 <= k < |init| ==> init[k] == names[k];
      assert (set k | 0 <= k < |names| :: names[k])
        == (set k | 0 <= k < |init| :: init[k]) + {names[|names| - 1]};
    }
  }

  lemma MintedIdsSnoc(names: seq<string>, first: Uuid, k: nat)
    requires k < |names|
    ensures MintedIds(names[..k + 1], first) == MintedIds(names[..k], first)[names[k] := first + k]
  {
    assert names[..k + 1][..k] == names[..k];
  }

  /** With distinct names, name `k` gets the `k`-th identifier. */
  lemma {:induction false} MintedIdsDistinct(names: seq<string>, first: Uuid, k: nat)
    requires k < |names|
    requires forall i, j :: 0 <= i < j < |names| ==> names[i] != names[j]
    ensures names[k] in MintedIds(names, first) && MintedIds(names, first)[names[k]] == first + k
  {
    var init := names[..|names| - 1];
    if k < |names| - 1 {
      MintedIdsDistinct(init, first, k);
    }
  }

  /**
   * `generate_portfolio_metadata`: a fresh identifier for each selected column, then one
   * metadata row per positive weight, column by column in row order. The oracle hands
   * out `first`, `first + 1`, ... in column order.
   */
  method GeneratePortfolioMetadata(csv: Csv, portfolioNames: Option<seq<string>>, first: Uuid)
    returns (rows: seq<MetadataRow>, uuidMap: map<string, Uuid>)
    requires Readable(csv, SelectedColumns(csv, portfolioNames))
    ensures var cols := SelectedColumns(csv, portfolioNames);
      rows == Metadata(csv, cols, Consecutive(first, |cols|)) && uuidMap == MintedIds(cols, first)
  {
    var names := match portfolioNames
      case None => Filter(csv.columns, IsLegacyPortfolioColumn)
      case Some(ns) => ns;
    assert names == SelectedColumns(csv, portfolioNames);
    rows, uuidMap := MintAndCollect(csv, names, first);
  }

  /** The column loop of `generate_portfolio_metadata`. */
  method MintAndCollect(csv: Csv, names: seq<string>, first: Uuid)
    returns (rows: seq<MetadataRow>, uuidMap: map<string, Uuid>)
    requires Readable(csv, names)
    ensures rows == Metadata(csv, names, Consecutive(first, |names|)) && uuidMap == MintedIds(names, first)
  {
    ghost var parts := MetadataParts(csv, names, Consecutive(first, |names|));
    rows := [];
    var registry := new IdRegistry(first);
    for k := 0 to |names|
      invariant registry.Valid()
      invariant registry.ids == MintedIds(names[..k], first) && registry.next == first + k
      invariant rows == Flatten(parts[..k])
    {
      var portfolioCol := names[k];
      var portfolioUuid := registry.Mint(portfolioCol);
      assert portfolioUuid == Consecutive(first, |names|)[k];
      MintedIdsSnoc(names, first, k);
      assert registry.ids == MintedIds(names[..k + 1], first);
      assert registry.next == first + (k + 1);
      var columnRows := CollectColumnMetadata(csv, portfolioCol, portfolioUuid);
      assert columnRows == parts[k];
      FlattenSnoc(parts, k);
      rows := rows + columnRows;
    }
    assert names[..|names|] == names;
    assert parts[..|names|] == parts;
    uuidMap := registry.ids;
  }

  /** With distinct portfolio columns, every metadata row carries the identifier the
      returned dictionary gives its portfolio. */
  lemma MetadataMatchesIds(csv: Csv, cols: seq<string>, first: Uuid, e: MetadataRow)
    requires Readable(csv, cols)
    requires forall i, j :: 0 <= i < j < |cols| ==> cols[i] != cols[j]
    requires e in Metadata(csv, cols, Consecutive(first, |cols|))
    ensures e.portfolioName in MintedIds(cols, first)
    ensures e.uuid == MintedIds(cols, first)[e.portfolioName]
  {
    MetadataExact(csv, cols, Consecutive(first, |cols|), e);
    var k, r :| 0 <= k < |cols| && 0 <= r < |csv.rows| && Emitted(csv, cols[k], Consecutive(first, |cols|)[k], r, e);
    MintedIdsDistinct(cols, first, k);
  }

  // ---------------------------------------------------------------------------
  // extract_performance_metrics_long
  // ---------------------------------------------------------------------------

  const LegacyTargets: seq<string> := [
    "Portfolio Performance (Jan 2003 - Nov 2025)",
    "Risk and Return Metrics (Jan 2003 - Nov 2025)"
  ]

  const LegacyPortfolios: seq<string> := ["Portfolio_1", "Portfolio_2", "Portfolio_3"]

  /** The portfolio a result column stands for, tried in order: "sample", then
      "portfolio 2", then "portfolio 3" in the lowercased label (or the exact label). */
  function LegacyKey(col: string): (key: Option<string>)
    ensures key.Some? ==> key.value in LegacyPortfolios
  {
    if Contains(Lower(col), "sample") || col == "Sample Portfolio" then Some("Portfolio_1")
    else if Contains(Lower(col), "portfolio 2") || col == "Portfolio 2" then Some("Portfolio_2")
    else if Contains(Lower(col), "portfolio 3") || col == "Portfolio 3" then Some("Portfolio_3")
    else None
  }

  /** Every target table that is present has a first column (`df_table.columns[0]`). */
  predicate TargetsHaveColumns(tables: Tables, targets: seq<string>)
  {
    forall t :: 0 <= t < |targets| && targets[t] in Keys(tables) ==> Lookup(tables, targets[t]).columns != []
  }

  /** The metric rows of result column `j` of table `source`: none when the column maps
      to no portfolio or the portfolio has no identifier. */
  function LegacyColumnMetrics(f: Frame, j: nat, m: map<string, Uuid>, source: string): seq<MetricRow>
    requires j < |f.columns|
  {
    var key := LegacyKey(f.columns[j]);
    if key.Some? && key.value in m then ColumnMetrics(f, j, m[key.value], key.value, source, |f.rows|)
    else []
  }

  function LegacyTableParts(f: Frame, m: map<string, Uuid>, source: string): (parts: seq<seq<MetricRow>>)
    requires f.columns != []
    ensures |parts| == |f.columns| - 1
    ensures forall i :: 0 <= i < |parts| ==> parts[i] == LegacyColumnMetrics(f, i + 1, m, source)
  {
    seq(|f.columns| - 1, i requires 0 <= i < |f.columns| - 1 => LegacyColumnMetrics(f, i + 1, m, source))
  }

  /** The metric rows of a target table: its result columns (all but the first) in order. */
  function LegacyTableMetrics(f: Frame, m: map<string, Uuid>, source: string): seq<MetricRow>
    requires f.columns != []
  {
    Flatten(LegacyTableParts(f, m, source))
  }

  function LegacyTargetMetrics(tables: Tables, m: map<string, Uuid>, t: nat): seq<MetricRow>
    requires t < |LegacyTargets| && TargetsHaveColumns(tables, LegacyTargets)
  {
    var name := LegacyTargets[t];
    if name in Keys(tables) then LegacyTableMetrics(Lookup(tables, name), m, name) else []
  }

  function LegacyParts(tables: Tables, m: map<string, Uuid>): (parts: seq<seq<MetricRow>>)
    requires TargetsHaveColumns(tables, LegacyTargets)
    ensures |parts| == |LegacyTargets|
    ensures forall t :: 0 <= t < |parts| ==> parts[t] == LegacyTargetMetrics(tables, m, t)
  {
    seq(|LegacyTargets|, t requires 0 <= t < |LegacyTargets| => LegacyTargetMetrics(tables, m, t))
  }

  /** The whole long-format metrics table: the target tables in order, a missing one
      contributing nothing. */
  function LegacyMetrics(tables: Tables, m: map<string, Uuid>): seq<MetricRow>
    requires TargetsHaveColumns(tables, LegacyTargets)
  {
    Flatten(LegacyParts(tables, m))
  }

  /** Result column `j` of table `f` (named `source`) yields metric row `e` for row `r`. */
  predicate ColumnEmits(f: Frame, m: map<string, Uuid>, source: string, j: nat, r: nat, e: MetricRow)
  {
    1 <= j < |f.columns| && r < |f.rows|
    && LegacyKey(f.columns[j]).Some? && LegacyKey(f.columns[j]).value in m
    && MetricAt(f, r, j, m[LegacyKey(f.columns[j]).value], LegacyKey(f.columns[j]).value, source) == Some(e)
  }

  lemma LegacyTableMetricsExact(f: Frame, m: map<string, Uuid>, source: string, e: MetricRow)
    requires f.columns != []
    ensures e in LegacyTableMetrics(f, m, source) <==> exists j: nat, r: nat :: ColumnEmits(f, m, source, j, r, e)
  {
    if e in LegacyTableMetrics(f, m, source) {
      LegacyTableOrigin(f, m, source, e);
    }
    if exists j: nat, r: nat :: ColumnEmits(f, m, source, j, r, e) {
      var j: nat, r: nat :| ColumnEmits(f, m, source, j, r, e);
      LegacyTableEmitted(f, m, source, j, r, e);
    }
  }

  lemma LegacyTableOrigin(f: Frame, m: map<string, Uuid>, source: string, e: MetricRow)
    requires f.columns != [] && e in LegacyTableMetrics(f, m, source)
    ensures exists j: nat, r: nat :: ColumnEmits(f, m, source, j, r, e)
  {
    var parts := LegacyTableParts(f, m, source);
    FlattenIn(parts, e);
    var i :| 0 <= i < |parts| && e in parts[i];
    var key := LegacyKey(f.columns[i + 1]);
    var u := m[key.value];
    ColumnMetricsExact(f, i + 1, u, key.value, source, |f.rows|, e);
    var r :| 0 <= r < |f.rows| && MetricAt(f, r, i + 1, u, key.value, source) == Some(e);
    assert ColumnEmits(f, m, source, i + 1, r, e);
  }

  lemma LegacyTableEmitted(f: Frame, m: map<string, Uuid>, source: string, j: nat, r: nat, e: MetricRow)
    requires f.columns != [] && ColumnEmits(f, m, source, j, r, e)
    ensures e in LegacyTableMetrics(f, m, source)
  {
    var parts := LegacyTableParts(f, m, source);
    FlattenIn(parts, e);
    var key := LegacyKey(f.columns[j]);
    ColumnMetricsExact(f, j, m[key.value], key.value, source, |f.rows|, e);
    assert e in parts[j - 1];
  }

  /** Target `t`, present in `tables`, yields metric row `e` from row `r` of column `j`. */
  predicate TargetEmits(tables: Tables, m: map<string, Uuid>, t: nat, j: nat, r: nat, e: MetricRow)
  {
    t < |LegacyTargets| && LegacyTargets[t] in Keys(tables)
    && ColumnEmits(Lookup(tables, LegacyTargets[t]), m, LegacyTargets[t], j, r, e)
  }

  /**
   * The metrics table holds exactly the numbers of the result columns of the target
   * tables that are present, for the columns that map to a portfolio with an
   * identifier; each row names the portfolio, its identifier and the target table.
   */
  lemma LegacyMetricsExact(tables: Tables, m: map<string, Uuid>, e: MetricRow)
    requires TargetsHaveColumns(tables, LegacyTargets)
    ensures e in LegacyMetrics(tables, m) <==> exists t: nat, j: nat, r: nat :: TargetEmits(tables, m, t, j, r, e)
  {
    var parts := LegacyParts(tables, m);
    FlattenIn(parts, e);
    if e in LegacyMetrics(tables, m) {
      var t :| 0 <= t < |parts| && e in parts[t];
      var name := LegacyTargets[t];
      LegacyTableMetricsExact(Lookup(tables, name), m, name, e);
      var j: nat, r: nat :| ColumnEmits(Lookup(tables, name), m, name, j, r, e);
      assert TargetEmits(tables, m, t, j, r, e);
    }
    if exists t: nat, j: nat, r: nat :: TargetEmits(tables, m, t, j, r, e) {
      var t: nat, j: nat, r: nat :| TargetEmits(tables, m, t, j, r, e);
      var name := LegacyTargets[t];
      LegacyTableMetricsExact(Lookup(tables, name), m, name, e);
      assert e in parts[t];
    }
  }

  /** Every metric row names a target table and one of the three portfolios, and carries
      that portfolio's identifier. */
  lemma LegacyMetricsSound(tables: Tables, m: map<string, Uuid>, e: MetricRow)
    requires TargetsHaveColumns(tables, LegacyTargets)
    requires e in LegacyMetrics(tables, m)
    ensures e.source in LegacyTargets && e.portfolioName in LegacyPortfolios
    ensures e.portfolioName in m && e.uuid == m[e.portfolioName]
  {
    LegacyMetricsExact(tables, m, e);
  }

  /** `extract_performance_metrics_long`: for each target table present, each result
      column that maps to a portfolio with an identifier, each numeric cell. */
  method ExtractPerformanceMetricsLong(tables: Tables, m: map<string, Uuid>) returns (rows: seq<MetricRow>)
    requires TargetsHaveColumns(tables, LegacyTargets)
    ensures rows == LegacyMetrics(tables, m)
  {
    ghost var parts := LegacyParts(tables, m);
    rows := [];
    for t := 0 to |LegacyTargets|
      invariant rows == Flatten(parts[..t])
    {
      var tableName := LegacyTargets[t];
      FlattenSnoc(parts, t);
      if tableName !in Keys(tables) {
        assert parts[t] == [];
        assert rows + parts[t] == rows;
        continue;
      }
      var dfTable := Lookup(tables, tableName);
      var tableRows := LegacyTableRows(dfTable, m, tableName);
      rows := rows + tableRows;
    }
    assert parts[..|LegacyTargets|] == parts;
  }

  /** The column loop of `extract_performance_metrics_long` for one target table. */
  method LegacyTableRows(f: Frame, m: map<string, Uuid>, source: string) returns (rows: seq<MetricRow>)
    requires f.columns != []
    ensures rows == LegacyTableMetrics(f, m, source)
  {
    ghost var parts := LegacyTableParts(f, m, source);
    rows := [];
    for j := 1 to |f.columns|
      invariant |parts| == |f.columns| - 1 && rows == Flatten(parts[..j - 1])
    {
      var col := f.columns[j];
      var portfolioKey := LegacyKey(col);
      if portfolioKey.None? || portfolioKey.value !in m {
        FlattenStep(parts, j - 1, rows, []);
        continue;
      }
      var portfolioUuid := m[portfolioKey.value];
      var columnRows := CollectColumnMetrics(f, j, portfolioUuid, portfolioKey.value, source);
      FlattenStep(parts, j - 1, rows, columnRows);
      rows := rows + columnRows;
    }
    assert parts[..|f.columns| - 1] == parts;
  }
}
