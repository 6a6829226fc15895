/**
 * Batch consolidation: the metadata and metrics of every batch of the manifest,
 * with one portfolio identifier dictionary threaded through the batches.
 */
module Consolidation {
  import opened Util
  import opened Sheet
  import opened Registry
  import opened Records
  import TableParser

  // ---------------------------------------------------------------------------
  // extract_portfolio_names_from_batch
  // ---------------------------------------------------------------------------

  /** Position of the first table, in dictionary order, whose name contains `sub`. */
  function FirstTableContaining(tables: Tables, sub: string): (i: Option<nat>)
    ensures i.Some? ==> (i.value < |tables| && Contains(tables[i.value].key, sub)
      && forall j :: 0 <= j < i.value ==> !Contains(tables[j].key, sub))
    ensures i.None? ==> forall j :: 0 <= j < |tables| ==> !Contains(tables[j].key, sub)
  {
    if tables == [] then None
    else if Contains(tables[0].key, sub) then Some(0)
    else
      match FirstTableContaining(tables[1..], sub)
      case None => None
      case Some(k) => Some(k + 1)
  }

  /** A result column that names a portfolio. */
  predicate IsResultColumn(c: string)
  {
    Contains(c, "Portfolio") || Contains(c, "Sample")
  }

  /** `df.columns[1:]` restricted to the result columns that name a portfolio. */
  function ResultColumns(f: Frame): (cols: seq<string>)
    ensures forall k :: 0 <= k < |cols| ==> IsResultColumn(cols[k]) && f.columns != [] && cols[k] in f.columns[1..]
    ensures forall k :: 1 <= k < |f.columns| && IsResultColumn(f.columns[k]) ==> f.columns[k] in cols
  {
    if f.columns == [] then [] else Filter(f.columns[1..], IsResultColumn)
  }

  /** The portfolio columns of the first "Portfolio Performance" table, or none. */
  function PortfolioNames(tables: Tables): (names: seq<string>)
    ensures forall k :: 0 <= k < |names| ==> IsResultColumn(names[k])
    ensures names != [] ==> FirstTableContaining(tables, "Portfolio Performance").Some?
  {
    match FirstTableContaining(tables, "Portfolio Performance")
    case None => []
    case Some(i) => ResultColumns(tables[i].val)
  }

  /** `extract_portfolio_names_from_batch`: the loop returns at the first performance
      table; every returned name is a portfolio result column of that table. */
  method ExtractPortfolioNamesFromBatch(tables: Tables) returns (cols: seq<string>)
    ensures cols == PortfolioNames(tables)
  {
    for i := 0 to |tables|
      invariant forall j :: 0 <= j < i ==> !Contains(tables[j].key, "Portfolio Performance")
    {
      if Contains(tables[i].key, "Portfolio Performance") {
        var df := tables[i].val;
        cols := if df.columns == [] then [] else Filter(df.columns[1..], IsResultColumn);
        assert FirstTableContaining(tables, "Portfolio Performance") == Some(i);
        return;
      }
    }
    cols := [];
  }

  // ---------------------------------------------------------------------------
  // The identifier dictionary as a value
  // ---------------------------------------------------------------------------

  /** The identifier dictionary with the oracle's next identifier. */
  datatype IdState = IdState(ids: map<string, Uuid>, next: Uuid)

  ghost predicate ValidState(s: IdState)
  {
    (forall n :: n in s.ids ==> s.ids[n] < s.next)
    && (forall a, b :: a in s.ids && b in s.ids && a != b ==> s.ids[a] != s.ids[b])
  }

  /** `if name not in d: d[name] = str(uuid.uuid4())`. */
  function ResolveOne(s: IdState, name: string): IdState
  {
    if name in s.ids then s else IdState(s.ids[name := s.next], s.next + 1)
  }

  /** Resolving the names in order. */
  function ResolveAll(s: IdState, names: seq<string>): IdState
  {
    if names == [] then s else ResolveOne(ResolveAll(s, names[..|names| - 1]), names[|names| - 1])
  }

  lemma ResolveAllSnoc(s: IdState, names: seq<string>, k: nat)
    requires k < |names|
    ensures ResolveAll(s, names[..k + 1]) == ResolveOne(ResolveAll(s, names[..k]), names[k])
  {
    assert names[..k + 1][..k] == names[..k];
  }

  /**
   * Resolving names keeps every existing entry, adds an entry for every name and no
   * other, gives only new names fresh identifiers from the oracle, and keeps the
   * dictionary valid (identifiers from the oracle, no two names sharing one).
   */
  lemma {:induction false} ResolveAllSpec(s: IdState, names: seq<string>)
    ensures ResolveAll(s, names).ids.Keys == s.ids.Keys + set k | 0 <= k < |names| :: names[k]
    ensures forall n :: n in s.ids ==> ResolveAll(s, names).ids[n] == s.ids[n]
    ensures forall n :: n in ResolveAll(s, names).ids && n !in s.ids ==>
      s.next <= ResolveAll(s, names).ids[n] < ResolveAll(s, names).next
    ensures s.next <= ResolveAll(s, names).next
    ensures ValidState(s) ==> ValidState(ResolveAll(s, names))
  {
    if names != [] {
      var init := names[..|names| - 1];
      ResolveAllSpec(s, init);
      assert forall k :: 0 <= k < |init| ==> init[k] == names[k];
      assert (set k | 0 <= k < |names| :: names[k])
        == (set k | 0 <= k < |init| :: init[k]) + {names[|names| - 1]};
    }
  }

  /** Resolving two lists of names one after the other is resolving their concatenation. */
  lemma {:induction false} ResolveAllAppend(s: IdState, a: seq<string>, b: seq<string>)
    ensures ResolveAll(s, a + b) == ResolveAll(ResolveAll(s, a), b)
  {
    if b == [] {
      assert a + b == a;
    } else {
      ResolveAllAppend(s, a, b[..|b| - 1]);
      assert (a + b)[..|a + b| - 1] == a + b[..|b| - 1];
    }
  }

  /** Resolving names keeps the identifier of a name already known. */
  lemma ResolveAllKeeps(s: IdState, names: seq<string>, name: string)
    requires name in s.ids
    ensures name in ResolveAll(s, names).ids && ResolveAll(s, names).ids[name] == s.ids[name]
  {
    ResolveAllSpec(s, names);
  }

  /** After resolving, a name is known exactly when it was known before or was resolved. */
  lemma ResolveAllHas(s: IdState, names: seq<string>, name: string)
    ensures name in ResolveAll(s, names).ids <==> name in s.ids || name in names
  {
    ResolveAllSpec(s, names);
    if name in names {
      var k :| 0 <= k < |names| && names[k] == name;
      assert name in set i | 0 <= i < |names| :: names[i];
    }
  }

  /** Resolving names that all have an identifier changes nothing. */
  lemma {:induction false} ResolveAllKnown(s: IdState, names: seq<string>)
    requires forall k :: 0 <= k < |names| ==> names[k] in s.ids
    ensures ResolveAll(s, names) == s
  {
    if names != [] {
      ResolveAllKnown(s, names[..|names| - 1]);
    }
  }

  /** Idempotence: resolving the same batch of names a second time mints nothing and
      changes no identifier. */
  lemma ResolveAllIdempotent(s: IdState, names: seq<string>)
    ensures ResolveAll(ResolveAll(s, names), names) == ResolveAll(s, names)
  {
    forall k | 0 <= k < |names| ensures names[k] in ResolveAll(s, names).ids {
      ResolveAllHas(s, names, names[k]);
    }
    ResolveAllKnown(ResolveAll(s, names), names);
  }

  /** Every name of `cols` has an identifier. */
  predicate AllIn(cols: seq<string>, ids: map<string, Uuid>)
  {
    forall k :: 0 <= k < |cols| ==> cols[k] in ids
  }

  /** The identifiers of `cols`, column by column. */
  function UuidsOf(ids: map<string, Uuid>, cols: seq<string>): (us: seq<Uuid>)
    requires AllIn(cols, ids)
    ensures |us| == |cols| && forall k :: 0 <= k < |cols| ==> us[k] == ids[cols[k]]
  {
    seq(|cols|, k requires 0 <= k < |cols| => ids[cols[k]])
  }


  /** The identifiers recorded for the first `k` columns survive resolving column `k`. */
  lemma KnownIdsStep(before: map<string, Uuid>, after: map<string, Uuid>, cols: seq<string>, k: nat,
                     us: seq<Uuid>, u: Uuid)
    requires k < |cols| && |us| == k
    requires forall i :: 0 <= i < k ==> cols[i] in before && us[i] == before[cols[i]]
    requires (cols[k] in before && after == before && u == before[cols[k]])
      || (cols[k] !in before && after == before[cols[k] := u])
    ensures forall i :: 0 <= i < k + 1 ==> cols[i] in after && (us + [u])[i] == after[cols[i]]
  {
  }

  /** Appending the rows of column `k` extends the metadata of the first `k` columns. */
  lemma MetadataStep(csv: Csv, cols: seq<string>, k: nat, us: seq<Uuid>, u: Uuid)
    requires k < |cols| && |us| == k && Readable(csv, cols)
    ensures Readable(csv, cols[..k]) && Readable(csv, cols[..k + 1])
    ensures Metadata(csv, cols[..k + 1], us + [u])
      == Metadata(csv, cols[..k], us) + ColumnMetadata(csv, cols[k], u, |csv.rows|)
  {
    PrefixSnoc(cols, k);
    MetadataSnoc(csv, cols[..k + 1], us + [u]);
    assert (us + [u])[..k] == us;
  }

  // ---------------------------------------------------------------------------
  // generate_batch_metadata
  // ---------------------------------------------------------------------------

  /**
   * `generate_batch_metadata`: resolve-or-create an identifier for each portfolio column
   * of the batch CSV, then one metadata row per positive weight, with the identifier
   * the dictionary holds for the column.
   */
  method GenerateBatchMetadata(csv: Csv, registry: IdRegistry) returns (rows: seq<MetadataRow>)
    requires registry.Valid() && Readable(csv, PortfolioColumns(csv.columns))
    modifies registry
    ensures registry.Valid()
    ensures IdState(registry.ids, registry.next)
      == ResolveAll(IdState(old(registry.ids), old(registry.next)), PortfolioColumns(csv.columns))
    ensures AllIn(PortfolioColumns(csv.columns), registry.ids)
    ensures rows == Metadata(csv, PortfolioColumns(csv.columns),
      UuidsOf(registry.ids, PortfolioColumns(csv.columns)))
  {
    var portfolioCols := Filter(csv.columns, IsBatchPortfolioColumn);
    ghost var s0 := IdState(registry.ids, registry.next);
    ghost var us: seq<Uuid> := [];
    rows := [];
    MetadataLoopInit(csv, s0, portfolioCols);
    for k := 0 to |portfolioCols|
      invariant registry.Valid()
      invariant MetadataLoop(csv, s0, portfolioCols, k, IdState(registry.ids, registry.next), us, rows)
    {
      var portfolioCol := portfolioCols[k];
      ghost var before := IdState(registry.ids, registry.next);
      var portfolioUuid := registry.ResolveOrCreate(portfolioCol);
      var columnRows := CollectColumnMetadata(csv, portfolioCol, portfolioUuid);
      MetadataLoopStep(csv, s0, portfolioCols, k, before, IdState(registry.ids, registry.next),
        portfolioUuid, us, rows, columnRows);
      us := us + [portfolioUuid];
      rows := rows + columnRows;
    }
    MetadataLoopDone(csv, s0, portfolioCols, IdState(registry.ids, registry.next), us, rows);
  }

  /**
   * The state of the metadata loop after its first `k` columns: the dictionary has
   * resolved them in order, `us` holds their identifiers, and `rows` their metadata.
   */
  ghost predicate MetadataLoop(csv: Csv, s0: IdState, cols: seq<string>, k: nat, s: IdState,
                               us: seq<Uuid>, rows: seq<MetadataRow>)
  {
    k <= |cols| && s == ResolveAll(s0, cols[..k]) && |us| == k
    && (forall i :: 0 <= i < k ==> cols[i] in s.ids && us[i] == s.ids[cols[i]])
    && Readable(csv, cols[..k]) && rows == Metadata(csv, cols[..k], us)
  }

  lemma MetadataLoopInit(csv: Csv, s0: IdState, cols: seq<string>)
    requires Readable(csv, cols)
    ensures MetadataLoop(csv, s0, cols, 0, s0, [], [])
  {
    assert cols[..0] == [];
    assert MetadataParts(csv, [], []) == [];
  }

  /** Resolving column `k` and appending its rows keeps the loop state. */
  lemma MetadataLoopStep(csv: Csv, s0: IdState, cols: seq<string>, k: nat, s: IdState, s': IdState,
                         u: Uuid, us: seq<Uuid>, rows: seq<MetadataRow>, columnRows: seq<MetadataRow>)
    requires Readable(csv, cols) && k < |cols|
    requires MetadataLoop(csv, s0, cols, k, s, us, rows)
    requires cols[k] in s.ids ==> u == s.ids[cols[k]] && s' == s
    requires cols[k] !in s.ids ==> u == s.next && s' == IdState(s.ids[cols[k] := u], s.next + 1)
    requires |csv.rows| > 0 ==> WeightColumn(csv, cols[k])
    requires columnRows == ColumnMetadata(csv, cols[k], u, |csv.rows|)
    ensures MetadataLoop(csv, s0, cols, k + 1, s', us + [u], rows + columnRows)
  {
    ResolveAllSnoc(s0, cols, k);
    assert s' == ResolveOne(s, cols[k]);
    KnownIdsStep(s.ids, s'.ids, cols, k, us, u);
    MetadataStep(csv, cols, k, us, u);
  }

  /** When the loop ends, its state is the one the method promises. */
  lemma MetadataLoopDone(csv: Csv, s0: IdState, cols: seq<string>, s: IdState, us: seq<Uuid>,
                         rows: seq<MetadataRow>)
    requires MetadataLoop(csv, s0, cols, |cols|, s, us, rows)
    ensures s == ResolveAll(s0, cols) && AllIn(cols, s.ids)
    ensures Readable(csv, cols) && rows == Metadata(csv, cols, UuidsOf(s.ids, cols))
  {
    assert cols[..|cols|] == cols;
    assert us == UuidsOf(s.ids, cols);
  }

  // ---------------------------------------------------------------------------
  // extract_batch_metrics
  // ---------------------------------------------------------------------------

  const BatchTargets: seq<string> := [
    "Portfolio Performance (Jan 2003 - Nov 2025)",
    "Portfolio Performance (Jan 1998 - Dec 2025)",
    "Risk and Return Metrics (Jan 2003 - Nov 2025)",
    "Risk and Return Metrics (Jan 1998 - Dec 2025)"
  ]

  /** The table target `t` reads: the first whose name contains the target's first 30
      characters. */
  function TargetTable(tables: Tables, t: nat): Option<nat>
    requires t < |BatchTargets|
  {
    FirstTableContaining(tables, Take(BatchTargets[t], 30))
  }

  /** Every target table found has a first column (`df_table.columns[0]`). */
  predicate TargetsHaveColumns(tables: Tables)
  {
    forall t :: 0 <= t < |BatchTargets| && TargetTable(tables, t).Some? ==>
      tables[TargetTable(tables, t).value].val.columns != []
  }

  /** The Portfolio Visualizer label of the `i`-th portfolio of a batch. */
  function PvLabel(i: nat): string
  {
    if i == 0 then "Sample Portfolio" else "Portfolio " + Dec(i + 1)
  }

  lemma PvLabelInjective(i: nat, j: nat)
    requires PvLabel(i) == PvLabel(j)
    ensures i == j
  {
    if i == 0 || j == 0 {
      assert PvLabel(i)[0] == PvLabel(j)[0];
    } else {
      var p := "Portfolio ";
      assert PvLabel(i)[|p|..] == Dec(i + 1);
      assert PvLabel(j)[|p|..] == Dec(j + 1);
      DecInjective(i + 1, j + 1);
    }
  }

  /** `pv_to_grid_mapping` after its first `n` assignments. */
  function PvMap(cols: seq<string>): map<string, string>
  {
    if cols == [] then map[] else PvMap(cols[..|cols| - 1])[PvLabel(|cols| - 1) := cols[|cols| - 1]]
  }

  /** The mapping sends the label of position `i` to column `i`. */
  lemma {:induction false} PvMapAt(cols: seq<string>, i: nat)
    requires i < |cols|
    ensures PvLabel(i) in PvMap(cols) && PvMap(cols)[PvLabel(i)] == cols[i]
  {
    var n := |cols|;
    if i < n - 1 {
      PvMapAt(cols[..n - 1], i);
      assert cols[..n - 1][i] == cols[i];
      if PvLabel(i) == PvLabel(n - 1) {
        PvLabelInjective(i, n - 1);
      }
    }
  }

  /** The mapping has no key but the labels of the positions, and yields only batch
      columns. */
  lemma {:induction false} PvMapKey(cols: seq<string>, key: string)
    requires key in PvMap(cols)
    ensures exists i :: 0 <= i < |cols| && key == PvLabel(i) && PvMap(cols)[key] == cols[i]
  {
    var n := |cols|;
    if key == PvLabel(n - 1) {
      assert PvMap(cols)[key] == cols[n - 1];
    } else {
      PvMapKey(cols[..n - 1], key);
      var i :| 0 <= i < n - 1 && key == PvLabel(i) && PvMap(cols[..n - 1])[key] == cols[..n - 1][i];
      assert PvMap(cols)[key] == cols[i];
    }
  }

  /** The `pv_to_grid_mapping` loop. */
  method BuildPvMapping(cols: seq<string>) returns (m: map<string, string>)
    ensures m == PvMap(cols)
  {
    m := map[];
    for i := 0 to |cols|
      invariant m == PvMap(cols[..i])
    {
      PrefixSnoc(cols, i);
      if i == 0 {
        m := m["Sample Portfolio" := cols[i]];
      } else {
        m := m["Portfolio " + Dec(i + 1) := cols[i]];
      }
    }
    assert cols[..|cols|] == cols;
  }

  function MapGet(m: map<string, string>, key: string): (v: Option<string>)
    ensures v.Some? <==> key in m
    ensures v.Some? ==> v.value == m[key]
  {
    if key in m then Some(m[key]) else None
  }

  /** The batch column a result column stands for: an exact label first, then the
      lowercase tests for "sample", "portfolio 2" and "portfolio 3" in that order. */
  function GridName(pv: map<string, string>, pvCol: string): Option<string>
  {
    if pvCol in pv then Some(pv[pvCol])
    else if Contains(Lower(pvCol), "sample") then MapGet(pv, "Sample Portfolio")
    else if Contains(Lower(pvCol), "portfolio 2") then MapGet(pv, "Portfolio 2")
    else if Contains(Lower(pvCol), "portfolio 3") then MapGet(pv, "Portfolio 3")
    else None
  }

  /** A result column only ever maps to a batch column, and the label of position `i`
      maps to column `i`. */
  lemma GridNameSpec(cols: seq<string>, pvCol: string)
    ensures GridName(PvMap(cols), pvCol).Some? ==> GridName(PvMap(cols), pvCol).value in cols
    ensures forall i :: 0 <= i < |cols| ==> GridName(PvMap(cols), PvLabel(i)) == Some(cols[i])
  {
    forall i | 0 <= i < |cols|
      ensures GridName(PvMap(cols), PvLabel(i)) == Some(cols[i])
    {
      PvMapAt(cols, i);
    }
    GridNameInCols(cols, pvCol);
  }

  lemma GridNameInCols(cols: seq<string>, pvCol: string)
    ensures GridName(PvMap(cols), pvCol).Some? ==> GridName(PvMap(cols), pvCol).value in cols
  {
    var pv := PvMap(cols);
    var key :=
      if pvCol in pv then pvCol
      else if Contains(Lower(pvCol), "sample") then "Sample Portfolio"
      else if Contains(Lower(pvCol), "portfolio 2") then "Portfolio 2"
      else "Portfolio 3";
    if GridName(pv, pvCol).Some? {
      assert key in pv && GridName(pv, pvCol).value == pv[key];
      PvMapKey(cols, key);
    }
  }

  /** `dict.get` of a position's label: the batch column at that position, or nothing
      past the last one. */
  lemma PvMapGet(cols: seq<string>, i: nat)
    ensures MapGet(PvMap(cols), PvLabel(i)) == if i < |cols| then Some(cols[i]) else None
  {
    if i < |cols| {
      PvMapAt(cols, i);
    } else if PvLabel(i) in PvMap(cols) {
      PvMapKey(cols, PvLabel(i));
      var j :| 0 <= j < |cols| && PvLabel(i) == PvLabel(j) && PvMap(cols)[PvLabel(i)] == cols[j];
      PvLabelInjective(i, j);
    }
  }

  /**
   * A result column that is not a label falls back on its lower-case text: "sample"
   * gives the first batch column, otherwise "portfolio 2" the second, otherwise
   * "portfolio 3" the third (nothing when the batch has no such column), and any other
   * text gives nothing.
   */
  lemma GridNameFallback(cols: seq<string>, pvCol: string)
    requires pvCol !in PvMap(cols)
    ensures var low := Lower(pvCol);
      var g := GridName(PvMap(cols), pvCol);
      (Contains(low, "sample") ==> g == (if |cols| >= 1 then Some(cols[0]) else None))
      && (!Contains(low, "sample") && Contains(low, "portfolio 2") ==>
            g == (if |cols| >= 2 then Some(cols[1]) else None))
      && (!Contains(low, "sample") && !Contains(low, "portfolio 2") && Contains(low, "portfolio 3") ==>
            g == (if |cols| >= 3 then Some(cols[2]) else None))
      && (!Contains(low, "sample") && !Contains(low, "portfolio 2") && !Contains(low, "portfolio 3") ==>
            g == None)
  {
    FallbackKeys(cols);
  }

  /** The three keys the fallback reads, looked up in the mapping. */
  lemma FallbackKeys(cols: seq<string>)
    ensures MapGet(PvMap(cols), "Sample Portfolio") == if |cols| >= 1 then Some(cols[0]) else None
    ensures MapGet(PvMap(cols), "Portfolio 2") == if |cols| >= 2 then Some(cols[1]) else None
    ensures MapGet(PvMap(cols), "Portfolio 3") == if |cols| >= 3 then Some(cols[2]) else None
  {
    SecondThirdLabels();
    PvMapGet(cols, 0);
    PvMapGet(cols, 1);
    PvMapGet(cols, 2);
  }

  lemma SecondThirdLabels()
    ensures PvLabel(1) == "Portfolio 2" && PvLabel(2) == "Portfolio 3"
  {
    assert Dec(2) == "2" && Dec(3) == "3";
  }

  /** "sample" is tried before "portfolio 2": the result column "Sample Portfolio 2",
      which holds both, goes to the first batch column. */
  lemma SampleBeforePortfolio2(cols: seq<string>)
    requires |cols| >= 2
    ensures Contains(Lower("Sample Portfolio 2"), "portfolio 2")
    ensures GridName(PvMap(cols), "Sample Portfolio 2") == Some(cols[0])
  {
    SampleText();
    NotALabel(cols, "Sample Portfolio 2");
    GridNameFallback(cols, "Sample Portfolio 2");
  }

  lemma SampleText()
    ensures Contains(Lower("Sample Portfolio 2"), "sample")
    ensures Contains(Lower("Sample Portfolio 2"), "portfolio 2")
  {
    var low := Lower("Sample Portfolio 2");
    assert low == "sample portfolio 2";
    assert StartsWith(low, "sample");
    ContainsSelf("portfolio 2");
    ContainsInfix("sample ", "portfolio 2", "", "portfolio 2");
    assert "sample " + "portfolio 2" + "" == low;
  }

  /** A text starting with 'S' other than "Sample Portfolio" is no label. */
  lemma NotALabel(cols: seq<string>, pvCol: string)
    requires pvCol != [] && pvCol[0] == 'S' && pvCol != "Sample Portfolio"
    ensures pvCol !in PvMap(cols)
  {
    if pvCol in PvMap(cols) {
      PvMapKey(cols, pvCol);
    }
  }

  /** The metric rows of result column `j` (`continue` when it maps to no column or the
      column has no identifier). */
  function BatchColumnMetrics(f: Frame, j: nat, pv: map<string, string>, ids: map<string, Uuid>,
                              source: string): seq<MetricRow>
    requires j < |f.columns|
  {
    var g := GridName(pv, f.columns[j]);
    if g.None? || g.value == "" || g.value !in ids then []
    else ColumnMetrics(f, j, ids[g.value], g.value, source, |f.rows|)
  }

  function BatchTableParts(f: Frame, pv: map<string, string>, ids: map<string, Uuid>, source: string)
    : (parts: seq<seq<MetricRow>>)
    requires f.columns != []
    ensures |parts| == |f.columns| - 1
    ensures forall i :: 0 <= i < |parts| ==> parts[i] == BatchColumnMetrics(f, i + 1, pv, ids, source)
  {
    seq(|f.columns| - 1, i requires 0 <= i < |f.columns| - 1 => BatchColumnMetrics(f, i + 1, pv, ids, source))
  }

  function BatchTableMetrics(f: Frame, pv: map<string, string>, ids: map<string, Uuid>, source: string)
    : seq<MetricRow>
    requires f.columns != []
  {
    Flatten(BatchTableParts(f, pv, ids, source))
  }

  function BatchTargetMetrics(tables: Tables, cols: seq<string>, ids: map<string, Uuid>, t: nat): seq<MetricRow>
    requires t < |BatchTargets| && TargetsHaveColumns(tables)
  {
    match TargetTable(tables, t)
    case None => []
    case Some(i) => BatchTableMetrics(tables[i].val, PvMap(cols), ids, tables[i].key)
  }

  function BatchParts(tables: Tables, cols: seq<string>, ids: map<string, Uuid>): (parts: seq<seq<MetricRow>>)
    requires TargetsHaveColumns(tables)
    ensures |parts| == |BatchTargets|
    ensures forall t :: 0 <= t < |parts| ==> parts[t] == BatchTargetMetrics(tables, cols, ids, t)
  {
    seq(|BatchTargets|, t requires 0 <= t < |BatchTargets| => BatchTargetMetrics(tables, cols, ids, t))
  }

  /** The metrics of one batch: the four targets in order, each from its matching table. */
  function BatchMetrics(tables: Tables, cols: seq<string>, ids: map<string, Uuid>): seq<MetricRow>
    requires TargetsHaveColumns(tables)
  {
    Flatten(BatchParts(tables, cols, ids))
  }

  /** Result column `j` of table `f` (named `source`) yields metric row `e` for row `r`. */
  predicate BatchColumnEmits(f: Frame, pv: map<string, string>, ids: map<string, Uuid>, source: string,
                             j: nat, r: nat, e: MetricRow)
  {
    1 <= j < |f.columns| && r < |f.rows|
    && GridName(pv, f.columns[j]).Some? && GridName(pv, f.columns[j]).value != ""
    && GridName(pv, f.columns[j]).value in ids
    && MetricAt(f, r, j, ids[GridName(pv, f.columns[j]).value], GridName(pv, f.columns[j]).value, source) == Some(e)
  }

  lemma BatchTableMetricsExact(f: Frame, pv: map<string, string>, ids: map<string, Uuid>, source: string,
                               e: MetricRow)
    requires f.columns != []
    ensures e in BatchTableMetrics(f, pv, ids, source) <==>
      exists j: nat, r: nat :: BatchColumnEmits(f, pv, ids, source, j, r, e)
  {
    var parts := BatchTableParts(f, pv, ids, source);
    FlattenIn(parts, e);
    if e in BatchTableMetrics(f, pv, ids, source) {
      var i :| 0 <= i < |parts| && e in parts[i];
      var r := BatchPartEmits(f, pv, ids, source, i + 1, e);
    }
    if exists j: nat, r: nat :: BatchColumnEmits(f, pv, ids, source, j, r, e) {
      var j: nat, r: nat :| BatchColumnEmits(f, pv, ids, source, j, r, e);
      EmitsInBatchPart(f, pv, ids, source, j, r, e);
      assert e in parts[j - 1];
    }
  }

  lemma BatchPartEmits(f: Frame, pv: map<string, string>, ids: map<string, Uuid>, source: string, j: nat,
                       e: MetricRow) returns (r: nat)
    requires 1 <= j < |f.columns|
    requires e in BatchColumnMetrics(f, j, pv, ids, source)
    ensures BatchColumnEmits(f, pv, ids, source, j, r, e)
  {
    var g := GridName(pv, f.columns[j]).value;
    ColumnMetricsExact(f, j, ids[g], g, source, |f.rows|, e);
    r :| 0 <= r < |f.rows| && MetricAt(f, r, j, ids[g], g, source) == Some(e);
  }

  lemma EmitsInBatchPart(f: Frame, pv: map<string, string>, ids: map<string, Uuid>, source: string, j: nat,
                         r: nat, e: MetricRow)
    requires BatchColumnEmits(f, pv, ids, source, j, r, e)
    ensures e in BatchColumnMetrics(f, j, pv, ids, source)
  {
    var g := GridName(pv, f.columns[j]).value;
    ColumnMetricsExact(f, j, ids[g], g, source, |f.rows|, e);
  }

  /** Target `t` finds table `i`, whose result column `j` yields `e` for row `r`. */
  predicate BatchEmits(tables: Tables, cols: seq<string>, ids: map<string, Uuid>, t: nat, j: nat, r: nat,
                       e: MetricRow)
  {
    t < |BatchTargets| && TargetTable(tables, t).Some?
    && BatchColumnEmits(tables[TargetTable(tables, t).value].val, PvMap(cols), ids,
         tables[TargetTable(tables, t).value].key, j, r, e)
  }

  /**
   * The metrics of a batch hold exactly the numbers of the result columns of the tables
   * the targets find, for the columns that map to a batch column with an identifier.
   */
  lemma BatchMetricsExact(tables: Tables, cols: seq<string>, ids: map<string, Uuid>, e: MetricRow)
    requires TargetsHaveColumns(tables)
    ensures e in BatchMetrics(tables, cols, ids) <==> exists t: nat, j: nat, r: nat :: BatchEmits(tables, cols, ids, t, j, r, e)
  {
    if e in BatchMetrics(tables, cols, ids) {
      BatchMetricsOrigin(tables, cols, ids, e);
    }
    if exists t: nat, j: nat, r: nat :: BatchEmits(tables, cols, ids, t, j, r, e) {
      var t: nat, j: nat, r: nat :| BatchEmits(tables, cols, ids, t, j, r, e);
      BatchMetricsEmitted(tables, cols, ids, t, j, r, e);
    }
  }

  lemma BatchMetricsOrigin(tables: Tables, cols: seq<string>, ids: map<string, Uuid>, e: MetricRow)
    requires TargetsHaveColumns(tables) && e in BatchMetrics(tables, cols, ids)
    ensures exists t: nat, j: nat, r: nat :: BatchEmits(tables, cols, ids, t, j, r, e)
  {
    var parts := BatchParts(tables, cols, ids);
    FlattenIn(parts, e);
    var t :| 0 <= t < |parts| && e in parts[t];
    var i := TargetTable(tables, t).value;
    BatchTableMetricsExact(tables[i].val, PvMap(cols), ids, tables[i].key, e);
    var j: nat, r: nat :| BatchColumnEmits(tables[i].val, PvMap(cols), ids, tables[i].key, j, r, e);
    assert BatchEmits(tables, cols, ids, t, j, r, e);
  }

  lemma BatchMetricsEmitted(tables: Tables, cols: seq<string>, ids: map<string, Uuid>,
                            t: nat, j: nat, r: nat, e: MetricRow)
    requires TargetsHaveColumns(tables) && BatchEmits(tables, cols, ids, t, j, r, e)
    ensures e in BatchMetrics(tables, cols, ids)
  {
    var parts := BatchParts(tables, cols, ids);
    FlattenIn(parts, e);
    var i := TargetTable(tables, t).value;
    BatchTableMetricsExact(tables[i].val, PvMap(cols), ids, tables[i].key, e);
    assert e in parts[t];
  }

  /** Every metric row of a batch names one of its portfolio columns and carries that
      column's identifier, and comes from a table whose name contains the first 30
      characters of a target. */
  lemma BatchMetricsSound(tables: Tables, cols: seq<string>, ids: map<string, Uuid>, e: MetricRow)
    requires TargetsHaveColumns(tables)
    requires e in BatchMetrics(tables, cols, ids)
    ensures e.portfolioName in cols && e.portfolioName in ids && e.uuid == ids[e.portfolioName]
    ensures exists t :: 0 <= t < |BatchTargets| && Contains(e.source, Take(BatchTargets[t], 30))
  {
    BatchMetricsExact(tables, cols, ids, e);
    var t: nat, j: nat, r: nat :| BatchEmits(tables, cols, ids, t, j, r, e);
    var i := TargetTable(tables, t).value;
    GridNameSpec(cols, tables[i].val.columns[j]);
  }

  /** `extract_batch_metrics`. */
  method ExtractBatchMetrics(tables: Tables, csv: Csv, ids: map<string, Uuid>) returns (rows: seq<MetricRow>)
    requires TargetsHaveColumns(tables)
    ensures rows == BatchMetrics(tables, PortfolioColumns(csv.columns), ids)
  {
    var batchPortfolioCols := Filter(csv.columns, IsBatchPortfolioColumn);
    ghost var parts := BatchParts(tables, batchPortfolioCols, ids);
    rows := [];
    for t := 0 to |BatchTargets|
      invariant rows == Flatten(parts[..t])
    {
      FlattenSnoc(parts, t);
      var matching := FirstTableContaining(tables, Take(BatchTargets[t], 30));
      if matching.None? {
        assert parts[t] == [];
        assert rows + parts[t] == rows;
        continue;
      }
      var actualTableName := tables[matching.value].key;
      var dfTable := tables[matching.value].val;
      var pvToGridMapping := BuildPvMapping(batchPortfolioCols);
      var tableRows := BatchTableRows(dfTable, pvToGridMapping, ids, actualTableName);
      rows := rows + tableRows;
    }
    assert parts[..|BatchTargets|] == parts;
  }

  /** The result-column loop of `extract_batch_metrics` for one table. */
  method BatchTableRows(f: Frame, pv: map<string, string>, ids: map<string, Uuid>, source: string)
    returns (rows: seq<MetricRow>)
    requires f.columns != []
    ensures rows == BatchTableMetrics(f, pv, ids, source)
  {
    ghost var parts := BatchTableParts(f, pv, ids, source);
    rows := [];
    for j := 1 to |f.columns|
      invariant |parts| == |f.columns| - 1 && rows == Flatten(parts[..j - 1])
    {
      var pvCol := f.columns[j];
      var gridName := GridName(pv, pvCol);
      if gridName.None? || gridName.value == "" || gridName.value !in ids {
        FlattenStep(parts, j - 1, rows, []);
        continue;
      }
      var portfolioUuid := ids[gridName.value];
      var columnRows := CollectColumnMetrics(f, j, portfolioUuid, gridName.value, source);
      FlattenStep(parts, j - 1, rows, columnRows);
      rows := rows + columnRows;
    }
    assert parts[..|f.columns| - 1] == parts;
  }

  // ---------------------------------------------------------------------------
  // consolidate_all_batches
  // ---------------------------------------------------------------------------

  /** One manifest entry: the batch's results sheet and its allocations CSV. */
  datatype BatchInput = BatchInput(results: TableParser.Grid, allocations: Csv)

  /** The concatenated metadata, the concatenated metrics and the identifier dictionary. */
  datatype Consolidated = Consolidated(metadata: seq<MetadataRow>, metrics: seq<MetricRow>,
                                       uuidMap: map<string, Uuid>)

  function BatchCols(b: BatchInput): seq<string>
  {
    PortfolioColumns(b.allocations.columns)
  }

  predicate AllReadable(batches: seq<BatchInput>)
  {
    forall b :: 0 <= b < |batches| ==> Readable(batches[b].allocations, BatchCols(batches[b]))
  }

  /** Every table the parser returns has columns, so every target table has a first one. */
  lemma ParsedTargetsHaveColumns(g: TableParser.Grid)
    ensures TargetsHaveColumns(TableParser.AllTables(g))
  {
    TableParser.AllTablesWellFormed(g);
  }

  /** The dictionary and the oracle after the first `n` batches. */
  function StateAfter(batches: seq<BatchInput>, first: Uuid, n: nat): IdState
    requires n <= |batches|
  {
    if n == 0 then IdState(map[], first)
    else ResolveAll(StateAfter(batches, first, n - 1), BatchCols(batches[n - 1]))
  }

  lemma ResolvedAllIn(s: IdState, names: seq<string>)
    ensures AllIn(names, ResolveAll(s, names).ids)
  {
    ResolveAllSpec(s, names);
    forall k | 0 <= k < |names|
      ensures names[k] in ResolveAll(s, names).ids
    {
      assert names[k] in set i | 0 <= i < |names| :: names[i];
    }
  }

  /** The metadata of batch `b`, with the identifiers the dictionary holds after it. */
  function BatchMetadataOf(batches: seq<BatchInput>, first: Uuid, b: nat): seq<MetadataRow>
    requires b < |batches| && AllReadable(batches)
  {
    var cols := BatchCols(batches[b]);
    ResolvedAllIn(StateAfter(batches, first, b), cols);
    Metadata(batches[b].allocations, cols, UuidsOf(StateAfter(batches, first, b + 1).ids, cols))
  }

  /** The metrics of batch `b`, with the dictionary as it is after the batch. */
  function BatchMetricsOf(batches: seq<BatchInput>, first: Uuid, b: nat): seq<MetricRow>
    requires b < |batches|
  {
    ParsedTargetsHaveColumns(batches[b].results);
    BatchMetrics(TableParser.AllTables(batches[b].results), BatchCols(batches[b]), StateAfter(batches, first, b + 1).ids)
  }

  function MetadataOfBatches(batches: seq<BatchInput>, first: Uuid): (parts: seq<seq<MetadataRow>>)
    requires AllReadable(batches)
    ensures |parts| == |batches|
    ensures forall b :: 0 <= b < |batches| ==> parts[b] == BatchMetadataOf(batches, first, b)
  {
    seq(|batches|, b requires 0 <= b < |batches| && AllReadable(batches) => BatchMetadataOf(batches, first, b))
  }

  function MetricsOfBatches(batches: seq<BatchInput>, first: Uuid): (parts: seq<seq<MetricRow>>)
    ensures |parts| == |batches|
    ensures forall b :: 0 <= b < |batches| ==> parts[b] == BatchMetricsOf(batches, first, b)
  {
    seq(|batches|, b requires 0 <= b < |batches| => BatchMetricsOf(batches, first, b))
  }

  /**
   * What consolidating the batches yields: nothing when there is no batch (concatenating
   * no frames fails), otherwise the metadata and the metrics of the batches in manifest
   * order and the final dictionary.
   */
  function Consolidate(batches: seq<BatchInput>, first: Uuid): Option<Consolidated>
    requires AllReadable(batches)
  {
    if batches == [] then None
    else Some(Consolidated(Flatten(MetadataOfBatches(batches, first)), Flatten(MetricsOfBatches(batches, first)),
                           StateAfter(batches, first, |batches|).ids))
  }

  /** `consolidate_all_batches`, one dictionary threaded through every batch. */
  method ConsolidateAllBatches(batches: seq<BatchInput>, first: Uuid) returns (r: Option<Consolidated>)
    requires AllReadable(batches)
    ensures r == Consolidate(batches, first)
  {
    ghost var metadataParts := MetadataOfBatches(batches, first);
    ghost var metricsParts := MetricsOfBatches(batches, first);
    var allMetadata: seq<seq<MetadataRow>> := [];
    var allMetrics: seq<seq<MetricRow>> := [];
    var registry := new IdRegistry(first);
    for b := 0 to |batches|
      invariant registry.Valid()
      invariant IdState(registry.ids, registry.next) == StateAfter(batches, first, b)
      invariant allMetadata == metadataParts[..b]
      invariant allMetrics == metricsParts[..b]
    {
      var allTables := TableParser.ParseAllTables(batches[b].results);
      var batchMetadata := GenerateBatchMetadata(batches[b].allocations, registry);
      allMetadata := allMetadata + [batchMetadata];
      ParsedTargetsHaveColumns(batches[b].results);
      var batchMetrics := ExtractBatchMetrics(allTables, batches[b].allocations, registry.ids);
      allMetrics := allMetrics + [batchMetrics];
      PrefixSnoc(metadataParts, b);
      PrefixSnoc(metricsParts, b);
    }
    if |allMetadata| == 0 {
      return None;
    }
    assert metadataParts[..|batches|] == metadataParts && metricsParts[..|batches|] == metricsParts;
    r := Some(Consolidated(Flatten(allMetadata), Flatten(allMetrics), registry.ids));
  }

  /** Portfolio `name` is a portfolio column of one of the first `n` batches. */
  predicate SeenIn(batches: seq<BatchInput>, n: nat, name: string)
  {
    exists b :: 0 <= b < n && b < |batches| && name in BatchCols(batches[b])
  }

  /**
   * After `n` batches the dictionary holds exactly the portfolio columns seen so far,
   * with distinct identifiers drawn from the oracle since `first`.
   */
  lemma {:induction false} StateAfterSpec(batches: seq<BatchInput>, first: Uuid, n: nat)
    requires n <= |batches|
    ensures ValidState(StateAfter(batches, first, n))
    ensures first <= StateAfter(batches, first, n).next
    ensures forall name :: name in StateAfter(batches, first, n).ids ==>
      first <= StateAfter(batches, first, n).ids[name]
  {
    if n > 0 {
      StateAfterSpec(batches, first, n - 1);
      var prev := StateAfter(batches, first, n - 1);
      assert StateAfter(batches, first, n) == ResolveAll(prev, BatchCols(batches[n - 1]));
      ResolveAllSpec(prev, BatchCols(batches[n - 1]));
    }
  }

  /** After `n` batches the dictionary holds exactly the portfolio columns seen so far. */
  lemma {:induction false} StateAfterKeys(batches: seq<BatchInput>, first: Uuid, n: nat, name: string)
    requires n <= |batches|
    ensures name in StateAfter(batches, first, n).ids <==> SeenIn(batches, n, name)
  {
    if n > 0 {
      StateAfterKeys(batches, first, n - 1, name);
      var prev := StateAfter(batches, first, n - 1);
      assert StateAfter(batches, first, n) == ResolveAll(prev, BatchCols(batches[n - 1]));
      ResolveAllHas(prev, BatchCols(batches[n - 1]), name);
      SeenInStep(batches, n, name);
    }
  }

  /** A name is seen in the first `n` batches when it is seen in the first `n - 1` or
      is a portfolio column of batch `n - 1`. */
  lemma SeenInStep(batches: seq<BatchInput>, n: nat, name: string)
    requires 0 < n <= |batches|
    ensures SeenIn(batches, n, name) <==> SeenIn(batches, n - 1, name) || name in BatchCols(batches[n - 1])
  {
    if SeenIn(batches, n, name) && !SeenIn(batches, n - 1, name) {
      var b :| 0 <= b < n && b < |batches| && name in BatchCols(batches[b]);
      assert b == n - 1;
    }
  }

  /** A later dictionary keeps every identifier of an earlier one. */
  lemma {:induction false} StateAfterExtends(batches: seq<BatchInput>, first: Uuid, m: nat, n: nat, name: string)
    requires m <= n <= |batches|
    requires name in StateAfter(batches, first, m).ids
    ensures name in StateAfter(batches, first, n).ids
    ensures StateAfter(batches, first, n).ids[name] == StateAfter(batches, first, m).ids[name]
  {
    if m < n {
      StateAfterExtends(batches, first, m, n - 1, name);
      var prev := StateAfter(batches, first, n - 1);
      assert StateAfter(batches, first, n) == ResolveAll(prev, BatchCols(batches[n - 1]));
      ResolveAllKeeps(prev, BatchCols(batches[n - 1]), name);
    }
  }

  /**
   * The consolidated dictionary holds exactly the portfolio columns of all batches, with
   * no identifier shared by two names; there is no result exactly when there is no batch.
   */
  lemma ConsolidatedMap(batches: seq<BatchInput>, first: Uuid)
    requires AllReadable(batches)
    ensures Consolidate(batches, first).None? <==> batches == []
    ensures Consolidate(batches, first).Some? ==>
      var ids := Consolidate(batches, first).value.uuidMap;
      (forall name :: name in ids <==> SeenIn(batches, |batches|, name))
      && (forall a, b :: a in ids && b in ids && a != b ==> ids[a] != ids[b])
  {
    StateAfterSpec(batches, first, |batches|);
    forall name
      ensures name in StateAfter(batches, first, |batches|).ids <==> SeenIn(batches, |batches|, name)
    {
      StateAfterKeys(batches, first, |batches|, name);
    }
  }

  /**
   * Every metadata row and every metric row carries the identifier the consolidated
   * dictionary holds for its portfolio, whichever batch it came from: a portfolio seen
   * in several batches keeps the identifier it was first given.
   */
  lemma ConsolidatedIdsConsistent(batches: seq<BatchInput>, first: Uuid)
    requires AllReadable(batches)
    ensures Consolidate(batches, first).Some? ==>
      var c := Consolidate(batches, first).value;
      (forall e :: e in c.metadata ==> e.portfolioName in c.uuidMap && e.uuid == c.uuidMap[e.portfolioName])
      && (forall e :: e in c.metrics ==> e.portfolioName in c.uuidMap && e.uuid == c.uuidMap[e.portfolioName])
  {
    if batches != [] {
      var c := Consolidate(batches, first).value;
      forall e | e in c.metadata
        ensures e.portfolioName in c.uuidMap && e.uuid == c.uuidMap[e.portfolioName]
      {
        MetadataRowConsistent(batches, first, e);
      }
      forall e | e in c.metrics
        ensures e.portfolioName in c.uuidMap && e.uuid == c.uuidMap[e.portfolioName]
      {
        MetricRowConsistent(batches, first, e);
      }
    }
  }

  lemma MetadataRowConsistent(batches: seq<BatchInput>, first: Uuid, e: MetadataRow)
    requires AllReadable(batches) && batches != []
    requires e in Flatten(MetadataOfBatches(batches, first))
    ensures e.portfolioName in StateAfter(batches, first, |batches|).ids
    ensures e.uuid == StateAfter(batches, first, |batches|).ids[e.portfolioName]
  {
    var parts := MetadataOfBatches(batches, first);
    FlattenIn(parts, e);
    var b :| 0 <= b < |parts| && e in parts[b];
    BatchMetadataRowConsistent(batches, first, b, e);
  }

  lemma BatchMetadataRowConsistent(batches: seq<BatchInput>, first: Uuid, b: nat, e: MetadataRow)
    requires AllReadable(batches) && b < |batches|
    requires e in BatchMetadataOf(batches, first, b)
    ensures e.portfolioName in StateAfter(batches, first, |batches|).ids
    ensures e.uuid == StateAfter(batches, first, |batches|).ids[e.portfolioName]
  {
    var csv := batches[b].allocations;
    var cols := BatchCols(batches[b]);
    var ids := StateAfter(batches, first, b + 1).ids;
    ResolvedAllIn(StateAfter(batches, first, b), cols);
    var k := MetadataColumnOf(csv, cols, UuidsOf(ids, cols), e);
    StateAfterExtends(batches, first, b + 1, |batches|, cols[k]);
  }

  /** A metadata row comes from some column, whose name and identifier it carries. */
  lemma MetadataColumnOf(csv: Csv, cols: seq<string>, uuids: seq<Uuid>, e: MetadataRow) returns (k: nat)
    requires Readable(csv, cols) && |uuids| == |cols|
    requires e in Metadata(csv, cols, uuids)
    ensures k < |cols| && e.portfolioName == cols[k] && e.uuid == uuids[k]
  {
    MetadataExact(csv, cols, uuids, e);
    var k', r :| 0 <= k' < |cols| && 0 <= r < |csv.rows| && Emitted(csv, cols[k'], uuids[k'], r, e);
    k := k';
  }

  lemma MetricRowConsistent(batches: seq<BatchInput>, first: Uuid, e: MetricRow)
    requires batches != []
    requires e in Flatten(MetricsOfBatches(batches, first))
    ensures e.portfolioName in StateAfter(batches, first, |batches|).ids
    ensures e.uuid == StateAfter(batches, first, |batches|).ids[e.portfolioName]
  {
    var parts := MetricsOfBatches(batches, first);
    FlattenIn(parts, e);
    var b :| 0 <= b < |parts| && e in parts[b];
    MetricRowOfBatch(batches, first, b, e);
    StateAfterExtends(batches, first, b + 1, |batches|, e.portfolioName);
  }

  /** A metric row of batch `b` carries the identifier its portfolio had after that batch. */
  lemma MetricRowOfBatch(batches: seq<BatchInput>, first: Uuid, b: nat, e: MetricRow)
    requires b < |batches| && e in BatchMetricsOf(batches, first, b)
    ensures e.portfolioName in StateAfter(batches, first, b + 1).ids
    ensures e.uuid == StateAfter(batches, first, b + 1).ids[e.portfolioName]
  {
    ParsedTargetsHaveColumns(batches[b].results);
    BatchMetricsSound(TableParser.AllTables(batches[b].results), BatchCols(batches[b]), StateAfter(batches, first, b + 1).ids, e);
  }
}
