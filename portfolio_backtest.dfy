/**
 * The data side of the single-run backtest script: which CSV columns become the
 * form's portfolios, which asset class each form row gets, the allocation
 * dictionary, the check that each portfolio sums to 100%, and the name the results
 * workbook is saved under.
 */
module Backtest {
  import opened Util
  import opened Sheet
  import opened Records
  import Allocations

  // ---------------------------------------------------------------------------
  // Portfolio columns
  // ---------------------------------------------------------------------------

  /** A portfolio column of an allocation CSV: its label starts with "Grid_" or
      "Portfolio_" (treasury-grid columns are not recognised here). */
  predicate IsFormPortfolioColumn(c: string)
  {
    StartsWith(c, "Grid_") || StartsWith(c, "Portfolio_")
  }

  /**
   * The portfolio columns the form is filled from: the recognised columns in CSV
   * order, cut to the three the web form holds.
   */
  function FormColumns(columns: seq<string>): (cols: seq<string>)
    ensures |cols| <= 3
    ensures cols <= Filter(columns, IsFormPortfolioColumn)
    ensures |Filter(columns, IsFormPortfolioColumn)| >= 3 ==> |cols| == 3
    ensures |Filter(columns, IsFormPortfolioColumn)| < 3 ==> cols == Filter(columns, IsFormPortfolioColumn)
    ensures forall k :: 0 <= k < |cols| ==> cols[k] in columns && IsFormPortfolioColumn(cols[k])
  {
    var all := Filter(columns, IsFormPortfolioColumn);
    if |all| > 3 then all[..3] else all
  }

  /** A treasury-grid column is never taken as a portfolio of the form. */
  lemma TreasuryGridNotForm(c: string)
    requires StartsWith(c, "TreasuryGrid_")
    ensures !IsFormPortfolioColumn(c)
  {
    assert c[0] == 'T';
  }

  // ---------------------------------------------------------------------------
  // Asset classes
  // ---------------------------------------------------------------------------

  const AssetNumber: string := "Asset_Number"
  const OptionValueColumn: string := "Asset_Class_Option_Value"

  /** The seven asset descriptions the single-run script knows, with their form option
      values. */
  const DescriptionToOption: map<string, string> := map[
    "US Equities - US Stock Market" := "TotalStockMarket",
    "Foreign Developed Equities - Intl Developed ex-US Market" := "IntlDeveloped",
    "Emerging Market Equities - Emerging Markets" := "EmergingMarket",
    "US Treasuries - Intermediate Term Treasury" := "IntermediateTreasury",
    "TIPS - Inflation-Protected Bonds" := "TIPS",
    "Corporate Bonds - Investment Grade Corporate Bonds" := "CorpBond",
    "Real Estate/REITs - US REIT" := "REIT"
  ]

  /** Python's `int(x)` of a float: truncation toward zero. */
  function Trunc(x: real): (n: int)
    ensures x >= 0.0 ==> n as real <= x < n as real + 1.0
    ensures x < 0.0 ==> n as real - 1.0 < x <= n as real
  {
    if x >= 0.0 then x.Floor else -((-x).Floor)
  }

  /** Every row's `Asset_Number` is a number, so `int(...)` can be taken. */
  predicate NumberedRows(csv: Csv)
  {
    csv.WellFormed() && AssetNumber in csv.columns && OptionValueColumn in csv.columns
    && forall r :: 0 <= r < |csv.rows| ==> Get(csv, r, AssetNumber).Num?
  }

  /** `int(row["Asset_Number"])` of row `r`. */
  function AssetNum(csv: Csv, r: nat): int
    requires NumberedRows(csv) && r < |csv.rows|
  {
    Trunc(Get(csv, r, AssetNumber).value)
  }

  /** The (asset number, option value) pair of every row, in row order. */
  function OptionRows(csv: Csv): (ps: seq<(int, Cell)>)
    requires NumberedRows(csv)
    ensures |ps| == |csv.rows|
    ensures forall r :: 0 <= r < |ps| ==> ps[r] == (AssetNum(csv, r), Get(csv, r, OptionValueColumn))
  {
    seq(|csv.rows|, r requires 0 <= r < |csv.rows| && NumberedRows(csv) => (AssetNum(csv, r), Get(csv, r, OptionValueColumn)))
  }

  /** The dictionary built by assigning each pair in turn: `d[k] = v` for every `(k, v)`. */
  function AssignAll<K(==), V>(ps: seq<(K, V)>): (d: seq<Entry<K, V>>)
    ensures UniqueKeys(d)
  {
    if ps == [] then []
    else
      var last := ps[|ps| - 1];
      Assign(AssignAll(ps[..|ps| - 1]), last.0, last.1)
  }

  /** The option-value mapping: each row assigns its option value to its asset number. */
  function OptionValues(csv: Csv): seq<Entry<int, Cell>>
    requires NumberedRows(csv)
  {
    AssignAll(OptionRows(csv))
  }

  /** Pair `i` is the last pair with key `k`. */
  predicate LastWithKey<K(==), V>(ps: seq<(K, V)>, k: K, i: int)
  {
    0 <= i < |ps| && ps[i].0 == k && forall j :: i < j < |ps| ==> ps[j].0 != k
  }

  /** The dictionary has a key for each key that is assigned and no other. */
  lemma {:induction false} AssignAllKeys(ps: seq<(int, Cell)>, k: int)
    ensures k in Keys(AssignAll(ps)) <==> exists i :: 0 <= i < |ps| && ps[i].0 == k
  {
    if ps != [] {
      var init := ps[..|ps| - 1];
      var last := ps[|ps| - 1];
      AssignAllKeys(init, k);
      AssignKeys(AssignAll(init), last.0, last.1, k);
      PairKeysSnoc(ps, init, k);
    }
  }

  /** A key occurs among the pairs when it occurs before the last pair or is the last key. */
  lemma PairKeysSnoc<K, V>(ps: seq<(K, V)>, init: seq<(K, V)>, k: K)
    requires ps != [] && init == ps[..|ps| - 1]
    ensures (exists i :: 0 <= i < |ps| && ps[i].0 == k)
        <==> (exists i :: 0 <= i < |init| && init[i].0 == k) || ps[|ps| - 1].0 == k
  {
    if exists i :: 0 <= i < |ps| && ps[i].0 == k {
      var i :| 0 <= i < |ps| && ps[i].0 == k;
      if i < |init| {
        assert init[i] == ps[i];
      }
    }
  }

  /** When a key is assigned several times, the last assignment gives its value. */
  lemma {:induction false} AssignAllLast(ps: seq<(int, Cell)>, k: int)
    requires k in Keys(AssignAll(ps))
    ensures exists i :: LastWithKey(ps, k, i) && Lookup(AssignAll(ps), k) == ps[i].1
  {
    var init := ps[..|ps| - 1];
    if ps[|ps| - 1].0 == k {
      AssignedNow(ps);
      assert LastWithKey(ps, k, |ps| - 1);
    } else {
      AssignAllKeys(ps, k);
      AssignAllKeys(init, k);
      var j :| 0 <= j < |ps| && ps[j].0 == k;
      assert init[j] == ps[j];
      AssignAllLast(init, k);
      AssignedBefore(ps, k);
      var r :| LastWithKey(init, k, r) && Lookup(AssignAll(init), k) == init[r].1;
      LastCarries(ps, k, r);
    }
  }

  /** The last pair with key `k` stays the last when a pair with another key follows. */
  lemma LastCarries(ps: seq<(int, Cell)>, k: int, r: int)
    requires ps != [] && ps[|ps| - 1].0 != k && LastWithKey(ps[..|ps| - 1], k, r)
    ensures LastWithKey(ps, k, r) && ps[r] == ps[..|ps| - 1][r]
  {
    var init := ps[..|ps| - 1];
    forall j | r < j < |ps|
      ensures ps[j].0 != k
    {
      if j < |init| {
        assert ps[j] == init[j];
      }
    }
  }

  /** The pair assigned last gives its key's value. */
  lemma AssignedNow(ps: seq<(int, Cell)>)
    requires ps != []
    ensures ps[|ps| - 1].0 in Keys(AssignAll(ps))
    ensures Lookup(AssignAll(ps), ps[|ps| - 1].0) == ps[|ps| - 1].1
  {
    var prev := AssignAll(ps[..|ps| - 1]);
    var d := AssignAll(ps);
    var k := ps[|ps| - 1].0;
    var i := if k in Keys(prev) then IndexOfKey(prev, k) else |prev|;
    assert d[i] == Entry(k, ps[|ps| - 1].1);
    LookupAt(d, i);
  }

  /** Assigning another key leaves the value of `k` as it was. */
  lemma AssignedBefore(ps: seq<(int, Cell)>, k: int)
    requires ps != [] && ps[|ps| - 1].0 != k
    requires k in Keys(AssignAll(ps[..|ps| - 1]))
    ensures Lookup(AssignAll(ps), k) == Lookup(AssignAll(ps[..|ps| - 1]), k)
  {
    var prev := AssignAll(ps[..|ps| - 1]);
    var d := AssignAll(ps);
    var i := IndexOfKey(prev, k);
    assert d[i] == prev[i];
    assert Keys(d)[i] == k;
    LookupAt(prev, i);
    LookupAt(d, i);
  }

  /** The option-value loop: `asset_class_mappings[int(row["Asset_Number"])] = ...`. */
  method CollectOptionValues(csv: Csv) returns (mappings: seq<Entry<int, Cell>>)
    requires NumberedRows(csv)
    ensures mappings == OptionValues(csv)
  {
    ghost var ps := OptionRows(csv);
    mappings := [];
    for idx := 0 to |csv.rows|
      invariant mappings == AssignAll(ps[..idx])
    {
      assert ps[..idx + 1][..idx] == ps[..idx];
      var assetNum := Trunc(Get(csv, idx, AssetNumber).value);
      var optionValue := Get(csv, idx, OptionValueColumn);
      mappings := Assign(mappings, assetNum, optionValue);
    }
    assert ps[..|csv.rows|] == ps;
  }

  /** Row `r` is the last row with asset number `k`. */
  predicate LastWithNumber(csv: Csv, k: int, r: int)
    requires NumberedRows(csv)
  {
    0 <= r < |csv.rows| && AssetNum(csv, r) == k && forall j :: r < j < |csv.rows| ==> AssetNum(csv, j) != k
  }

  /**
   * The option-value mapping has a key for each asset number that occurs and no other,
   * and when a number occurs on several rows the last of them gives the option value.
   */
  lemma OptionValuesSpec(csv: Csv, k: int)
    requires NumberedRows(csv)
    ensures k in Keys(OptionValues(csv)) <==> exists r :: 0 <= r < |csv.rows| && AssetNum(csv, r) == k
    ensures k in Keys(OptionValues(csv)) ==>
      exists r :: LastWithNumber(csv, k, r) && Lookup(OptionValues(csv), k) == Get(csv, r, OptionValueColumn)
  {
    var ps := OptionRows(csv);
    AssignAllKeys(ps, k);
    if k in Keys(OptionValues(csv)) {
      AssignAllLast(ps, k);
      var r :| LastWithKey(ps, k, r) && Lookup(AssignAll(ps), k) == ps[r].1;
      assert forall j :: r < j < |csv.rows| ==> AssetNum(csv, j) == ps[j].0;
      assert LastWithNumber(csv, k, r);
    }
    if exists r :: 0 <= r < |csv.rows| && AssetNum(csv, r) == k {
      var r :| 0 <= r < |csv.rows| && AssetNum(csv, r) == k;
      assert ps[r].0 == k;
    }
  }

  /** The asset-class mapping, by the CSV's format: from an option-value column keyed
      by asset number, or from the descriptions keyed by row number. */
  datatype AssetClasses =
    | ByOptionValue(byNumber: seq<Entry<int, Cell>>)
    | ByDescription(byRow: seq<Entry<nat, string>>)

  /** What `main` reads from an allocation CSV before filling the form. */
  datatype FormInput = FormInput(portfolios: seq<string>, assetClasses: AssetClasses,
                                 allocations: Allocations.AllocationDict)

  /**
   * What the script demands of the CSV: the description column (shown before the
   * mapping is built), weights in the chosen columns that `float()` accepts, and
   * numeric asset numbers when the option-value column is present.
   */
  predicate LoadableCsv(csv: Csv, parse: Allocations.FloatParse)
  {
    Allocations.FormReadable(csv, FormColumns(csv.columns), parse) && AssetDescription in csv.columns
    && (OptionValueColumn in csv.columns ==> NumberedRows(csv))
  }

  /** Reading an allocation CSV: the portfolio columns, the asset classes by whichever
      format the CSV has, and the allocation dictionary. */
  method LoadAllocations(csv: Csv, parse: Allocations.FloatParse) returns (input: FormInput)
    requires LoadableCsv(csv, parse)
    ensures input.portfolios == FormColumns(csv.columns)
    ensures OptionValueColumn in csv.columns ==> input.assetClasses == ByOptionValue(OptionValues(csv))
    ensures OptionValueColumn !in csv.columns ==>
      input.assetClasses == ByDescription(Allocations.DescribedAssets(csv, DescriptionToOption, |csv.rows|))
    ensures input.allocations == Allocations.Allocations(csv, FormColumns(csv.columns), parse)
  {
    var portfolioCols := Filter(csv.columns, IsFormPortfolioColumn);
    if |portfolioCols| > 3 {
      portfolioCols := portfolioCols[..3];
    }
    var assetClassMappings: AssetClasses;
    if OptionValueColumn in csv.columns {
      var byNumber := CollectOptionValues(csv);
      assetClassMappings := ByOptionValue(byNumber);
    } else {
      var byRow := Allocations.CollectDescribedAssets(csv, DescriptionToOption);
      assetClassMappings := ByDescription(byRow);
    }
    var portfolioAllocations := Allocations.CollectAllocations(csv, portfolioCols, parse);
    input := FormInput(portfolioCols, assetClassMappings, portfolioAllocations);
  }

  // ---------------------------------------------------------------------------
  // Weight validation
  // ---------------------------------------------------------------------------

  /** The sum of the allocations with portfolio number `p`. */
  function PortfolioTotal(allocs: Allocations.AllocationDict, p: nat): real
  {
    if allocs == [] then 0.0
    else
      var last := allocs[|allocs| - 1];
      PortfolioTotal(allocs[..|allocs| - 1], p) + (if last.key.portfolio == p then last.val else 0.0)
  }

  /** Totals add up over concatenation. */
  lemma {:induction false} PortfolioTotalAppend(a: Allocations.AllocationDict, b: Allocations.AllocationDict, p: nat)
    ensures PortfolioTotal(a + b, p) == PortfolioTotal(a, p) + PortfolioTotal(b, p)
    decreases |b|
  {
    if b != [] {
      var ab := a + b;
      assert ab[..|ab| - 1] == a + b[..|b| - 1];
      assert ab[|ab| - 1] == b[|b| - 1];
      PortfolioTotalAppend(a, b[..|b| - 1], p);
    } else {
      assert a + b == a;
    }
  }

  /** The validation record of one portfolio. */
  datatype Validation = Validation(total: real, valid: bool)

  /** A total passes when it is within 0.01 of 100. */
  predicate CloseTo100(total: real)
  {
    -0.01 < total - 100.0 < 0.01
  }

  /** The validation loops: totals for portfolios 1 to 3 only, then one record each. */
  method ValidatePortfolioWeights(allocationsDict: Allocations.AllocationDict)
    returns (validationResults: seq<Entry<nat, Validation>>)
    ensures |validationResults| == 3
    ensures forall i :: 0 <= i < 3 ==>
      validationResults[i].key == i + 1
      && validationResults[i].val.total == PortfolioTotal(allocationsDict, i + 1)
      && (validationResults[i].val.valid <==> CloseTo100(PortfolioTotal(allocationsDict, i + 1)))
  {
    var portfolioTotals: seq<Entry<nat, real>> := [Entry(1, 0.0), Entry(2, 0.0), Entry(3, 0.0)];
    for k := 0 to |allocationsDict|
      invariant |portfolioTotals| == 3
      invariant forall i :: 0 <= i < 3 ==> portfolioTotals[i] == Entry(i + 1, PortfolioTotal(allocationsDict[..k], i + 1))
    {
      assert allocationsDict[..k + 1][..k] == allocationsDict[..k];
      var portfolioNum := allocationsDict[k].key.portfolio;
      var allocation := allocationsDict[k].val;
      if portfolioNum in Keys(portfolioTotals) {
        assert Keys(portfolioTotals)[portfolioNum - 1] == portfolioNum;
        LookupAt(portfolioTotals, portfolioNum - 1);
        portfolioTotals := Assign(portfolioTotals, portfolioNum, Lookup(portfolioTotals, portfolioNum) + allocation);
      }
    }
    assert allocationsDict[..|allocationsDict|] == allocationsDict;
    validationResults := [];
    for i := 0 to 3
      invariant |validationResults| == i
      invariant forall j :: 0 <= j < i ==>
        validationResults[j] == Entry(j + 1, Validation(portfolioTotals[j].val, CloseTo100(portfolioTotals[j].val)))
    {
      var total := portfolioTotals[i].val;
      var isValid := -0.01 < total - 100.0 < 0.01;
      validationResults := validationResults + [Entry(portfolioTotals[i].key, Validation(total, isValid))];
    }
  }

  /** A positive weight of row `r` in column `col`, or nothing. */
  function WeightOrZero(csv: Csv, r: nat, col: string, parse: Allocations.FloatParse): real
    requires csv.WellFormed() && r < |csv.rows| && Allocations.FloatColumn(csv, col, parse)
  {
    match Allocations.FormWeight(csv, r, col, parse)
    case Some(w) => w
    case None => 0.0
  }

  /** The sum of the positive weights of column `col` over the first `n` rows. */
  function ColumnTotal(csv: Csv, col: string, parse: Allocations.FloatParse, n: nat): real
    requires csv.WellFormed() && n <= |csv.rows| && (n > 0 ==> Allocations.FloatColumn(csv, col, parse))
  {
    if n == 0 then 0.0 else ColumnTotal(csv, col, parse, n - 1) + WeightOrZero(csv, n - 1, col, parse)
  }

  /** One row contributes its positive weight in column `p` to portfolio `p`. */
  lemma {:induction false} RowTotal(csv: Csv, cols: seq<string>, parse: Allocations.FloatParse, r: nat, n: nat, p: nat)
    requires Allocations.FormReadable(csv, cols, parse) && r < |csv.rows| && n <= |cols| && 1 <= p <= |cols|
    ensures PortfolioTotal(Allocations.RowAllocations(csv, cols, parse, r, n), p) == if p <= n then WeightOrZero(csv, r, cols[p - 1], parse) else 0.0
  {
    if n > 0 {
      RowTotal(csv, cols, parse, r, n - 1, p);
      var prev := Allocations.RowAllocations(csv, cols, parse, r, n - 1);
      var last := match Allocations.FormWeight(csv, r, cols[n - 1], parse)
        case Some(w) => [Entry(Allocations.Slot(r + 1, n), w)]
        case None => [];
      assert Allocations.RowAllocations(csv, cols, parse, r, n) == prev + last;
      PortfolioTotalAppend(prev, last, p);
      CellTotal(csv, cols, parse, r, n, p, last);
    }
  }

  /** The entry of row `r` for column `n` counts towards portfolio `n` only. */
  lemma CellTotal(csv: Csv, cols: seq<string>, parse: Allocations.FloatParse, r: nat, n: nat, p: nat, last: Allocations.AllocationDict)
    requires Allocations.FormReadable(csv, cols, parse) && r < |csv.rows| && 1 <= n <= |cols|
    requires last == match Allocations.FormWeight(csv, r, cols[n - 1], parse)
        case Some(w) => [Entry(Allocations.Slot(r + 1, n), w)]
        case None => []
    ensures PortfolioTotal(last, p) == if p == n then WeightOrZero(csv, r, cols[n - 1], parse) else 0.0
  {
    if last != [] {
      assert last[..0] == [];
    }
  }

  /**
   * The total the validation computes for portfolio `p` of a loaded CSV is the sum of
   * the positive weights in the `p`-th chosen column.
   */
  lemma {:induction false} AllocationsTotal(csv: Csv, cols: seq<string>, parse: Allocations.FloatParse, k: nat, p: nat)
    requires Allocations.FormReadable(csv, cols, parse) && k <= |csv.rows| && 1 <= p <= |cols|
    ensures PortfolioTotal(Flatten(Allocations.AllocationParts(csv, cols, parse)[..k]), p) == ColumnTotal(csv, cols[p - 1], parse, k)
  {
    var parts := Allocations.AllocationParts(csv, cols, parse);
    if k > 0 {
      AllocationsTotal(csv, cols, parse, k - 1, p);
      FlattenSnoc(parts, k - 1);
      PortfolioTotalAppend(Flatten(parts[..k - 1]), parts[k - 1], p);
      RowTotal(csv, cols, parse, k - 1, |cols|, p);
    } else {
      assert parts[..0] == [];
    }
  }

  /** Validating the allocations of a loaded CSV judges each chosen column by the sum of
      its positive weights. */
  lemma ValidationOfCsv(csv: Csv, cols: seq<string>, parse: Allocations.FloatParse, p: nat)
    requires Allocations.FormReadable(csv, cols, parse) && 1 <= p <= |cols|
    ensures PortfolioTotal(Allocations.Allocations(csv, cols, parse), p) == ColumnTotal(csv, cols[p - 1], parse, |csv.rows|)
  {
    AllocationsTotal(csv, cols, parse, |csv.rows|, p);
    assert Allocations.AllocationParts(csv, cols, parse)[..|csv.rows|] == Allocations.AllocationParts(csv, cols, parse);
  }

  // ---------------------------------------------------------------------------
  // The results workbook's name
  // ---------------------------------------------------------------------------

  /** The output name with ".xlsx" added when it does not already end so. */
  function WithXlsx(outputName: string): (withExt: string)
    ensures EndsWith(withExt, ".xlsx")
    ensures EndsWith(outputName, ".xlsx") ==> withExt == outputName
    ensures !EndsWith(outputName, ".xlsx") ==> withExt == outputName + ".xlsx"
  {
    if EndsWith(outputName, ".xlsx") then outputName
    else
      var withExt := outputName + ".xlsx";
      assert withExt[|withExt| - 5..] == ".xlsx";
      withExt
  }

  /**
   * The name a downloaded workbook is renamed to: with an output name, ".xlsx" is
   * added when missing and the timestamp goes before the extension; without one, a
   * timestamped default. `timestamp` is the clock reading, formatted.
   */
  function DownloadName(outputName: Option<string>, timestamp: string): string
  {
    if outputName.Some? && outputName.value != [] then
      Splitext(WithXlsx(outputName.value)).0 + "_" + timestamp + ".xlsx"
    else "backtest_results_" + timestamp + ".xlsx"
  }

  /** Whatever the output name, the workbook name ends with the timestamp and ".xlsx". */
  lemma DownloadNameSuffix(outputName: Option<string>, timestamp: string)
    ensures EndsWith(DownloadName(outputName, timestamp), "_" + timestamp + ".xlsx")
  {
    var name := DownloadName(outputName, timestamp);
    var suffix := "_" + timestamp + ".xlsx";
    var front := if outputName.Some? && outputName.value != [] then Splitext(WithXlsx(outputName.value)).0 else "backtest_results";
    assert name == front + suffix;
    assert name[|name| - |suffix|..] == suffix;
  }

  /**
   * For an output name with a real stem (a character other than '.' after its last
   * '/'), the ".xlsx" extension may be given or left off: either way the workbook is
   * `<stem>_<timestamp>.xlsx`.
   */
  lemma DownloadNameOfStem(stem: string, timestamp: string)
    requires HasNonDot(stem, RFind(stem, '/') + 1, |stem|)
    requires !EndsWith(stem, ".xlsx")
    ensures DownloadName(Some(stem), timestamp) == stem + "_" + timestamp + ".xlsx"
    ensures DownloadName(Some(stem + ".xlsx"), timestamp) == stem + "_" + timestamp + ".xlsx"
  {
    XlsxSplits(stem);
    WithXlsxOfStem(stem);
    NamedAfterStem(stem, stem, timestamp);
    NamedAfterStem(stem + ".xlsx", stem, timestamp);
  }

  /** An output name whose ".xlsx" form splits into `stem` gives `<stem>_<timestamp>.xlsx`. */
  lemma NamedAfterStem(outputName: string, stem: string, timestamp: string)
    requires outputName != [] && Splitext(WithXlsx(outputName)) == (stem, ".xlsx")
    ensures DownloadName(Some(outputName), timestamp) == stem + "_" + timestamp + ".xlsx"
  {
  }

  /** Adding ".xlsx" to a stem, or leaving `stem.xlsx` as it is, give the same name. */
  lemma WithXlsxOfStem(stem: string)
    requires !EndsWith(stem, ".xlsx")
    ensures WithXlsx(stem) == stem + ".xlsx"
    ensures WithXlsx(stem + ".xlsx") == stem + ".xlsx"
  {
  }

  /** `stem + ".xlsx"` splits back into the stem and ".xlsx". */
  lemma XlsxSplits(stem: string)
    requires HasNonDot(stem, RFind(stem, '/') + 1, |stem|)
    ensures Splitext(stem + ".xlsx") == (stem, ".xlsx")
    ensures stem != []
  {
    XlsxExtension();
    SplitextOfStem(stem, ".xlsx");
  }

  /** The workbook extension is one dot followed by letters. */
  lemma XlsxExtension()
    ensures |".xlsx"| >= 1 && ".xlsx"[0] == '.'
    ensures forall i :: 1 <= i < |".xlsx"| ==> ".xlsx"[i] != '.' && ".xlsx"[i] != '/'
  {
    var ext := ".xlsx";
    forall i | 1 <= i < |ext|
      ensures ext[i] != '.' && ext[i] != '/'
    {
      assert ext[i] in "xls";
    }
  }
}
