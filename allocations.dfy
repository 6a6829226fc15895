/**
 * What the browser automation reads from an allocation CSV before filling the
 * backtest form: the allocation dictionary keyed by (asset row, portfolio slot), and
 * the asset class chosen for each row from its description.
 */
module Allocations {
  import opened Util
  import opened Sheet
  import opened Records

  // ---------------------------------------------------------------------------
  // The allocation dictionary
  // ---------------------------------------------------------------------------

  /** `float()` of a text cell: the number the text spells, or nothing where `float()`
      raises. Which texts parse is outside the model. */
  type FloatParse = string -> Option<real>

  /** `float()` of a cell that `pd.notna` admits: a number is itself, text goes through
      `parse`. */
  function FloatValue(c: Cell, parse: FloatParse): (f: Option<real>)
    ensures c.Num? ==> f == Some(c.value)
    ensures c.Str? ==> f == parse(c.s)
    ensures c.Empty? ==> f.None?
  {
    match c
    case Empty => None
    case Num(v, _) => Some(v)
    case Str(s) => parse(s)
  }

  /** `float(row[col])` does not raise on any row: a column the CSV has holds no text
      that `float()` rejects. A column the CSV lacks fails `col_name in row` and is never
      read. */
  predicate FloatColumn(csv: Csv, col: string, parse: FloatParse)
    requires csv.WellFormed()
  {
    col in csv.columns ==>
      forall r :: 0 <= r < |csv.rows| && Get(csv, r, col).Str? ==> parse(Get(csv, r, col).s).Some?
  }

  /** Every chosen portfolio column can be read by the allocation loop. */
  predicate FormReadable(csv: Csv, cols: seq<string>, parse: FloatParse)
  {
    csv.WellFormed() && forall k :: 0 <= k < |cols| ==> FloatColumn(csv, cols[k], parse)
  }

  /** `col_name in row and pd.notna(row[col_name])`, then `float(row[col_name]) > 0`,
      giving the weight. */
  function FormWeight(csv: Csv, r: nat, col: string, parse: FloatParse): (w: Option<real>)
    requires csv.WellFormed() && r < |csv.rows| && FloatColumn(csv, col, parse)
    ensures w.Some? ==> w.value > 0.0
    ensures w.Some? <==>
      (col in csv.columns && !Get(csv, r, col).Empty? && FloatValue(Get(csv, r, col), parse).value > 0.0)
    ensures w.Some? ==> w == FloatValue(Get(csv, r, col), parse)
  {
    if col !in csv.columns || Get(csv, r, col).Empty? then None
    else
      var allocation := FloatValue(Get(csv, r, col), parse).value;
      if allocation > 0.0 then Some(allocation) else None
  }

  /** On a column without text, the form loaders read the same weights as the
      metadata generators. */
  lemma FormWeightOfNumbers(csv: Csv, r: nat, col: string, parse: FloatParse)
    requires csv.WellFormed() && r < |csv.rows| && WeightColumn(csv, col)
    ensures FloatColumn(csv, col, parse)
    ensures FormWeight(csv, r, col, parse) == PositiveWeight(csv, r, col)
  {
  }

  /** A text weight that `float()` reads as a positive number is a form weight. */
  lemma TextWeightLoads(csv: Csv, r: nat, col: string, parse: FloatParse, text: string, v: real)
    requires csv.WellFormed() && r < |csv.rows| && col in csv.columns
    requires Get(csv, r, col) == Str(text) && parse(text) == Some(v) && v > 0.0
    requires FloatColumn(csv, col, parse)
    ensures FormWeight(csv, r, col, parse) == Some(v)
  {
  }

  /** A form field: asset row (from 1) and portfolio slot (from 1). */
  datatype Slot = Slot(asset: nat, portfolio: nat)

  /** `portfolio_allocations`, in insertion order. */
  type AllocationDict = seq<Entry<Slot, real>>

  /** The entries of CSV row `r` for the first `n` portfolio columns. */
  function RowAllocations(csv: Csv, cols: seq<string>, parse: FloatParse, r: nat, n: nat): AllocationDict
    requires FormReadable(csv, cols, parse) && r < |csv.rows| && n <= |cols|
  {
    if n == 0 then []
    else
      var last := match FormWeight(csv, r, cols[n - 1], parse)
        case Some(w) => [Entry(Slot(r + 1, n), w)]
        case None => [];
      RowAllocations(csv, cols, parse, r, n - 1) + last
  }

  function AllocationParts(csv: Csv, cols: seq<string>, parse: FloatParse): (parts: seq<AllocationDict>)
    requires FormReadable(csv, cols, parse)
    ensures |parts| == |csv.rows|
    ensures forall r :: 0 <= r < |parts| ==> parts[r] == RowAllocations(csv, cols, parse, r, |cols|)
  {
    seq(|csv.rows|, r requires 0 <= r < |csv.rows| && FormReadable(csv, cols, parse) => RowAllocations(csv, cols, parse, r, |cols|))
  }

  /** The allocation dictionary of a CSV for the chosen portfolio columns. */
  function Allocations(csv: Csv, cols: seq<string>, parse: FloatParse): AllocationDict
    requires FormReadable(csv, cols, parse)
  {
    Flatten(AllocationParts(csv, cols, parse))
  }

  /** Entry `e` is the positive weight of its row and slot. */
  predicate Allocated(csv: Csv, cols: seq<string>, parse: FloatParse, e: Entry<Slot, real>)
    requires FormReadable(csv, cols, parse)
  {
    1 <= e.key.asset <= |csv.rows| && 1 <= e.key.portfolio <= |cols|
    && FormWeight(csv, e.key.asset - 1, cols[e.key.portfolio - 1], parse) == Some(e.val)
  }

  predicate SlotLess(a: Slot, b: Slot)
  {
    a.asset < b.asset || (a.asset == b.asset && a.portfolio < b.portfolio)
  }

  predicate AscendingSlots(d: AllocationDict)
  {
    forall i, j :: 0 <= i < j < |d| ==> SlotLess(d[i].key, d[j].key)
  }

  /** A row's entries: exactly its positive weights, in slot order. */
  lemma RowAllocationsSpec(csv: Csv, cols: seq<string>, parse: FloatParse, r: nat, n: nat)
    requires FormReadable(csv, cols, parse) && r < |csv.rows| && n <= |cols|
    ensures forall e :: e in RowAllocations(csv, cols, parse, r, n) <==>
      e.key.asset == r + 1 && e.key.portfolio <= n && Allocated(csv, cols, parse, e)
    ensures AscendingSlots(RowAllocations(csv, cols, parse, r, n))
  {
    forall e
      ensures e in RowAllocations(csv, cols, parse, r, n) <==>
        e.key.asset == r + 1 && e.key.portfolio <= n && Allocated(csv, cols, parse, e)
    {
      RowAllocationsExact(csv, cols, parse, r, n, e);
    }
    RowAllocationsAscending(csv, cols, parse, r, n);
  }

  lemma RowAllocationsExact(csv: Csv, cols: seq<string>, parse: FloatParse, r: nat, n: nat, e: Entry<Slot, real>)
    requires FormReadable(csv, cols, parse) && r < |csv.rows| && n <= |cols|
    ensures e in RowAllocations(csv, cols, parse, r, n) <==>
      e.key.asset == r + 1 && e.key.portfolio <= n && Allocated(csv, cols, parse, e)
  {
    if e in RowAllocations(csv, cols, parse, r, n) {
      RowAllocationsSound(csv, cols, parse, r, n, e);
    }
    if e.key.asset == r + 1 && e.key.portfolio <= n && Allocated(csv, cols, parse, e) {
      RowAllocationsComplete(csv, cols, parse, r, n, e);
    }
  }

  lemma {:induction false} RowAllocationsSound(csv: Csv, cols: seq<string>, parse: FloatParse, r: nat, n: nat, e: Entry<Slot, real>)
    requires FormReadable(csv, cols, parse) && r < |csv.rows| && n <= |cols|
    requires e in RowAllocations(csv, cols, parse, r, n)
    ensures e.key.asset == r + 1 && 1 <= e.key.portfolio <= n
    ensures FormWeight(csv, r, cols[e.key.portfolio - 1], parse) == Some(e.val)
  {
    var prev := RowAllocations(csv, cols, parse, r, n - 1);
    if e in prev {
      RowAllocationsSound(csv, cols, parse, r, n - 1, e);
    } else {
      assert e == Entry(Slot(r + 1, n), FormWeight(csv, r, cols[n - 1], parse).value);
    }
  }

  lemma {:induction false} RowAllocationsComplete(csv: Csv, cols: seq<string>, parse: FloatParse, r: nat, n: nat, e: Entry<Slot, real>)
    requires FormReadable(csv, cols, parse) && r < |csv.rows| && n <= |cols|
    requires e.key.asset == r + 1 && 1 <= e.key.portfolio <= n
    requires FormWeight(csv, r, cols[e.key.portfolio - 1], parse) == Some(e.val)
    ensures e in RowAllocations(csv, cols, parse, r, n)
  {
    if e.key.portfolio < n {
      RowAllocationsComplete(csv, cols, parse, r, n - 1, e);
    }
  }

  lemma {:induction false} RowAllocationsAscending(csv: Csv, cols: seq<string>, parse: FloatParse, r: nat, n: nat)
    requires FormReadable(csv, cols, parse) && r < |csv.rows| && n <= |cols|
    ensures forall i :: 0 <= i < |RowAllocations(csv, cols, parse, r, n)| ==>
      RowAllocations(csv, cols, parse, r, n)[i].key.asset == r + 1 && RowAllocations(csv, cols, parse, r, n)[i].key.portfolio <= n
    ensures AscendingSlots(RowAllocations(csv, cols, parse, r, n))
  {
    if n > 0 {
      RowAllocationsAscending(csv, cols, parse, r, n - 1);
    }
  }

  /** The dictionary after the first `k` rows holds their positive weights. */
  lemma {:induction false} AllocationsPrefixExact(csv: Csv, cols: seq<string>, parse: FloatParse, k: nat, e: Entry<Slot, real>)
    requires FormReadable(csv, cols, parse) && k <= |csv.rows|
    ensures e in Flatten(AllocationParts(csv, cols, parse)[..k]) <==> e.key.asset <= k && Allocated(csv, cols, parse, e)
  {
    var parts := AllocationParts(csv, cols, parse);
    if k > 0 {
      AllocationsPrefixExact(csv, cols, parse, k - 1, e);
      FlattenSnoc(parts, k - 1);
      RowAllocationsExact(csv, cols, parse, k - 1, |cols|, e);
    } else {
      assert parts[..0] == [];
    }
  }

  /** ... in row-major slot order. */
  lemma {:induction false} AllocationsPrefixAscending(csv: Csv, cols: seq<string>, parse: FloatParse, k: nat)
    requires FormReadable(csv, cols, parse) && k <= |csv.rows|
    ensures AscendingSlots(Flatten(AllocationParts(csv, cols, parse)[..k]))
    ensures forall i :: 0 <= i < |Flatten(AllocationParts(csv, cols, parse)[..k])| ==>
      Flatten(AllocationParts(csv, cols, parse)[..k])[i].key.asset <= k
  {
    var parts := AllocationParts(csv, cols, parse);
    if k > 0 {
      AllocationsPrefixAscending(csv, cols, parse, k - 1);
      FlattenSnoc(parts, k - 1);
      RowAllocationsAscending(csv, cols, parse, k - 1, |cols|);
      AscendingConcat(Flatten(parts[..k - 1]), parts[k - 1], k);
    } else {
      assert parts[..0] == [];
    }
  }

  /** Rows below `k` followed by entries of row `k` stay in row-major order. */
  lemma AscendingConcat(prev: AllocationDict, row: AllocationDict, k: nat)
    requires AscendingSlots(prev) && AscendingSlots(row)
    requires forall i :: 0 <= i < |prev| ==> prev[i].key.asset <= k - 1
    requires forall j :: 0 <= j < |row| ==> row[j].key.asset == k
    ensures AscendingSlots(prev + row)
    ensures forall i :: 0 <= i < |prev + row| ==> (prev + row)[i].key.asset <= k
  {
    var d := prev + row;
    forall i, j | 0 <= i < j < |d|
      ensures SlotLess(d[i].key, d[j].key)
    {
      if j < |prev| {
        assert d[i] == prev[i] && d[j] == prev[j];
      } else if i >= |prev| {
        assert d[i] == row[i - |prev|] && d[j] == row[j - |prev|];
      } else {
        assert d[i] == prev[i] && d[j] == row[j - |prev|];
      }
    }
  }

  /**
   * The dictionary holds exactly one entry per positive weight, keyed by the row
   * (from 1) and the portfolio slot (from 1), in row-major order; in particular no key
   * is assigned twice.
   */
  lemma AllocationsSpec(csv: Csv, cols: seq<string>, parse: FloatParse)
    requires FormReadable(csv, cols, parse)
    ensures forall e :: e in Allocations(csv, cols, parse) <==> Allocated(csv, cols, parse, e)
    ensures AscendingSlots(Allocations(csv, cols, parse))
    ensures UniqueKeys(Allocations(csv, cols, parse))
  {
    AllocationsPrefixAscending(csv, cols, parse, |csv.rows|);
    assert AllocationParts(csv, cols, parse)[..|csv.rows|] == AllocationParts(csv, cols, parse);
    forall e
      ensures e in Allocations(csv, cols, parse) <==> Allocated(csv, cols, parse, e)
    {
      AllocationsPrefixExact(csv, cols, parse, |csv.rows|, e);
    }
  }

  /** The allocation loop: every row, every chosen column, positive weights only. */
  method CollectAllocations(csv: Csv, cols: seq<string>, parse: FloatParse) returns (portfolioAllocations: AllocationDict)
    requires FormReadable(csv, cols, parse)
    ensures portfolioAllocations == Allocations(csv, cols, parse)
  {
    ghost var parts := AllocationParts(csv, cols, parse);
    portfolioAllocations := [];
    for idx := 0 to |csv.rows|
      invariant portfolioAllocations == Flatten(parts[..idx])
    {
      FlattenSnoc(parts, idx);
      var rowAllocations := CollectRowAllocations(csv, cols, parse, idx);
      portfolioAllocations := portfolioAllocations + rowAllocations;
    }
    assert parts[..|csv.rows|] == parts;
  }

  /** The inner loop over the portfolio columns of one row. */
  method CollectRowAllocations(csv: Csv, cols: seq<string>, parse: FloatParse, idx: nat) returns (rowAllocations: AllocationDict)
    requires FormReadable(csv, cols, parse) && idx < |csv.rows|
    ensures rowAllocations == RowAllocations(csv, cols, parse, idx, |cols|)
  {
    var assetNum := idx + 1;
    rowAllocations := [];
    for portfolioIdx := 1 to |cols| + 1
      invariant rowAllocations == RowAllocations(csv, cols, parse, idx, portfolioIdx - 1)
    {
      var colName := cols[portfolioIdx - 1];
      if colName in csv.columns && !Get(csv, idx, colName).Empty? {
        var allocation := FloatValue(Get(csv, idx, colName), parse).value;
        if allocation > 0.0 {
          rowAllocations := rowAllocations + [Entry(Slot(assetNum, portfolioIdx), allocation)];
        }
      }
    }
  }

  // ---------------------------------------------------------------------------
  // Asset classes from descriptions
  // ---------------------------------------------------------------------------

  /** The asset class of row `r` when its description is in `table`. */
  function DescribedClass(csv: Csv, table: map<string, string>, r: nat): (c: Option<string>)
    requires csv.WellFormed() && AssetDescription in csv.columns && r < |csv.rows|
    ensures c.Some? <==> Get(csv, r, AssetDescription).Str? && Get(csv, r, AssetDescription).s in table
    ensures c.Some? ==> c.value == table[Get(csv, r, AssetDescription).s]
  {
    match Get(csv, r, AssetDescription)
    case Str(s) => if s in table then Some(table[s]) else None
    case _ => None
  }

  /** `asset_class_mappings` after the first `n` rows, keyed by row number from 1. */
  function DescribedAssets(csv: Csv, table: map<string, string>, n: nat): seq<Entry<nat, string>>
    requires csv.WellFormed() && AssetDescription in csv.columns && n <= |csv.rows|
  {
    if n == 0 then []
    else
      var last := match DescribedClass(csv, table, n - 1)
        case Some(c) => [Entry(n, c)]
        case None => [];
      DescribedAssets(csv, table, n - 1) + last
  }

  /**
   * The mapping holds one entry per row whose description the table knows, keyed by
   * the row number from 1 and giving the table's class; rows with an unknown or missing
   * description are skipped. Keys are ascending, so none is assigned twice.
   */
  lemma {:induction false} DescribedAssetsSpec(csv: Csv, table: map<string, string>, n: nat)
    requires csv.WellFormed() && AssetDescription in csv.columns && n <= |csv.rows|
    ensures forall e :: e in DescribedAssets(csv, table, n) <==>
      1 <= e.key <= n && DescribedClass(csv, table, e.key - 1) == Some(e.val)
    ensures forall i, j :: 0 <= i < j < |DescribedAssets(csv, table, n)| ==>
      DescribedAssets(csv, table, n)[i].key < DescribedAssets(csv, table, n)[j].key
    ensures UniqueKeys(DescribedAssets(csv, table, n))
  {
    if n > 0 {
      DescribedAssetsSpec(csv, table, n - 1);
      var prev := DescribedAssets(csv, table, n - 1);
      assert forall i :: 0 <= i < |prev| ==> prev[i] in prev;
    }
  }

  /** The description loop: a row gets a class only when its description is known. */
  method CollectDescribedAssets(csv: Csv, table: map<string, string>) returns (mappings: seq<Entry<nat, string>>)
    requires csv.WellFormed() && AssetDescription in csv.columns
    ensures mappings == DescribedAssets(csv, table, |csv.rows|)
  {
    mappings := [];
    for idx := 0 to |csv.rows|
      invariant mappings == DescribedAssets(csv, table, idx)
    {
      var assetNum := idx + 1;
      var assetDesc := Get(csv, idx, AssetDescription);
      if assetDesc.Str? && assetDesc.s in table {
        mappings := mappings + [Entry(assetNum, table[assetDesc.s])];
      }
    }
  }
}
