/**
 * The treasury term-structure grid: every way of splitting the 25-point treasury
 * sleeve of the base allocation into short, intermediate, ten-year and long
 * treasuries in 5-point steps, one portfolio per split, and the asset table that
 * lists each portfolio's weights by asset.
 */
module TreasuryGrid {
  import opened Util

  // ---------------------------------------------------------------------------
  // generate_treasury_splits
  // ---------------------------------------------------------------------------

  /** The weights given to the four treasury maturities, in percent. */
  datatype Split = Split(short: int, intermediate: int, tenYear: int, long: int)

  const TotalTreasury: int := 25
  const Increments: seq<int> := [0, 5, 10, 15, 20, 25]

  function Components(s: Split): seq<int>
  {
    [s.short, s.intermediate, s.tenYear, s.long]
  }

  function Max4(a: int, b: int, c: int, d: int): (m: int)
    ensures m == a || m == b || m == c || m == d
    ensures a <= m && b <= m && c <= m && d <= m
  {
    var ab := if a < b then b else a;
    var cd := if c < d then d else c;
    if ab < cd then cd else ab
  }

  /** The two tests the innermost loop applies to a candidate. */
  predicate Accepted(s: Split)
  {
    s.short + s.intermediate + s.tenYear + s.long == TotalTreasury
    && Max4(s.short, s.intermediate, s.tenYear, s.long) > 0
  }

  /** The candidates accepted when the last weight is `d`: none or one. */
  function Emit(a: int, b: int, c: int, d: int): seq<Split>
  {
    if Accepted(Split(a, b, c, d)) then [Split(a, b, c, d)] else []
  }

  /**
   * The splits the loops emit for a fixed choice `prefix` of the outer weights, while
   * the next loop has run over its first `n` increments.
   */
  function Expand(prefix: seq<int>, n: nat): seq<Split>
    requires |prefix| < 4 && n <= |Increments|
    decreases 4 - |prefix|, n
  {
    if n == 0 then [] else Expand(prefix, n - 1) + Choose(prefix + [Increments[n - 1]])
  }

  /** All splits emitted once the outer weights `p` are chosen. */
  function Choose(p: seq<int>): seq<Split>
    requires 1 <= |p| <= 4
    decreases 4 - |p|, |Increments| + 1
  {
    if |p| == 4 then Emit(p[0], p[1], p[2], p[3]) else Expand(p, |Increments|)
  }

  /** Every split of the four nested loops, in loop order. */
  function Splits(): seq<Split>
  {
    Expand([], |Increments|)
  }

  lemma IncrementsValues()
    ensures forall k :: 0 <= k < |Increments| ==> Increments[k] == 5 * k
  {
  }

  predicate OnGrid(xs: seq<int>)
  {
    forall i :: 0 <= i < |xs| ==> xs[i] in Increments
  }

  /** A split the grid is meant to hold: every weight a 5-point step, total 25, one positive. */
  predicate ValidSplit(s: Split)
  {
    OnGrid(Components(s)) && Accepted(s)
  }

  /** What `Choose(p)` holds: the accepted on-grid splits that start with `p`. */
  lemma {:induction false} ChooseExact(p: seq<int>, s: Split)
    requires 1 <= |p| <= 4
    ensures s in Choose(p) <==> Components(s)[..|p|] == p && OnGrid(Components(s)[|p|..]) && Accepted(s)
    decreases 4 - |p|, |Increments| + 1
  {
    if |p| == 4 {
      assert Components(s)[..4] == Components(s);
      assert Components(s)[4..] == [];
    } else {
      ExpandExact(p, |Increments|, s);
      var cs := Components(s);
      if OnGrid(cs[|p|..]) {
        assert cs[|p|] == cs[|p|..][0];
        assert cs[|p|] in Increments[..|Increments|];
        assert cs[|p| + 1..] == cs[|p|..][1..];
      }
      if cs[|p|] in Increments[..|Increments|] && OnGrid(cs[|p| + 1..]) {
        forall i | 0 <= i < |cs[|p|..]|
          ensures cs[|p|..][i] in Increments
        {
          if i > 0 {
            assert cs[|p|..][i] == cs[|p| + 1..][i - 1];
          }
        }
      }
    }
  }

  /** What `Expand(prefix, n)` holds: the accepted on-grid splits that start with
      `prefix`, followed by one of the first `n` increments. */
  lemma {:induction false} ExpandExact(prefix: seq<int>, n: nat, s: Split)
    requires |prefix| < 4 && n <= |Increments|
    ensures s in Expand(prefix, n) <==>
      Components(s)[..|prefix|] == prefix && Components(s)[|prefix|] in Increments[..n]
      && OnGrid(Components(s)[|prefix| + 1..]) && Accepted(s)
    decreases 4 - |prefix|, n
  {
    if n > 0 {
      var cs := Components(s);
      var q := prefix + [Increments[n - 1]];
      ExpandExact(prefix, n - 1, s);
      ChooseExact(q, s);
      assert Increments[..n] == Increments[..n - 1] + [Increments[n - 1]];
      if cs[..|q|] == q {
        assert cs[..|prefix|] == cs[..|q|][..|prefix|];
      }
      if cs[..|prefix|] == prefix && cs[|prefix|] == Increments[n - 1] {
        assert cs[..|q|] == cs[..|prefix|] + [cs[|prefix|]];
      }
    }
  }

  /**
   * The splits are exactly the valid ones: every weight a 5-point step, total 25 and
   * one weight positive; nothing else is emitted and nothing valid is missed.
   */
  lemma SplitsExact(s: Split)
    ensures s in Splits() <==> ValidSplit(s)
  {
    ExpandExact([], |Increments|, s);
    var cs := Components(s);
    assert Increments[..|Increments|] == Increments;
    assert cs[..0] == [] && cs[0..] == cs;
    if OnGrid(cs) {
      assert cs[0] in Increments;
      forall i | 0 <= i < |cs[1..]|
        ensures cs[1..][i] in Increments
      {
        assert cs[1..][i] == cs[i + 1];
      }
    }
    if cs[0] in Increments && OnGrid(cs[1..]) {
      forall i | 0 <= i < |cs|
        ensures cs[i] in Increments
      {
        if i > 0 {
          assert cs[i] == cs[1..][i - 1];
        }
      }
    }
  }

  /** `x` comes before `y` in the order of the nested loops. */
  predicate LexLess(x: seq<int>, y: seq<int>)
  {
    exists i :: 0 <= i < |x| && i < |y| && x[..i] == y[..i] && x[i] < y[i]
  }

  predicate Ascending(ss: seq<Split>)
  {
    forall i, j :: 0 <= i < j < |ss| ==> LexLess(Components(ss[i]), Components(ss[j]))
  }

  lemma AscendingAppend(a: seq<Split>, b: seq<Split>, at: nat)
    requires Ascending(a) && Ascending(b) && at < 4
    requires forall x, y :: x in a && y in b ==>
      Components(x)[..at] == Components(y)[..at] && Components(x)[at] < Components(y)[at]
    ensures Ascending(a + b)
  {
    forall i, j | 0 <= i < j < |a + b|
      ensures LexLess(Components((a + b)[i]), Components((a + b)[j]))
    {
      if i < |a| && j >= |a| {
        assert a[i] in a && b[j - |a|] in b;
      }
    }
  }

  /** The loops visit the splits in strictly increasing lexicographic order. */
  lemma {:induction false} ChooseAscending(p: seq<int>)
    requires 1 <= |p| <= 4
    ensures Ascending(Choose(p))
    decreases 4 - |p|, |Increments| + 1
  {
    if |p| < 4 {
      ExpandAscending(p, |Increments|);
    }
  }

  lemma {:induction false} ExpandAscending(prefix: seq<int>, n: nat)
    requires |prefix| < 4 && n <= |Increments|
    ensures Ascending(Expand(prefix, n))
    decreases 4 - |prefix|, n
  {
    if n > 0 {
      var q := prefix + [Increments[n - 1]];
      ExpandAscending(prefix, n - 1);
      ChooseAscending(q);
      forall x, y | x in Expand(prefix, n - 1) && y in Choose(q)
        ensures Components(x)[..|prefix|] == Components(y)[..|prefix|]
        ensures Components(x)[|prefix|] < Components(y)[|prefix|]
      {
        ExpandExact(prefix, n - 1, x);
        ChooseExact(q, y);
        IncrementsValues();
        assert Components(y)[..|prefix|] == Components(y)[..|q|][..|prefix|];
        assert Components(y)[|prefix|] == Components(y)[..|q|][|prefix|];
        var k :| 0 <= k < n - 1 && Increments[..n - 1][k] == Components(x)[|prefix|];
      }
      AscendingAppend(Expand(prefix, n - 1), Choose(q), |prefix|);
    }
  }

  /** Each valid split appears exactly once, and in lexicographic order. */
  lemma SplitsAscending()
    ensures Ascending(Splits())
    ensures forall i, j :: 0 <= i < j < |Splits()| ==> Splits()[i] != Splits()[j]
  {
    ExpandAscending([], |Increments|);
    forall i, j | 0 <= i < j < |Splits()|
      ensures Splits()[i] != Splits()[j]
    {
      var k :| 0 <= k < 4 && Components(Splits()[i])[k] < Components(Splits()[j])[k];
    }
  }

  lemma ExpandSnoc(prefix: seq<int>, n: nat, x: int)
    requires |prefix| < 4 && n < |Increments| && x == Increments[n]
    ensures Expand(prefix, n + 1) == Expand(prefix, n) + Choose(prefix + [x])
  {
  }

  /** `generate_treasury_splits`: four nested loops over the increments; the inner two
      are `SplitsAfter`. */
  method GenerateTreasurySplits() returns (splits: seq<Split>)
    ensures splits == Splits()
  {
    splits := [];
    for a := 0 to |Increments|
      invariant splits == Expand([], a)
    {
      var short := Increments[a];
      ghost var s1 := splits;
      for b := 0 to |Increments|
        invariant splits == s1 + Expand([short], b)
      {
        var intermediate := Increments[b];
        var found := SplitsAfter(short, intermediate);
        ExpandSnoc([short], b, intermediate);
        assert [short] + [intermediate] == [short, intermediate];
        splits := splits + found;
      }
      ExpandSnoc([], a, short);
      assert [] + [short] == [short];
    }
  }

  /** The ten-year loop for fixed short and intermediate weights. */
  method SplitsAfter(short: int, intermediate: int) returns (splits: seq<Split>)
    ensures splits == Expand([short, intermediate], |Increments|)
  {
    splits := [];
    for c := 0 to |Increments|
      invariant splits == Expand([short, intermediate], c)
    {
      var tenYear := Increments[c];
      var found := LongSplits(short, intermediate, tenYear);
      ExpandSnoc([short, intermediate], c, tenYear);
      assert [short, intermediate] + [tenYear] == [short, intermediate, tenYear];
      splits := splits + found;
    }
  }

  /** The innermost loop: every long weight completing the three outer weights. */
  method LongSplits(short: int, intermediate: int, tenYear: int) returns (splits: seq<Split>)
    ensures splits == Expand([short, intermediate, tenYear], |Increments|)
  {
    splits := [];
    for d := 0 to |Increments|
      invariant splits == Expand([short, intermediate, tenYear], d)
    {
      var long := Increments[d];
      ExpandSnoc([short, intermediate, tenYear], d, long);
      assert [short, intermediate, tenYear] + [long] == [short, intermediate, tenYear, long];
      if short + intermediate + tenYear + long == TotalTreasury {
        if Max4(short, intermediate, tenYear, long) > 0 {
          splits := splits + [Split(short, intermediate, tenYear, long)];
        }
      }
    }
  }

  // ---------------------------------------------------------------------------
  // create_portfolio_grid
  // ---------------------------------------------------------------------------

  /** The grid columns, in the order of a portfolio's entries. */
  const AssetOrder: seq<string> := [
    "TotalStockMarket", "IntlDeveloped", "EmergingMarket",
    "ShortTreasury", "IntermediateTreasury", "TreasuryNotes", "LongTreasury",
    "TIPS", "CorpBond", "REIT"
  ]

  /** The base allocation: the assets outside the treasury sleeve keep these weights. */
  const BaseAllocation: map<string, real> := map[
    "TotalStockMarket" := 31.5, "IntlDeveloped" := 9.0, "EmergingMarket" := 4.5,
    "TIPS" := 20.0, "CorpBond" := 5.0, "REIT" := 5.0
  ]

  /** One row of the portfolio grid: its id and a weight for every asset. */
  datatype Portfolio = Portfolio(gridId: string, weights: map<string, real>)

  /** The id of the `idx`-th portfolio: `f"TreasuryGrid_{idx:03d}"`. */
  function GridId(idx: nat): string
  {
    "TreasuryGrid_" + Pad03(idx)
  }

  /** Different positions give different ids. */
  lemma GridIdInjective(a: nat, b: nat)
    requires GridId(a) == GridId(b)
    ensures a == b
  {
    var pre := "TreasuryGrid_";
    assert GridId(a)[|pre|..] == Pad03(a);
    assert GridId(b)[|pre|..] == Pad03(b);
    Pad03Injective(a, b);
  }

  /** The portfolio built from the `idx`-th split (counting from 1). */
  function PortfolioOf(idx: nat, s: Split): Portfolio
  {
    Portfolio(GridId(idx), map[
      "TotalStockMarket" := BaseAllocation["TotalStockMarket"],
      "IntlDeveloped" := BaseAllocation["IntlDeveloped"],
      "EmergingMarket" := BaseAllocation["EmergingMarket"],
      "ShortTreasury" := s.short as real,
      "IntermediateTreasury" := s.intermediate as real,
      "TreasuryNotes" := s.tenYear as real,
      "LongTreasury" := s.long as real,
      "TIPS" := BaseAllocation["TIPS"],
      "CorpBond" := BaseAllocation["CorpBond"],
      "REIT" := BaseAllocation["REIT"]
    ])
  }

  predicate HasAllAssets(p: Portfolio)
  {
    forall k :: 0 <= k < |AssetOrder| ==> AssetOrder[k] in p.weights
  }

  /** The sum of the weights of `assets`. */
  function WeightSum(w: map<string, real>, assets: seq<string>): real
    requires forall k :: 0 <= k < |assets| ==> assets[k] in w
  {
    if assets == [] then 0.0 else WeightSum(w, assets[..|assets| - 1]) + w[assets[|assets| - 1]]
  }

  function Total(p: Portfolio): real
    requires HasAllAssets(p)
  {
    WeightSum(p.weights, AssetOrder)
  }

  function Abs(x: real): real
  {
    if x < 0.0 then -x else x
  }

  /**
   * A portfolio keeps the base weights outside the treasury sleeve, puts the split's
   * weights on the four treasuries, and totals exactly 100 when the split totals 25;
   * so the sum check never fails on a split of the grid.
   */
  lemma PortfolioOfSpec(idx: nat, s: Split)
    ensures HasAllAssets(PortfolioOf(idx, s))
    ensures forall a :: a in BaseAllocation ==> PortfolioOf(idx, s).weights[a] == BaseAllocation[a]
    ensures PortfolioOf(idx, s).weights["ShortTreasury"] == s.short as real
      && PortfolioOf(idx, s).weights["IntermediateTreasury"] == s.intermediate as real
      && PortfolioOf(idx, s).weights["TreasuryNotes"] == s.tenYear as real
      && PortfolioOf(idx, s).weights["LongTreasury"] == s.long as real
    ensures s.short + s.intermediate + s.tenYear + s.long == TotalTreasury ==> Total(PortfolioOf(idx, s)) == 100.0
  {
    var w := PortfolioOf(idx, s).weights;
    AssetOrderSum(w);
  }

  /** The total of a portfolio is the sum of its ten weights. */
  lemma AssetOrderSum(w: map<string, real>)
    requires "TotalStockMarket" in w && "IntlDeveloped" in w && "EmergingMarket" in w
    requires "ShortTreasury" in w && "IntermediateTreasury" in w && "TreasuryNotes" in w && "LongTreasury" in w
    requires "TIPS" in w && "CorpBond" in w && "REIT" in w
    ensures WeightSum(w, AssetOrder) == w["TotalStockMarket"] + w["IntlDeveloped"] + w["EmergingMarket"]
      + w["ShortTreasury"] + w["IntermediateTreasury"] + w["TreasuryNotes"] + w["LongTreasury"]
      + w["TIPS"] + w["CorpBond"] + w["REIT"]
  {
    forall k | 0 <= k < |AssetOrder| ensures AssetOrder[k] in w {
    }
    assert AssetOrder[..0] == [];
    WeightSumSnoc(w, AssetOrder, 0);
    WeightSumSnoc(w, AssetOrder, 1);
    WeightSumSnoc(w, AssetOrder, 2);
    WeightSumSnoc(w, AssetOrder, 3);
    WeightSumSnoc(w, AssetOrder, 4);
    WeightSumSnoc(w, AssetOrder, 5);
    WeightSumSnoc(w, AssetOrder, 6);
    WeightSumSnoc(w, AssetOrder, 7);
    WeightSumSnoc(w, AssetOrder, 8);
    WeightSumSnoc(w, AssetOrder, 9);
    assert AssetOrder[..10] == AssetOrder;
  }

  lemma WeightSumSnoc(w: map<string, real>, assets: seq<string>, k: nat)
    requires k < |assets| && forall i :: 0 <= i < |assets| ==> assets[i] in w
    ensures WeightSum(w, assets[..k + 1]) == WeightSum(w, assets[..k]) + w[assets[k]]
  {
    PrefixSnoc(assets, k);
  }

  /** The grid: portfolio `i` built from split `i`, numbered from 1. */
  function Grid(splits: seq<Split>): (g: seq<Portfolio>)
    ensures |g| == |splits|
  {
    seq(|splits|, i requires 0 <= i < |splits| => PortfolioOf(i + 1, splits[i]))
  }

  /** Grid ids are `TreasuryGrid_` and the 1-based position, so no two portfolios share one. */
  lemma GridIdsDistinct(splits: seq<Split>)
    ensures forall i :: 0 <= i < |splits| ==> Grid(splits)[i].gridId == GridId(i + 1)
    ensures forall i, j :: 0 <= i < j < |splits| ==> Grid(splits)[i].gridId != Grid(splits)[j].gridId
  {
    forall i, j | 0 <= i < j < |splits| && Grid(splits)[i].gridId == Grid(splits)[j].gridId
      ensures false
    {
      GridIdInjective(i + 1, j + 1);
    }
  }

  /** `create_portfolio_grid`: one portfolio per split, each checked to total 100. */
  method CreatePortfolioGrid() returns (portfolios: seq<Portfolio>)
    ensures portfolios == Grid(Splits())
  {
    var treasurySplits := GenerateTreasurySplits();
    portfolios := [];
    for idx := 1 to |treasurySplits| + 1
      invariant portfolios == Grid(treasurySplits)[..idx - 1]
    {
      var treasurySplit := treasurySplits[idx - 1];
      var portfolio := PortfolioOf(idx, treasurySplit);
      SplitPortfolioTotal(idx, treasurySplit);
      var total := Total(portfolio);
      assert Abs(total - 100.0) < 0.01;
      GridSnoc(treasurySplits, idx - 1);
      portfolios := portfolios + [portfolio];
    }
    assert Grid(treasurySplits)[..|treasurySplits|] == Grid(treasurySplits);
  }

  /** Every generated split gives a portfolio whose weights total 100. */
  lemma SplitPortfolioTotal(idx: nat, s: Split)
    requires s in Splits()
    ensures Abs(Total(PortfolioOf(idx, s)) - 100.0) < 0.01
  {
    SplitsExact(s);
    PortfolioOfSpec(idx, s);
  }

  lemma GridSnoc(splits: seq<Split>, k: nat)
    requires k < |splits|
    ensures Grid(splits)[..k + 1] == Grid(splits)[..k] + [PortfolioOf(k + 1, splits[k])]
  {
    PrefixSnoc(Grid(splits), k);
  }

  // ---------------------------------------------------------------------------
  // create_asset_mapping_table
  // ---------------------------------------------------------------------------

  datatype AssetInfo = AssetInfo(number: nat, optionValue: string, description: string, category: string)

  /** The ten assets of the table, in row order. */
  const AssetMapping: seq<AssetInfo> := [
    AssetInfo(1, "TotalStockMarket", "US Equities - US Stock Market", "Equity"),
    AssetInfo(2, "IntlDeveloped", "Foreign Developed Equities - Intl Developed ex-US Market", "Equity"),
    AssetInfo(3, "EmergingMarket", "Emerging Market Equities - Emerging Markets", "Equity"),
    AssetInfo(4, "ShortTreasury", "US Treasuries - Short Term Treasury", "Fixed Income"),
    AssetInfo(5, "IntermediateTreasury", "US Treasuries - Intermediate Term Treasury", "Fixed Income"),
    AssetInfo(6, "TreasuryNotes", "US Treasuries - 10-year Treasury", "Fixed Income"),
    AssetInfo(7, "LongTreasury", "US Treasuries - Long Term Treasury", "Fixed Income"),
    AssetInfo(8, "TIPS", "TIPS - Inflation-Protected Bonds", "Fixed Income"),
    AssetInfo(9, "CorpBond", "Corporate Bonds - Investment Grade Corporate Bonds", "Fixed Income"),
    AssetInfo(10, "REIT", "Real Estate/REITs - US REIT", "Alternative")
  ]

  /** A table cell. */
  datatype Value = IntVal(i: int) | TextVal(s: string) | RealVal(r: real)

  /** A frame as its columns in order, each with its values by row. */
  type Table = seq<Entry<string, seq<Value>>>

  /** The frame built from the asset list. */
  function AssetFrame(): (t: Table)
    ensures UniqueKeys(t) && |t| == 4
    ensures t[0].key == "Asset_Number" && t[2].key == "Asset_Description"
    ensures forall k :: 0 <= k < |AssetMapping| ==> |t[0].val| == |AssetMapping| && t[0].val[k] == IntVal(k + 1)
  {
    [
      Entry("Asset_Number", seq(|AssetMapping|, k requires 0 <= k < |AssetMapping| => IntVal(AssetMapping[k].number))),
      Entry("Asset_Class_Option_Value", seq(|AssetMapping|, k requires 0 <= k < |AssetMapping| => TextVal(AssetMapping[k].optionValue))),
      Entry("Asset_Description", seq(|AssetMapping|, k requires 0 <= k < |AssetMapping| => TextVal(AssetMapping[k].description))),
      Entry("Category", seq(|AssetMapping|, k requires 0 <= k < |AssetMapping| => TextVal(AssetMapping[k].category)))
    ]
  }

  /** None of the asset list's own columns is a grid column. */
  lemma AssetFrameNotGrid(i: nat)
    requires i < 4
    ensures !IsGridColumn(AssetFrame()[i])
  {
    var key := AssetFrame()[i].key;
    if |"TreasuryGrid_"| <= |key| {
      assert key[..13][0] == key[0] != 'T';
    }
  }

  predicate AssetsPresent(p: Portfolio)
  {
    forall k :: 0 <= k < |AssetMapping| ==> AssetMapping[k].optionValue in p.weights
  }

  /** The column a portfolio contributes: its weight for each asset, in row order. */
  function AllocationsOf(p: Portfolio): (col: seq<Value>)
    requires AssetsPresent(p)
    ensures |col| == |AssetMapping|
    ensures forall k :: 0 <= k < |AssetMapping| ==> col[k] == RealVal(p.weights[AssetMapping[k].optionValue])
  {
    seq(|AssetMapping|, k requires 0 <= k < |AssetMapping| && AssetsPresent(p) =>
      RealVal(p.weights[AssetMapping[k].optionValue]))
  }

  /** The frame `base` after the first `n` columns of `cols` have been set in order
      (`asset_df[name] = values`: a new name is appended, a known one replaced). */
  function SetColumns(base: Table, cols: Table, n: nat): (t: Table)
    requires UniqueKeys(base) && n <= |cols|
    ensures UniqueKeys(t)
  {
    if n == 0 then base
    else Assign(SetColumns(base, cols, n - 1), cols[n - 1].key, cols[n - 1].val)
  }

  /** Setting columns with new, distinct names appends them in order. */
  lemma {:induction false} SetNewColumns(base: Table, cols: Table, n: nat)
    requires UniqueKeys(base) && UniqueKeys(base + cols) && n <= |cols|
    ensures SetColumns(base, cols, n) == base + cols[..n]
  {
    if n > 0 {
      SetNewColumns(base, cols, n - 1);
      SetNewColumn(base, cols, n - 1);
    }
  }

  lemma SetNewColumn(base: Table, cols: Table, k: nat)
    requires UniqueKeys(base) && UniqueKeys(base + cols) && k < |cols|
    requires SetColumns(base, cols, k) == base + cols[..k]
    ensures SetColumns(base, cols, k + 1) == base + cols[..k + 1]
  {
    NewColumnKey(base, cols, k);
    SetColumnsStep(base, cols, k);
    AssignNew(base + cols[..k], cols[k]);
    assert cols[..k + 1] == cols[..k] + [cols[k]];
  }

  /** Assigning a new key appends its entry. */
  lemma AssignNew(d: Table, e: Entry<string, seq<Value>>)
    requires UniqueKeys(d) && e.key !in Keys(d)
    ensures Assign(d, e.key, e.val) == d + [e]
  {
  }

  /** Column `k` of distinct columns is not among the base and the columns before it. */
  lemma NewColumnKey(base: Table, cols: Table, k: nat)
    requires UniqueKeys(base + cols) && k < |cols|
    ensures cols[k].key !in Keys(base + cols[..k])
  {
    var prev := base + cols[..k];
    forall i | 0 <= i < |prev|
      ensures Keys(prev)[i] != cols[k].key
    {
      assert prev[i] == (base + cols)[i];
      assert cols[k] == (base + cols)[|base| + k];
    }
  }

  lemma SetColumnsStep(base: Table, cols: Table, g: nat)
    requires UniqueKeys(base) && g < |cols|
    ensures SetColumns(base, cols, g + 1) == Assign(SetColumns(base, cols, g), cols[g].key, cols[g].val)
  {
  }

  /** Setting columns keeps the number and description columns. */
  lemma {:induction false} BaseColumnsKept(base: Table, cols: Table, n: nat)
    requires UniqueKeys(base) && n <= |cols|
    requires "Asset_Number" in Keys(base) && "Asset_Description" in Keys(base)
    ensures "Asset_Number" in Keys(SetColumns(base, cols, n))
    ensures "Asset_Description" in Keys(SetColumns(base, cols, n))
  {
    if n > 0 {
      var prev := SetColumns(base, cols, n - 1);
      BaseColumnsKept(base, cols, n - 1);
      AssignKeys(prev, cols[n - 1].key, cols[n - 1].val, "Asset_Number");
      AssignKeys(prev, cols[n - 1].key, cols[n - 1].val, "Asset_Description");
    }
  }

  predicate IsGridColumn(e: Entry<string, seq<Value>>)
  {
    StartsWith(e.key, "TreasuryGrid_")
  }

  /** The final column selection: number, description, then the grid columns. */
  function SelectColumns(t: Table): Table
    requires "Asset_Number" in Keys(t) && "Asset_Description" in Keys(t)
  {
    [Entry("Asset_Number", Lookup(t, "Asset_Number")), Entry("Asset_Description", Lookup(t, "Asset_Description"))]
      + Filter(t, IsGridColumn)
  }

  /** The column each portfolio sets: its id and its weight for each asset. */
  function GridColumns(grid: seq<Portfolio>): (cs: Table)
    requires forall i :: 0 <= i < |grid| ==> AssetsPresent(grid[i])
    ensures |cs| == |grid|
  {
    seq(|grid|, i requires 0 <= i < |grid| && AssetsPresent(grid[i]) => Entry(grid[i].gridId, AllocationsOf(grid[i])))
  }

  /** The asset table: the asset list, every portfolio's column set in grid order, then
      the selection. */
  function AssetTable(grid: seq<Portfolio>): Table
    requires forall i :: 0 <= i < |grid| ==> AssetsPresent(grid[i])
  {
    AssetFrameKeys();
    BaseColumnsKept(AssetFrame(), GridColumns(grid), |grid|);
    SelectColumns(SetColumns(AssetFrame(), GridColumns(grid), |grid|))
  }

  /** `create_asset_mapping_table`: one column per portfolio, then the selection. */
  method CreateAssetMappingTable(grid: seq<Portfolio>) returns (table: Table)
    requires forall i :: 0 <= i < |grid| ==> AssetsPresent(grid[i])
    ensures table == AssetTable(grid)
  {
    ghost var cols := GridColumns(grid);
    var assetFrame := AssetFrame();
    for g := 0 to |grid|
      invariant assetFrame == SetColumns(AssetFrame(), cols, g)
    {
      var portfolio := grid[g];
      var allocations := CollectPortfolioAllocations(portfolio);
      assert cols[g] == Entry(portfolio.gridId, allocations);
      assetFrame := Assign(assetFrame, portfolio.gridId, allocations);
    }
    AssetFrameKeys();
    BaseColumnsKept(AssetFrame(), cols, |grid|);
    table := SelectColumns(assetFrame);
  }

  /** The inner loop: the portfolio's weight for each asset, in row order. */
  method CollectPortfolioAllocations(portfolio: Portfolio) returns (allocations: seq<Value>)
    requires AssetsPresent(portfolio)
    ensures allocations == AllocationsOf(portfolio)
  {
    allocations := [];
    for k := 0 to |AssetMapping|
      invariant allocations == AllocationsOf(portfolio)[..k]
    {
      allocations := allocations + [RealVal(portfolio.weights[AssetMapping[k].optionValue])];
      assert AllocationsOf(portfolio)[..k + 1] == AllocationsOf(portfolio)[..k] + [AllocationsOf(portfolio)[k]];
    }
    assert AllocationsOf(portfolio)[..|AssetMapping|] == AllocationsOf(portfolio);
  }

  /** A frame without grid columns followed by distinct grid columns has distinct names. */
  lemma UniqueWithGridColumns(frame: Table, cols: Table)
    requires UniqueKeys(frame) && UniqueKeys(cols)
    requires forall k :: 0 <= k < |frame| ==> !IsGridColumn(frame[k])
    requires forall k :: 0 <= k < |cols| ==> IsGridColumn(cols[k])
    ensures UniqueKeys(frame + cols)
  {
    forall i, j | 0 <= i < j < |frame + cols|
      ensures (frame + cols)[i].key != (frame + cols)[j].key
    {
      if i < |frame| && j >= |frame| {
        assert !IsGridColumn(frame[i]) && IsGridColumn(cols[j - |frame|]);
      }
    }
  }

  /**
   * For a grid of distinct `TreasuryGrid_` ids, the table has the asset numbers 1..10,
   * the descriptions, then one column per portfolio in grid order holding its weight
   * for each asset.
   */
  lemma AssetTableLayout(grid: seq<Portfolio>)
    requires forall i :: 0 <= i < |grid| ==> AssetsPresent(grid[i])
    requires forall i :: 0 <= i < |grid| ==> IsGridColumn(Entry(grid[i].gridId, []))
    requires forall i, j :: 0 <= i < j < |grid| ==> grid[i].gridId != grid[j].gridId
    ensures AssetTable(grid) == [AssetFrame()[0], AssetFrame()[2]] + GridColumns(grid)
  {
    var cols := GridColumns(grid);
    forall i | 0 <= i < |cols|
      ensures IsGridColumn(cols[i]) && cols[i].key == grid[i].gridId
    {
      assert IsGridColumn(Entry(grid[i].gridId, []));
    }
    forall k | 0 <= k < 4
      ensures !IsGridColumn(AssetFrame()[k])
    {
      AssetFrameNotGrid(k);
    }
    UniqueWithGridColumns(AssetFrame(), cols);
    SetNewColumns(AssetFrame(), cols, |grid|);
    assert cols[..|grid|] == cols;
    FrameNotGrid();
    SelectFrameAndColumns(AssetFrame(), cols);
  }

  /** Selecting from a frame with the number and description columns and no grid column,
      followed by grid columns, keeps those two columns, then exactly the grid columns. */
  lemma {:induction false} SelectFrameAndColumns(frame: Table, cols: Table)
    requires |frame| == 4 && frame[0].key == "Asset_Number" && frame[2].key == "Asset_Description"
    requires Filter(frame, IsGridColumn) == []
    requires forall i :: 0 <= i < |cols| ==> IsGridColumn(cols[i])
    requires UniqueKeys(frame + cols)
    ensures "Asset_Number" in Keys(frame + cols) && "Asset_Description" in Keys(frame + cols)
    ensures SelectColumns(frame + cols) == [frame[0], frame[2]] + cols
  {
    var t := frame + cols;
    FilterAppend(frame, cols, IsGridColumn);
    FilterAll(cols, IsGridColumn);
    assert t[0] == frame[0] && t[2] == frame[2];
    LookupAt(t, 0);
    LookupAt(t, 2);
  }

  lemma AssetFrameKeys()
    ensures "Asset_Number" in Keys(AssetFrame()) && "Asset_Description" in Keys(AssetFrame())
  {
    assert Keys(AssetFrame())[0] == "Asset_Number" && Keys(AssetFrame())[2] == "Asset_Description";
  }

  /** The asset list contributes no grid column. */
  lemma FrameNotGrid()
    ensures Filter(AssetFrame(), IsGridColumn) == []
  {
    AssetFrameNotGrid(0);
    AssetFrameNotGrid(1);
    AssetFrameNotGrid(2);
    AssetFrameNotGrid(3);
  }

  /**
   * The table of the generated grid: asset numbers, descriptions, then one column per
   * grid portfolio, in grid order, holding its weight for each asset.
   */
  lemma GridAssetTable(splits: seq<Split>)
    ensures forall i :: 0 <= i < |splits| ==> AssetsPresent(Grid(splits)[i])
    ensures AssetTable(Grid(splits)) == [AssetFrame()[0], AssetFrame()[2]] + GridColumns(Grid(splits))
  {
    var g := Grid(splits);
    GridIdsDistinct(splits);
    forall i | 0 <= i < |g|
      ensures AssetsPresent(g[i]) && IsGridColumn(Entry(g[i].gridId, []))
    {
      GridPortfolio(splits, i);
    }
    AssetTableLayout(g);
  }

  /** Every grid portfolio has a weight for each asset and a `TreasuryGrid_` id. */
  lemma GridPortfolio(splits: seq<Split>, i: nat)
    requires i < |splits|
    ensures AssetsPresent(Grid(splits)[i]) && IsGridColumn(Entry(Grid(splits)[i].gridId, []))
  {
    var p := PortfolioOf(i + 1, splits[i]);
    assert Grid(splits)[i] == p;
    assert GridId(i + 1)[..13] == "TreasuryGrid_";
    forall k | 0 <= k < |AssetMapping|
      ensures AssetMapping[k].optionValue in p.weights
    {
    }
  }
}
