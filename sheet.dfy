/**
 * The values the data-processing layer works on: one spreadsheet cell, a row
 * of cells, a parsed table (a pandas DataFrame after parsing) and an
 * allocation CSV.
 */
module Sheet {
  import opened Util

  /**
   * One cell of a sheet as pandas reads it: missing (NaN or None), a number,
   * or text. A number carries the text Python's `str()` gives for it, which
   * this model does not compute.
   */
  datatype Cell = Empty | Num(value: real, text: string) | Str(s: string)

  /** Python's `str(v)` of a cell; `str(nan)` is "nan". */
  function CellText(c: Cell): string
  {
    match c
    case Empty => "nan"
    case Num(_, t) => t
    case Str(s) => s
  }

  /** `row.isna().all()`. */
  predicate IsEmptyRow(r: seq<Cell>)
  {
    forall i :: 0 <= i < |r| ==> r[i] == Empty
  }

  /** `row.dropna()`: the non-missing cells in column order. */
  function NonEmptyCells(r: seq<Cell>): (ne: seq<Cell>)
    ensures |ne| <= |r|
    ensures forall i :: 0 <= i < |ne| ==> ne[i] != Empty
    ensures ne == [] <==> IsEmptyRow(r)
    ensures r != [] && r[0] != Empty ==> ne != [] && ne[0] == r[0]
  {
    if r == [] then []
    else (if r[0] == Empty then [] else [r[0]]) + NonEmptyCells(r[1..])
  }

  /** `row.notna().sum()`. */
  function NonEmptyCount(r: seq<Cell>): nat
  {
    |NonEmptyCells(r)|
  }

  /** The non-missing positions of a row below `hi`. */
  function ValueSet(r: seq<Cell>, hi: nat): set<nat>
    requires hi <= |r|
  {
    set j: nat | j < hi && r[j] != Empty
  }

  /** `row.notna().sum()` counts the row's non-missing positions. */
  lemma NonEmptyCountSpec(r: seq<Cell>)
    ensures NonEmptyCount(r) == |ValueSet(r, |r|)|
  {
    CountPrefix(r, |r|);
    assert r[..|r|] == r;
  }

  lemma {:induction false} CountPrefix(r: seq<Cell>, hi: nat)
    requires hi <= |r|
    ensures |NonEmptyCells(r[..hi])| == |ValueSet(r, hi)|
  {
    if hi == 0 {
      assert ValueSet(r, 0) == {};
    } else {
      CountPrefix(r, hi - 1);
      assert r[..hi] == r[..hi - 1] + [r[hi - 1]];
      NonEmptyCellsSnoc(r[..hi - 1], r[hi - 1]);
      ValueSetStep(r, hi);
    }
  }

  lemma ValueSetStep(r: seq<Cell>, hi: nat)
    requires 0 < hi <= |r|
    ensures |ValueSet(r, hi)| == |ValueSet(r, hi - 1)| + (if r[hi - 1] == Empty then 0 else 1)
  {
    if r[hi - 1] == Empty {
      assert ValueSet(r, hi) == ValueSet(r, hi - 1);
    } else {
      assert ValueSet(r, hi) == ValueSet(r, hi - 1) + {hi - 1};
    }
  }

  /** A row without missing cells is its own `dropna()`. */
  lemma {:induction false} NonEmptyCellsOfFull(r: seq<Cell>)
    requires forall i :: 0 <= i < |r| ==> r[i] != Empty
    ensures NonEmptyCells(r) == r
  {
    if r != [] {
      NonEmptyCellsOfFull(r[1..]);
    }
  }

  /** The positions below `hi` that hold a value, in increasing order. */
  function ValuePositions(r: seq<Cell>, hi: nat): (ix: seq<nat>)
    requires hi <= |r|
    ensures forall k :: 0 <= k < |ix| ==> ix[k] < hi
  {
    if hi == 0 then [] else ValuePositions(r, hi - 1) + (if r[hi - 1] == Empty then [] else [hi - 1])
  }

  /** The value positions are exactly the non-missing positions below `hi`, increasing. */
  lemma ValuePositionsSpec(r: seq<Cell>, hi: nat)
    requires hi <= |r|
    ensures var ix := ValuePositions(r, hi);
      (forall k :: 0 <= k < |ix| ==> ix[k] < hi && r[ix[k]] != Empty)
      && (forall k1, k2 :: 0 <= k1 < k2 < |ix| ==> ix[k1] < ix[k2])
      && (forall j :: 0 <= j < hi && r[j] != Empty ==> j in ix)
  {
    PositionsSound(r, hi);
    PositionsIncreasing(r, hi);
    PositionsComplete(r, hi);
  }

  lemma {:induction false} PositionsSound(r: seq<Cell>, hi: nat)
    requires hi <= |r|
    ensures forall k :: 0 <= k < |ValuePositions(r, hi)| ==> r[ValuePositions(r, hi)[k]] != Empty
  {
    if hi > 0 {
      PositionsSound(r, hi - 1);
      var ix0 := ValuePositions(r, hi - 1);
      if r[hi - 1] != Empty {
        var ix := ix0 + [hi - 1];
        assert ValuePositions(r, hi) == ix;
        assert forall k :: 0 <= k < |ix0| ==> ix[k] == ix0[k];
      }
    }
  }

  lemma {:induction false} PositionsIncreasing(r: seq<Cell>, hi: nat)
    requires hi <= |r|
    ensures forall k1, k2 :: 0 <= k1 < k2 < |ValuePositions(r, hi)| ==>
      ValuePositions(r, hi)[k1] < ValuePositions(r, hi)[k2]
  {
    if hi > 0 {
      PositionsIncreasing(r, hi - 1);
      var ix0 := ValuePositions(r, hi - 1);
      if r[hi - 1] != Empty {
        var ix := ix0 + [hi - 1];
        assert ValuePositions(r, hi) == ix;
        assert forall k :: 0 <= k < |ix0| ==> ix[k] == ix0[k] && ix[k] < hi - 1;
      }
    }
  }

  lemma {:induction false} PositionsComplete(r: seq<Cell>, hi: nat)
    requires hi <= |r|
    ensures forall j :: 0 <= j < hi && r[j] != Empty ==> j in ValuePositions(r, hi)
  {
    if hi > 0 {
      PositionsComplete(r, hi - 1);
    }
  }

  lemma {:induction false} NonEmptyCellsSnoc(a: seq<Cell>, c: Cell)
    ensures NonEmptyCells(a + [c]) == NonEmptyCells(a) + (if c == Empty then [] else [c])
  {
    var tail := if c == Empty then [] else [c];
    if a == [] {
      assert a + [c] == [c] && [c][1..] == [];
      assert NonEmptyCells([c]) == tail + NonEmptyCells([]);
    } else {
      var head := if a[0] == Empty then [] else [a[0]];
      NonEmptyCellsSnoc(a[1..], c);
      assert (a + [c])[0] == a[0];
      assert (a + [c])[1..] == a[1..] + [c];
      assert NonEmptyCells(a + [c]) == head + NonEmptyCells(a[1..] + [c]);
      assert NonEmptyCells(a) == head + NonEmptyCells(a[1..]);
    }
  }

  lemma {:induction false} NonEmptyCellsPrefix(r: seq<Cell>, hi: nat)
    requires hi <= |r|
    ensures var ix := ValuePositions(r, hi);
      NonEmptyCells(r[..hi]) == seq(|ix|, k requires 0 <= k < |ix| => r[ix[k]])
  {
    if hi > 0 {
      NonEmptyCellsPrefix(r, hi - 1);
      assert r[..hi] == r[..hi - 1] + [r[hi - 1]];
      NonEmptyCellsSnoc(r[..hi - 1], r[hi - 1]);
    }
  }

  /** `row.dropna()` is exactly the cells at the row's non-missing positions, in
      column order. */
  lemma NonEmptyCellsAt(r: seq<Cell>)
    ensures var ix := ValuePositions(r, |r|);
      NonEmptyCells(r) == seq(|ix|, k requires 0 <= k < |ix| => r[ix[k]])
  {
    NonEmptyCellsPrefix(r, |r|);
    assert r[..|r|] == r;
  }

  /** The first position at or after `lo` holding a value, if any. */
  function NextValue(r: seq<Cell>, lo: nat): (p: Option<nat>)
    ensures p.Some? ==> lo <= p.value < |r| && r[p.value] != Empty
    ensures forall j :: lo <= j < |r| && (p.None? || j < p.value) ==> r[j] == Empty
    decreases |r| - lo
  {
    if lo >= |r| then None else if r[lo] != Empty then Some(lo) else NextValue(r, lo + 1)
  }

  /**
   * The first cell of `row.dropna()` is the row's first non-missing cell, and the
   * second one is the next non-missing cell after it; `dropna()` is empty when the
   * row has no value and has one cell when nothing follows the first value.
   */
  lemma FirstValues(r: seq<Cell>)
    ensures NextValue(r, 0).None? ==> NonEmptyCells(r) == []
    ensures NextValue(r, 0).Some? ==>
      var p := NextValue(r, 0).value;
      NonEmptyCells(r) != [] && NonEmptyCells(r)[0] == r[p]
      && (NextValue(r, p + 1).None? ==> |NonEmptyCells(r)| == 1)
      && (NextValue(r, p + 1).Some? ==>
            |NonEmptyCells(r)| >= 2 && NonEmptyCells(r)[1] == r[NextValue(r, p + 1).value])
  {
    var ix := ValuePositions(r, |r|);
    var ne := NonEmptyCells(r);
    NonEmptyCellsAt(r);
    assert |ne| == |ix|;
    if NextValue(r, 0).None? {
      NoPosition(r);
    } else {
      var p := NextValue(r, 0).value;
      FirstPosition(r, p);
      assert ne[0] == r[ix[0]];
      if NextValue(r, p + 1).None? {
        OnlyPosition(r, p);
      } else {
        SecondPosition(r, p, NextValue(r, p + 1).value);
        assert ne[1] == r[ix[1]];
      }
    }
  }

  lemma NoPosition(r: seq<Cell>)
    requires NextValue(r, 0).None?
    ensures ValuePositions(r, |r|) == []
  {
    GapPositions(r, 0, |r|);
  }

  /** Missing cells between `lo` and `hi` add no position. */
  lemma {:induction false} GapPositions(r: seq<Cell>, lo: nat, hi: nat)
    requires lo <= hi <= |r| && forall j :: lo <= j < hi ==> r[j] == Empty
    ensures ValuePositions(r, hi) == ValuePositions(r, lo)
    decreases hi
  {
    if hi > lo {
      GapPositions(r, lo, hi - 1);
    }
  }

  /** The positions below `lo` begin the positions below `hi`. */
  lemma {:induction false} PositionsPrefix(r: seq<Cell>, lo: nat, hi: nat)
    requires lo <= hi <= |r|
    ensures |ValuePositions(r, lo)| <= |ValuePositions(r, hi)|
    ensures forall k :: 0 <= k < |ValuePositions(r, lo)| ==> ValuePositions(r, hi)[k] == ValuePositions(r, lo)[k]
    decreases hi
  {
    if hi > lo {
      PositionsPrefix(r, lo, hi - 1);
    }
  }

  /** Up to the next value after `lo`, only that value's position is added. */
  lemma GapThenValue(r: seq<Cell>, lo: nat, q: nat)
    requires lo <= |r| && NextValue(r, lo) == Some(q)
    ensures ValuePositions(r, q + 1) == ValuePositions(r, lo) + [q]
  {
    GapPositions(r, lo, q);
  }

  lemma FirstPrefix(r: seq<Cell>, p: nat)
    requires NextValue(r, 0) == Some(p)
    ensures ValuePositions(r, p + 1) == [p]
  {
    GapThenValue(r, 0, p);
  }

  lemma FirstPosition(r: seq<Cell>, p: nat)
    requires NextValue(r, 0) == Some(p)
    ensures ValuePositions(r, p + 1) == [p]
    ensures var ix := ValuePositions(r, |r|); ix != [] && ix[0] == p
  {
    FirstPrefix(r, p);
    PositionsPrefix(r, p + 1, |r|);
  }

  lemma OnlyPosition(r: seq<Cell>, p: nat)
    requires NextValue(r, 0) == Some(p) && NextValue(r, p + 1).None?
    ensures ValuePositions(r, |r|) == [p]
  {
    FirstPosition(r, p);
    GapPositions(r, p + 1, |r|);
  }

  lemma SecondPrefix(r: seq<Cell>, p: nat, q: nat)
    requires NextValue(r, 0) == Some(p) && NextValue(r, p + 1) == Some(q)
    ensures ValuePositions(r, q + 1) == [p, q]
  {
    FirstPrefix(r, p);
    GapThenValue(r, p + 1, q);
  }

  lemma SecondPosition(r: seq<Cell>, p: nat, q: nat)
    requires NextValue(r, 0) == Some(p) && NextValue(r, p + 1) == Some(q)
    ensures var ix := ValuePositions(r, |r|); |ix| >= 2 && ix[0] == p && ix[1] == q
  {
    SecondPrefix(r, p, q);
    PositionsPrefix(r, q + 1, |r|);
  }

  /** `row.iloc[:w]` of a row, padded with missing cells when the row is shorter. */
  function Fit(r: seq<Cell>, w: nat): (f: seq<Cell>)
    ensures |f| == w
    ensures forall j :: 0 <= j < w ==> f[j] == if j < |r| then r[j] else Empty
  {
    seq(w, j requires 0 <= j < w => if j < |r| then r[j] else Empty)
  }

  /**
   * A parsed table: column labels and rows of cells. An empty DataFrame
   * (`pd.DataFrame()`) has no columns and no rows.
   */
  datatype Frame = Frame(columns: seq<string>, rows: seq<seq<Cell>>)
  {
    /** `df.empty`: one of the two axes has length zero. */
    predicate IsEmpty()
    {
      |columns| == 0 || |rows| == 0
    }

    /** Every row has one cell per column. */
    predicate Rectangular()
    {
      forall i :: 0 <= i < |rows| ==> |rows[i]| == |columns|
    }
  }

  const EmptyFrame := Frame([], [])

  /** A parsed table under its key in the dictionary `parse_all_tables` returns. */
  type Tables = seq<Entry<string, Frame>>

  /**
   * A CSV file as `pd.read_csv` gives it: distinct column labels and one cell
   * per column in every row.
   */
  datatype Csv = Csv(columns: seq<string>, rows: seq<seq<Cell>>)
  {
    predicate WellFormed()
    {
      (forall i, j :: 0 <= i < j < |columns| ==> columns[i] != columns[j])
      && (forall i :: 0 <= i < |rows| ==> |rows[i]| == |columns|)
    }
  }

  /** Position of a column label. */
  function ColumnIndex(cols: seq<string>, name: string): (k: nat)
    requires name in cols
    ensures k < |cols| && cols[k] == name
  {
    if cols[0] == name then 0 else 1 + ColumnIndex(cols[1..], name)
  }

  /** `row[name]` for a CSV row. */
  function Get(csv: Csv, r: nat, name: string): Cell
    requires csv.WellFormed() && r < |csv.rows| && name in csv.columns
  {
    csv.rows[r][ColumnIndex(csv.columns, name)]
  }
}
