/**
 * Splitting a raw results sheet into tables and parsing each table
 * (backtest_analysis_processor_working.py, lines 49-291).
 */
module TableParser {
  import opened Util
  import opened Sheet

  /** A sheet as `pd.read_excel(..., header=None)` loads it: rows of cells. */
  type Grid = seq<seq<Cell>>

  // ===========================================================================
  // Table boundaries
  // ===========================================================================

  /** A run of non-empty rows `start..end` (both inclusive) and the table's raw name. */
  datatype Block = Block(start: nat, end: nat, name: string)

  /** The name of a table starting at `row`: the first non-missing value, or `Table_<n>`. */
  function BlockName(row: seq<Cell>, n: nat): string
  {
    var ne := NonEmptyCells(row);
    if ne != [] then CellText(ne[0]) else "Table_" + Dec(n)
  }

  /** The name of a table whose first row has a value is the text of the row's first
      non-missing cell, so the `Table_<n>` fallback is never taken. */
  lemma BlockNameFirstValue(row: seq<Cell>, n: nat)
    requires !IsEmptyRow(row)
    ensures NextValue(row, 0).Some? && BlockName(row, n) == CellText(row[NextValue(row, 0).value])
  {
    FirstValues(row);
  }

  /** The last row of the run of non-empty rows that contains row `i`, looking downwards. */
  function RunEnd(g: Grid, i: nat): (e: nat)
    requires i < |g|
    ensures i <= e < |g|
    decreases |g| - i
  {
    if i + 1 < |g| && !IsEmptyRow(g[i + 1]) then RunEnd(g, i + 1) else i
  }

  lemma {:induction false} RunEndRows(g: Grid, i: nat)
    requires i < |g| && !IsEmptyRow(g[i])
    ensures forall r :: i <= r <= RunEnd(g, i) ==> !IsEmptyRow(g[r])
    ensures RunEnd(g, i) + 1 == |g| || IsEmptyRow(g[RunEnd(g, i) + 1])
    decreases |g| - i
  {
    if i + 1 < |g| && !IsEmptyRow(g[i + 1]) {
      RunEndRows(g, i + 1);
    }
  }

  /**
   * The tables of rows `i..` as maximal runs of non-empty rows, top to bottom;
   * `k` tables were found above row `i`. This is the reference definition the
   * row-by-row scan is proved against.
   */
  function SegmentsFrom(g: Grid, i: nat, k: nat): seq<Block>
    decreases |g| - i
  {
    if i >= |g| then []
    else if IsEmptyRow(g[i]) then SegmentsFrom(g, i + 1, k)
    else
      var e := RunEnd(g, i);
      [Block(i, e, BlockName(g[i], k + 1))] + SegmentsFrom(g, e + 1, k + 1)
  }

  function Segments(g: Grid): (bs: seq<Block>)
    ensures BlocksInside(g, 0, bs)
  {
    SegmentsInside(g, 0, 0);
    SegmentsFrom(g, 0, 0)
  }

  /** Every block lies inside the sheet, below row `i`. */
  ghost predicate BlocksInside(g: Grid, i: nat, bs: seq<Block>)
  {
    forall k :: 0 <= k < |bs| ==> i <= bs[k].start <= bs[k].end < |g|
  }

  /** Every row of a block has a non-missing value. */
  ghost predicate BlocksFull(g: Grid, bs: seq<Block>)
  {
    forall k, r :: 0 <= k < |bs| && bs[k].start <= r <= bs[k].end && r < |g| ==> !IsEmptyRow(g[r])
  }

  /** No block can be extended upwards: the row above it is empty. */
  ghost predicate StartsMaximal(g: Grid, bs: seq<Block>)
  {
    forall k :: 0 <= k < |bs| && 0 < bs[k].start <= |g| ==> IsEmptyRow(g[bs[k].start - 1])
  }

  /** No block can be extended downwards: the row below it is empty or absent. */
  ghost predicate EndsMaximal(g: Grid, bs: seq<Block>)
  {
    forall k :: 0 <= k < |bs| && bs[k].end + 1 < |g| ==> IsEmptyRow(g[bs[k].end + 1])
  }

  /** Blocks are in increasing order with at least one row between two of them. */
  ghost predicate Separated(bs: seq<Block>)
  {
    forall k1, k2 :: 0 <= k1 < k2 < |bs| ==> bs[k1].end + 1 < bs[k2].start
  }

  /** Every non-empty row from `i` on lies in a block. */
  ghost predicate CoversFrom(g: Grid, i: nat, bs: seq<Block>)
  {
    forall r :: i <= r < |g| && !IsEmptyRow(g[r]) ==>
      exists k :: 0 <= k < |bs| && bs[k].start <= r <= bs[k].end
  }

  /** A block is named after the first non-missing value of its first row. */
  ghost predicate NamedByFirstValue(g: Grid, bs: seq<Block>)
  {
    forall k :: 0 <= k < |bs| && bs[k].start < |g| ==>
      NonEmptyCells(g[bs[k].start]) != [] && bs[k].name == CellText(NonEmptyCells(g[bs[k].start])[0])
  }

  /**
   * What the boundary scan promises for the rows from `i` on: every block lies
   * inside the sheet, holds only non-empty rows, cannot be extended upwards or
   * downwards, blocks are in increasing order with at least one empty row
   * between two of them, every non-empty row lies in a block, and a block is
   * named after the first non-missing value of its first row.
   */
  ghost predicate Segmentation(g: Grid, i: nat, bs: seq<Block>)
  {
    BlocksInside(g, i, bs) && BlocksFull(g, bs) && StartsMaximal(g, bs) && EndsMaximal(g, bs)
    && Separated(bs) && CoversFrom(g, i, bs) && NamedByFirstValue(g, bs)
  }

  /** The first block of the rows from a non-empty row `i`, then the blocks after it. */
  lemma SegmentsFromBlock(g: Grid, i: nat, k: nat)
    requires i < |g| && !IsEmptyRow(g[i])
    ensures SegmentsFrom(g, i, k)
      == [Block(i, RunEnd(g, i), BlockName(g[i], k + 1))] + SegmentsFrom(g, RunEnd(g, i) + 1, k + 1)
  {
  }

  lemma {:induction false} SegmentsInside(g: Grid, i: nat, k: nat)
    ensures BlocksInside(g, i, SegmentsFrom(g, i, k))
    decreases |g| - i
  {
    if i >= |g| {
    } else if IsEmptyRow(g[i]) {
      SegmentsInside(g, i + 1, k);
    } else {
      SegmentsInside(g, RunEnd(g, i) + 1, k + 1);
      SegmentsInsideBlock(g, i, k);
    }
  }

  lemma SegmentsInsideBlock(g: Grid, i: nat, k: nat)
    requires i < |g| && !IsEmptyRow(g[i])
    requires BlocksInside(g, RunEnd(g, i) + 1, SegmentsFrom(g, RunEnd(g, i) + 1, k + 1))
    ensures BlocksInside(g, i, SegmentsFrom(g, i, k))
  {
    var e := RunEnd(g, i);
    SegmentsFromBlock(g, i, k);
    InsideCons(g, i, Block(i, e, BlockName(g[i], k + 1)), SegmentsFrom(g, e + 1, k + 1));
  }

  lemma InsideCons(g: Grid, i: nat, b: Block, rest: seq<Block>)
    requires i <= b.start <= b.end < |g| && BlocksInside(g, b.end + 1, rest)
    ensures BlocksInside(g, i, [b] + rest)
  {
    assert forall j :: 0 < j < |[b] + rest| ==> ([b] + rest)[j] == rest[j - 1];
  }

  lemma {:induction false} SegmentsFull(g: Grid, i: nat, k: nat)
    ensures BlocksFull(g, SegmentsFrom(g, i, k))
    decreases |g| - i
  {
    if i >= |g| {
    } else if IsEmptyRow(g[i]) {
      SegmentsFull(g, i + 1, k);
    } else {
      SegmentsFull(g, RunEnd(g, i) + 1, k + 1);
      SegmentsFullBlock(g, i, k);
    }
  }

  lemma SegmentsFullBlock(g: Grid, i: nat, k: nat)
    requires i < |g| && !IsEmptyRow(g[i])
    requires BlocksFull(g, SegmentsFrom(g, RunEnd(g, i) + 1, k + 1))
    ensures BlocksFull(g, SegmentsFrom(g, i, k))
  {
    var e := RunEnd(g, i);
    RunEndRows(g, i);
    SegmentsFromBlock(g, i, k);
    FullCons(g, Block(i, e, BlockName(g[i], k + 1)), SegmentsFrom(g, e + 1, k + 1));
  }

  lemma FullCons(g: Grid, b: Block, rest: seq<Block>)
    requires forall r :: b.start <= r <= b.end && r < |g| ==> !IsEmptyRow(g[r])
    requires BlocksFull(g, rest)
    ensures BlocksFull(g, [b] + rest)
  {
    var bs := [b] + rest;
    forall j, r | 0 <= j < |bs| && bs[j].start <= r <= bs[j].end && r < |g|
      ensures !IsEmptyRow(g[r])
    {
      if j > 0 {
        assert bs[j] == rest[j - 1];
      }
    }
  }

  lemma {:induction false} SegmentsEnd(g: Grid, i: nat, k: nat)
    ensures EndsMaximal(g, SegmentsFrom(g, i, k))
    decreases |g| - i
  {
    if i >= |g| {
    } else if IsEmptyRow(g[i]) {
      SegmentsEnd(g, i + 1, k);
    } else {
      SegmentsEnd(g, RunEnd(g, i) + 1, k + 1);
      SegmentsEndBlock(g, i, k);
    }
  }

  lemma SegmentsEndBlock(g: Grid, i: nat, k: nat)
    requires i < |g| && !IsEmptyRow(g[i])
    requires EndsMaximal(g, SegmentsFrom(g, RunEnd(g, i) + 1, k + 1))
    ensures EndsMaximal(g, SegmentsFrom(g, i, k))
  {
    var e := RunEnd(g, i);
    RunEndRows(g, i);
    SegmentsFromBlock(g, i, k);
    EndCons(g, Block(i, e, BlockName(g[i], k + 1)), SegmentsFrom(g, e + 1, k + 1));
  }

  lemma EndCons(g: Grid, b: Block, rest: seq<Block>)
    requires b.end + 1 < |g| ==> IsEmptyRow(g[b.end + 1])
    requires EndsMaximal(g, rest)
    ensures EndsMaximal(g, [b] + rest)
  {
    assert forall j :: 0 < j < |[b] + rest| ==> ([b] + rest)[j] == rest[j - 1];
  }

  lemma {:induction false} SegmentsNamed(g: Grid, i: nat, k: nat)
    ensures NamedByFirstValue(g, SegmentsFrom(g, i, k))
    decreases |g| - i
  {
    if i >= |g| {
    } else if IsEmptyRow(g[i]) {
      SegmentsNamed(g, i + 1, k);
    } else {
      SegmentsNamed(g, RunEnd(g, i) + 1, k + 1);
      SegmentsNamedBlock(g, i, k);
    }
  }

  lemma SegmentsNamedBlock(g: Grid, i: nat, k: nat)
    requires i < |g| && !IsEmptyRow(g[i])
    requires NamedByFirstValue(g, SegmentsFrom(g, RunEnd(g, i) + 1, k + 1))
    ensures NamedByFirstValue(g, SegmentsFrom(g, i, k))
  {
    var e := RunEnd(g, i);
    SegmentsFromBlock(g, i, k);
    NamedCons(g, Block(i, e, BlockName(g[i], k + 1)), SegmentsFrom(g, e + 1, k + 1));
  }

  lemma NamedCons(g: Grid, b: Block, rest: seq<Block>)
    requires b.start < |g| && NonEmptyCells(g[b.start]) != [] && b.name == CellText(NonEmptyCells(g[b.start])[0])
    requires NamedByFirstValue(g, rest)
    ensures NamedByFirstValue(g, [b] + rest)
  {
    assert forall j :: 0 < j < |[b] + rest| ==> ([b] + rest)[j] == rest[j - 1];
  }

  lemma {:induction false} SegmentsStart(g: Grid, i: nat, k: nat)
    requires i >= |g| || i == 0 || IsEmptyRow(g[i - 1]) || IsEmptyRow(g[i])
    ensures StartsMaximal(g, SegmentsFrom(g, i, k))
    decreases |g| - i
  {
    if i >= |g| {
    } else if IsEmptyRow(g[i]) {
      SegmentsStart(g, i + 1, k);
    } else {
      RunEndRows(g, i);
      SegmentsStart(g, RunEnd(g, i) + 1, k + 1);
      SegmentsStartBlock(g, i, k);
    }
  }

  lemma SegmentsStartBlock(g: Grid, i: nat, k: nat)
    requires i < |g| && !IsEmptyRow(g[i]) && (i == 0 || IsEmptyRow(g[i - 1]))
    requires StartsMaximal(g, SegmentsFrom(g, RunEnd(g, i) + 1, k + 1))
    ensures StartsMaximal(g, SegmentsFrom(g, i, k))
  {
    var e := RunEnd(g, i);
    SegmentsFromBlock(g, i, k);
    StartCons(g, Block(i, e, BlockName(g[i], k + 1)), SegmentsFrom(g, e + 1, k + 1));
  }

  lemma StartCons(g: Grid, b: Block, rest: seq<Block>)
    requires 0 < b.start <= |g| ==> IsEmptyRow(g[b.start - 1])
    requires StartsMaximal(g, rest)
    ensures StartsMaximal(g, [b] + rest)
  {
    assert forall j :: 0 < j < |[b] + rest| ==> ([b] + rest)[j] == rest[j - 1];
  }

  lemma {:induction false} SegmentsSeparated(g: Grid, i: nat, k: nat)
    ensures Separated(SegmentsFrom(g, i, k))
    decreases |g| - i
  {
    if i >= |g| {
    } else if IsEmptyRow(g[i]) {
      SegmentsSeparated(g, i + 1, k);
    } else {
      SegmentsSeparated(g, RunEnd(g, i) + 1, k + 1);
      SegmentsSeparatedBlock(g, i, k);
    }
  }

  lemma SegmentsSeparatedBlock(g: Grid, i: nat, k: nat)
    requires i < |g| && !IsEmptyRow(g[i])
    requires Separated(SegmentsFrom(g, RunEnd(g, i) + 1, k + 1))
    ensures Separated(SegmentsFrom(g, i, k))
  {
    var e := RunEnd(g, i);
    SegmentsFromBlock(g, i, k);
    BlocksAfterRun(g, i, k, SegmentsFrom(g, e + 1, k + 1));
    SeparatedCons(Block(i, e, BlockName(g[i], k + 1)), SegmentsFrom(g, e + 1, k + 1));
  }

  /** The blocks after a run start past the empty row that ends it. */
  lemma BlocksAfterRun(g: Grid, i: nat, k: nat, rest: seq<Block>)
    requires i < |g| && !IsEmptyRow(g[i]) && rest == SegmentsFrom(g, RunEnd(g, i) + 1, k + 1)
    ensures forall j :: 0 <= j < |rest| ==> RunEnd(g, i) + 1 < rest[j].start
  {
    var e := RunEnd(g, i);
    RunEndRows(g, i);
    SegmentsInside(g, e + 1, k + 1);
    SegmentsFull(g, e + 1, k + 1);
    forall j | 0 <= j < |rest|
      ensures e + 1 < rest[j].start
    {
      assert e + 1 <= rest[j].start < |g|;
      assert !IsEmptyRow(g[rest[j].start]);
    }
  }

  lemma SeparatedCons(b: Block, rest: seq<Block>)
    requires forall j :: 0 <= j < |rest| ==> b.end + 1 < rest[j].start
    requires Separated(rest)
    ensures Separated([b] + rest)
  {
    var bs := [b] + rest;
    forall k1, k2 | 0 <= k1 < k2 < |bs|
      ensures bs[k1].end + 1 < bs[k2].start
    {
      assert bs[k2] == rest[k2 - 1];
      if k1 > 0 {
        assert bs[k1] == rest[k1 - 1];
      }
    }
  }

  lemma {:induction false} SegmentsCover(g: Grid, i: nat, k: nat)
    ensures CoversFrom(g, i, SegmentsFrom(g, i, k))
    decreases |g| - i
  {
    if i >= |g| {
    } else if IsEmptyRow(g[i]) {
      SegmentsCover(g, i + 1, k);
      SegmentsCoverSkip(g, i, k);
    } else {
      SegmentsCover(g, RunEnd(g, i) + 1, k + 1);
      SegmentsCoverBlock(g, i, k);
    }
  }

  lemma SegmentsCoverSkip(g: Grid, i: nat, k: nat)
    requires i < |g| && IsEmptyRow(g[i]) && CoversFrom(g, i + 1, SegmentsFrom(g, i + 1, k))
    ensures CoversFrom(g, i, SegmentsFrom(g, i, k))
  {
    CoverSkip(g, i, SegmentsFrom(g, i + 1, k));
  }

  lemma SegmentsCoverBlock(g: Grid, i: nat, k: nat)
    requires i < |g| && !IsEmptyRow(g[i])
    requires CoversFrom(g, RunEnd(g, i) + 1, SegmentsFrom(g, RunEnd(g, i) + 1, k + 1))
    ensures CoversFrom(g, i, SegmentsFrom(g, i, k))
  {
    var e := RunEnd(g, i);
    SegmentsFromBlock(g, i, k);
    CoverCons(g, i, Block(i, e, BlockName(g[i], k + 1)), SegmentsFrom(g, e + 1, k + 1));
  }

  lemma CoverSkip(g: Grid, i: nat, bs: seq<Block>)
    requires i < |g| && IsEmptyRow(g[i]) && CoversFrom(g, i + 1, bs)
    ensures CoversFrom(g, i, bs)
  {
  }

  lemma CoverCons(g: Grid, i: nat, b: Block, rest: seq<Block>)
    requires b.start == i && CoversFrom(g, b.end + 1, rest)
    ensures CoversFrom(g, i, [b] + rest)
  {
    var bs := [b] + rest;
    forall r | i <= r < |g| && !IsEmptyRow(g[r])
      ensures exists j :: 0 <= j < |bs| && bs[j].start <= r <= bs[j].end
    {
      if r <= b.end {
        assert bs[0].start <= r <= bs[0].end;
      } else {
        var j :| 0 <= j < |rest| && rest[j].start <= r <= rest[j].end;
        assert bs[j + 1] == rest[j];
      }
    }
  }

  /** The blocks of a sheet satisfy everything the boundary scan promises. */
  lemma SegmentsSound(g: Grid)
    ensures Segmentation(g, 0, Segments(g))
  {
    SegmentsInside(g, 0, 0);
    SegmentsFull(g, 0, 0);
    SegmentsEnd(g, 0, 0);
    SegmentsNamed(g, 0, 0);
    SegmentsStart(g, 0, 0);
    SegmentsSeparated(g, 0, 0);
    SegmentsCover(g, 0, 0);
  }

  /**
   * `identify_table_boundaries`: one pass over the rows that opens a table at
   * the first non-empty row after an empty one, and closes it at the row
   * before the next empty row or at the last row of the sheet.
   */
  method IdentifyTableBoundaries(g: Grid) returns (tables: seq<Block>)
    ensures tables == Segments(g)
  {
    tables := [];
    var currentStart: Option<nat> := None;
    var currentName := "";
    var idx: nat := 0;
    while idx < |g|
      invariant idx <= |g| && BoundaryLoop(g, idx, tables, currentStart, currentName)
    {
      var isEmpty := IsEmptyRow(g[idx]);
      if !isEmpty {
        if currentStart.None? {
          BoundaryOpen(g, idx, tables, currentName);
          currentStart := Some(idx);
          currentName := BlockName(g[idx], |tables| + 1);
        } else {
          BoundaryExtend(g, idx, tables, currentStart.value, currentName);
        }
      } else {
        if currentStart.None? {
          BoundarySkip(g, idx, tables, currentName);
        } else {
          var st := currentStart.value;
          var closed := Block(st, idx - 1, currentName);
          BoundaryClose(g, idx, tables, st, currentName);
          tables := tables + [closed];
          currentStart := None;
          currentName := "";
        }
      }
      idx := idx + 1;
    }
    if currentStart.Some? {
      var st := currentStart.value;
      var last := Block(st, |g| - 1, currentName);
      BoundaryLast(g, tables, st, currentName);
      tables := tables + [last];
    } else {
      BoundaryNoLast(g, tables, currentName);
    }
  }

  /** The state of the row scan at row `idx`: the closed tables followed by what the
      open table (if any) and the rows below it contribute are the sheet's tables. */
  ghost predicate BoundaryLoop(g: Grid, idx: nat, tables: seq<Block>, currentStart: Option<nat>, currentName: string)
  {
    idx <= |g|
    && (currentStart.None? ==> tables + SegmentsFrom(g, idx, |tables|) == Segments(g))
    && (currentStart.Some? ==>
          currentStart.value < idx <= RunEnd(g, currentStart.value) + 1
          && !IsEmptyRow(g[currentStart.value])
          && currentName == BlockName(g[currentStart.value], |tables| + 1)
          && tables + [Block(currentStart.value, RunEnd(g, currentStart.value), currentName)]
             + SegmentsFrom(g, RunEnd(g, currentStart.value) + 1, |tables| + 1) == Segments(g))
  }

  /** A non-empty row after an empty one opens a table. */
  lemma BoundaryOpen(g: Grid, idx: nat, tables: seq<Block>, name: string)
    requires BoundaryLoop(g, idx, tables, None, name) && idx < |g| && !IsEmptyRow(g[idx])
    ensures BoundaryLoop(g, idx + 1, tables, Some(idx), BlockName(g[idx], |tables| + 1))
  {
    assert SegmentsFrom(g, idx, |tables|)
      == [Block(idx, RunEnd(g, idx), BlockName(g[idx], |tables| + 1))]
         + SegmentsFrom(g, RunEnd(g, idx) + 1, |tables| + 1);
    assert tables + [Block(idx, RunEnd(g, idx), BlockName(g[idx], |tables| + 1))]
           + SegmentsFrom(g, RunEnd(g, idx) + 1, |tables| + 1)
        == tables + SegmentsFrom(g, idx, |tables|);
  }

  /** A non-empty row inside an open table extends it. */
  lemma BoundaryExtend(g: Grid, idx: nat, tables: seq<Block>, st: nat, name: string)
    requires BoundaryLoop(g, idx, tables, Some(st), name) && idx < |g| && !IsEmptyRow(g[idx])
    ensures BoundaryLoop(g, idx + 1, tables, Some(st), name)
  {
    RunEndRows(g, st);
  }

  /** An empty row outside a table is skipped. */
  lemma BoundarySkip(g: Grid, idx: nat, tables: seq<Block>, name: string)
    requires BoundaryLoop(g, idx, tables, None, name) && idx < |g| && IsEmptyRow(g[idx])
    ensures BoundaryLoop(g, idx + 1, tables, None, name)
  {
    assert SegmentsFrom(g, idx, |tables|) == SegmentsFrom(g, idx + 1, |tables|);
  }

  /** An empty row after an open table closes it at the row above. */
  lemma BoundaryClose(g: Grid, idx: nat, tables: seq<Block>, st: nat, name: string)
    requires BoundaryLoop(g, idx, tables, Some(st), name) && idx < |g| && IsEmptyRow(g[idx])
    ensures idx >= 1 && BoundaryLoop(g, idx + 1, tables + [Block(st, idx - 1, name)], None, "")
  {
    RunEndRows(g, st);
    assert idx == RunEnd(g, st) + 1;
    assert SegmentsFrom(g, idx, |tables| + 1) == SegmentsFrom(g, idx + 1, |tables| + 1);
    assert tables + [Block(st, idx - 1, name)] + SegmentsFrom(g, idx + 1, |tables| + 1) == Segments(g);
  }

  /** A table still open after the last row ends at the last row. */
  lemma BoundaryLast(g: Grid, tables: seq<Block>, st: nat, name: string)
    requires BoundaryLoop(g, |g|, tables, Some(st), name)
    ensures |g| >= 1 && tables + [Block(st, |g| - 1, name)] == Segments(g)
  {
    assert RunEnd(g, st) == |g| - 1;
    assert SegmentsFrom(g, |g|, |tables| + 1) == [];
    assert tables + [Block(st, |g| - 1, name)] + [] == Segments(g);
  }

  /** With no open table after the last row, the closed tables are all of them. */
  lemma BoundaryNoLast(g: Grid, tables: seq<Block>, name: string)
    requires BoundaryLoop(g, |g|, tables, None, name)
    ensures tables == Segments(g)
  {
    assert SegmentsFrom(g, |g|, |tables|) == [];
    assert tables + [] == Segments(g);
  }

  /** Empty rows contribute no table. */
  lemma {:induction false} SkipEmptyRows(g: Grid, i: nat, j: nat, k: nat)
    requires i <= j <= |g|
    requires forall r :: i <= r < j ==> IsEmptyRow(g[r])
    ensures SegmentsFrom(g, i, k) == SegmentsFrom(g, j, k)
    decreases j - i
  {
    if i < j {
      SkipEmptyRows(g, i + 1, j, k);
    }
  }

  /** A sheet whose only non-empty row is row `k` holds exactly one table: that
      row, named after its first non-missing value. */
  lemma SingleRowSingleBlock(g: Grid, k: nat)
    requires k < |g| && !IsEmptyRow(g[k])
    requires forall r :: 0 <= r < |g| && r != k ==> IsEmptyRow(g[r])
    ensures Segments(g) == [Block(k, k, CellText(NonEmptyCells(g[k])[0]))]
  {
    SkipEmptyRows(g, 0, k, 0);
    SkipEmptyRows(g, k + 1, |g|, 1);
    assert RunEnd(g, k) == k;
  }

  /** A sheet with no non-empty row holds no table. */
  lemma EmptySheetNoBlocks(g: Grid)
    requires forall r :: 0 <= r < |g| ==> IsEmptyRow(g[r])
    ensures Segments(g) == []
  {
    SkipEmptyRows(g, 0, |g|, 0);
  }

  // ===========================================================================
  // Table structure
  // ===========================================================================

  datatype TableType = Allocation | Metrics | Returns | Correlation | Unknown

  /** `structure`: the header row and first data row (positions inside the table), the
      non-missing count of the header row and the table type. */
  datatype Structure = Structure(headerRow: Option<nat>, dataStartRow: Option<nat>, numColumns: nat, tableType: TableType)

  const HeaderKeywords: seq<string> := ["metric", "name", "portfolio", "asset", "year", "allocation", "month"]

  function LowerTexts(cells: seq<Cell>): (t: seq<string>)
    ensures |t| == |cells|
  {
    seq(|cells|, i requires 0 <= i < |cells| => Lower(CellText(cells[i])))
  }

  /** The lower-cased non-missing values of a row, joined with single spaces. */
  function HeaderText(r: seq<Cell>): string
  {
    JoinSpace(LowerTexts(NonEmptyCells(r)))
  }

  predicate ContainsAny(text: string, words: seq<string>)
  {
    exists i :: 0 <= i < |words| && Contains(text, words[i])
  }

  /** A candidate header: at least two non-missing values whose text has a header keyword. */
  predicate LooksLikeHeader(r: seq<Cell>)
  {
    NonEmptyCount(r) >= 2 && ContainsAny(HeaderText(r), HeaderKeywords)
  }

  /** The table type of a header text: the first rule that matches wins. */
  function Classify(text: string): TableType
  {
    if Contains(text, "allocation") then Allocation
    else if Contains(text, "metric") || Contains(text, "performance") then Metrics
    else if Contains(text, "return") || Contains(text, "year") then Returns
    else if Contains(text, "correlation") then Correlation
    else Unknown
  }

  /** The type rules as an ordered list of (keywords, type) pairs. */
  const TypeRules: seq<(seq<string>, TableType)> := [
    (["allocation"], Allocation),
    (["metric", "performance"], Metrics),
    (["return", "year"], Returns),
    (["correlation"], Correlation)
  ]

  /** The type of the first rule with a keyword in `text`, or `Unknown`. */
  function FirstMatch(rules: seq<(seq<string>, TableType)>, text: string): TableType
  {
    if rules == [] then Unknown
    else if ContainsAny(text, rules[0].0) then rules[0].1
    else FirstMatch(rules[1..], text)
  }

  /** The if-chain of the classifier is first-match over the ordered rule list. */
  lemma ClassifyIsFirstMatch(text: string)
    ensures Classify(text) == FirstMatch(TypeRules, text)
  {
    var r0 := TypeRules;
    var r1 := [(["metric", "performance"], Metrics), (["return", "year"], Returns), (["correlation"], Correlation)];
    var r2 := [(["return", "year"], Returns), (["correlation"], Correlation)];
    var r3 := [(["correlation"], Correlation)];
    assert r0[1..] == r1 && r1[1..] == r2 && r2[1..] == r3 && r3[1..] == [];
    assert ContainsAny(text, ["allocation"]) <==> Contains(text, "allocation") by {
      assert ["allocation"][0] == "allocation";
    }
    assert ContainsAny(text, ["metric", "performance"]) <==> Contains(text, "metric") || Contains(text, "performance") by {
      assert ["metric", "performance"][0] == "metric";
      assert ["metric", "performance"][1] == "performance";
    }
    assert ContainsAny(text, ["return", "year"]) <==> Contains(text, "return") || Contains(text, "year") by {
      assert ["return", "year"][0] == "return";
      assert ["return", "year"][1] == "year";
    }
    assert ContainsAny(text, ["correlation"]) <==> Contains(text, "correlation") by {
      assert ["correlation"][0] == "correlation";
    }
    assert FirstMatch(r3, text) == if Contains(text, "correlation") then Correlation else Unknown;
    assert FirstMatch(r2, text) == if Contains(text, "return") || Contains(text, "year") then Returns else FirstMatch(r3, text);
    assert FirstMatch(r1, text) == if Contains(text, "metric") || Contains(text, "performance") then Metrics else FirstMatch(r2, text);
  }

  /** A header naming an allocation is an allocation table whatever else it says. */
  lemma AllocationWins(pre: string, post: string)
    ensures Classify(pre + "allocation" + post) == Allocation
  {
    ContainsSelf("allocation");
    ContainsInfix(pre, "allocation", post, "allocation");
  }

  /** The first candidate header at or after row `i`. */
  function FirstHeaderFrom(rows: seq<seq<Cell>>, i: nat): (h: Option<nat>)
    ensures h.Some? ==>
      (i <= h.value < |rows| && LooksLikeHeader(rows[h.value])
       && forall j :: i <= j < h.value ==> !LooksLikeHeader(rows[j]))
    ensures h.None? ==> forall j :: i <= j < |rows| ==> !LooksLikeHeader(rows[j])
    decreases |rows| - i
  {
    if i >= |rows| then None
    else if LooksLikeHeader(rows[i]) then Some(i)
    else FirstHeaderFrom(rows, i + 1)
  }

  /** The structure of a table: the first candidate header or else the first row. */
  function StructureOf(rows: seq<seq<Cell>>): Structure
  {
    if |rows| == 0 then Structure(None, None, 0, Unknown)
    else
      var h := match FirstHeaderFrom(rows, 0) case Some(h) => h case None => 0;
      Structure(Some(h), Some(h + 1), NonEmptyCount(rows[h]), Classify(HeaderText(rows[h])))
  }

  /**
   * `detect_table_structure`: scan the rows for the first one that looks like a
   * header; fall back to the first row; then classify the header's text.
   */
  method DetectTableStructure(rows: seq<seq<Cell>>) returns (s: Structure)
    ensures s == StructureOf(rows)
    ensures |rows| == 0 ==> s == Structure(None, None, 0, Unknown)
    ensures |rows| > 0 ==>
      s.headerRow.Some? && s.headerRow.value < |rows|
      && s.dataStartRow == Some(s.headerRow.value + 1)
      && s.numColumns == NonEmptyCount(rows[s.headerRow.value])
      && s.tableType == Classify(HeaderText(rows[s.headerRow.value]))
      && (forall j :: 0 <= j < s.headerRow.value ==> !LooksLikeHeader(rows[j]))
      && (LooksLikeHeader(rows[s.headerRow.value])
          || (s.headerRow.value == 0 && forall j :: 0 <= j < |rows| ==> !LooksLikeHeader(rows[j])))
  {
    s := Structure(None, None, 0, Unknown);
    var idx := 0;
    while idx < |rows|
      invariant 0 <= idx <= |rows|
      invariant s == Structure(None, None, 0, Unknown)
      invariant FirstHeaderFrom(rows, 0) == FirstHeaderFrom(rows, idx)
    {
      var row := rows[idx];
      var nonNanCount := NonEmptyCount(row);
      if nonNanCount >= 2 {
        var rowValues := LowerTexts(NonEmptyCells(row));
        if ContainsAny(JoinSpace(rowValues), HeaderKeywords) {
          s := Structure(Some(idx), Some(idx + 1), nonNanCount, Unknown);
          break;
        }
      }
      idx := idx + 1;
    }
    if s.headerRow.None? && |rows| > 0 {
      s := Structure(Some(0), Some(1), NonEmptyCount(rows[0]), Unknown);
    }
    if s.headerRow.Some? {
      var headerText := HeaderText(rows[s.headerRow.value]);
      s := s.(tableType := Classify(headerText));
    }
  }

  // ===========================================================================
  // Key/value tables
  // ===========================================================================

  /** One key/value row: the first non-missing value and the second one, if any. */
  datatype KvPair = KvPair(key: Cell, value: Option<Cell>)

  function RowPair(r: seq<Cell>): KvPair
    requires !IsEmptyRow(r)
  {
    var ne := NonEmptyCells(r);
    KvPair(ne[0], if |ne| >= 2 then Some(ne[1]) else None)
  }

  /** Positions `lo..hi-1` of the rows that have a non-missing value, in increasing order. */
  function NonEmptyRowsIn(rows: seq<seq<Cell>>, lo: nat, hi: nat): (ix: seq<nat>)
    requires hi <= |rows|
    ensures forall k :: 0 <= k < |ix| ==> lo <= ix[k] < hi && !IsEmptyRow(rows[ix[k]])
    ensures forall k1, k2 :: 0 <= k1 < k2 < |ix| ==> ix[k1] < ix[k2]
    ensures forall r :: lo <= r < hi && !IsEmptyRow(rows[r]) ==> r in ix
    decreases hi
  {
    if hi <= lo then []
    else NonEmptyRowsIn(rows, lo, hi - 1) + (if IsEmptyRow(rows[hi - 1]) then [] else [hi - 1])
  }

  /** The key/value pairs of a table: one per row with a non-missing value, in row order. */
  function KeyValuePairs(rows: seq<seq<Cell>>): seq<KvPair>
  {
    var ix := NonEmptyRowsIn(rows, 0, |rows|);
    seq(|ix|, k requires 0 <= k < |ix| => RowPair(rows[ix[k]]))
  }

  /** The DataFrame built from the pairs: columns Key and Value, a missing value for None. */
  function KvFrame(pairs: seq<KvPair>): Frame
  {
    if pairs == [] then EmptyFrame
    else Frame(["Key", "Value"], seq(|pairs|, k requires 0 <= k < |pairs| =>
      [pairs[k].key, match pairs[k].value case Some(v) => v case None => Empty]))
  }

  /** `parse_key_value_table`. */
  method ParseKeyValueTable(rows: seq<seq<Cell>>) returns (f: Frame)
    ensures f == KvFrame(KeyValuePairs(rows))
  {
    var dataRows: seq<KvPair> := [];
    var idx := 0;
    while idx < |rows|
      invariant 0 <= idx <= |rows|
      invariant var ix := NonEmptyRowsIn(rows, 0, idx);
        |dataRows| == |ix| && forall k :: 0 <= k < |ix| ==> dataRows[k] == RowPair(rows[ix[k]])
    {
      var nonNan := NonEmptyCells(rows[idx]);
      if |nonNan| >= 2 {
        dataRows := dataRows + [KvPair(nonNan[0], Some(nonNan[1]))];
      } else if |nonNan| == 1 {
        dataRows := dataRows + [KvPair(nonNan[0], None)];
      }
      idx := idx + 1;
    }
    assert dataRows == KeyValuePairs(rows);
    f := KvFrame(dataRows);
  }

  /**
   * The pairs are one per row with a value, in row order. The key of pair `k` is
   * the first non-missing cell of that row; its value is the next non-missing cell
   * after the key, or None when every later cell of the row is missing.
   */
  lemma KeyValuePairsSpec(rows: seq<seq<Cell>>)
    ensures var ix := NonEmptyRowsIn(rows, 0, |rows|);
      |KeyValuePairs(rows)| == |ix|
      && forall k :: 0 <= k < |ix| ==> RowPairIs(rows[ix[k]], KeyValuePairs(rows)[k])
  {
    var ix := NonEmptyRowsIn(rows, 0, |rows|);
    forall k | 0 <= k < |ix| ensures RowPairIs(rows[ix[k]], KeyValuePairs(rows)[k]) {
      RowPairSpec(rows[ix[k]]);
    }
  }

  /** `pair` is key and value of row `r` by position: the key at the first position
      holding a value, the value at the next such position if there is one. */
  predicate RowPairIs(r: seq<Cell>, pair: KvPair)
  {
    match NextValue(r, 0)
    case None => false
    case Some(p) =>
      pair.key == r[p]
      && pair.value == match NextValue(r, p + 1) case Some(q) => Some(r[q]) case None => None
  }

  /** The pair of a row with a value is its first value and the next one, if any. */
  lemma RowPairSpec(r: seq<Cell>)
    requires !IsEmptyRow(r)
    ensures RowPairIs(r, RowPair(r))
  {
    FirstValues(r);
  }

  /** A table of one row holding a single value gives one pair without a value. */
  lemma SingleValueRowPair(r: seq<Cell>, pos: nat, c: Cell)
    requires pos < |r| && r[pos] == c && c != Empty
    requires forall j :: 0 <= j < |r| && j != pos ==> r[j] == Empty
    ensures KeyValuePairs([r]) == [KvPair(c, None)]
  {
    SingleValueCells(r, pos, c);
    assert NonEmptyRowsIn([r], 0, 0) == [];
    assert NonEmptyRowsIn([r], 0, 1) == [0];
  }

  lemma {:induction false} SingleValueCells(r: seq<Cell>, pos: nat, c: Cell)
    requires pos < |r| && r[pos] == c && c != Empty
    requires forall j :: 0 <= j < |r| && j != pos ==> r[j] == Empty
    ensures NonEmptyCells(r) == [c]
  {
    if pos == 0 {
      assert IsEmptyRow(r[1..]);
    } else {
      SingleValueCells(r[1..], pos - 1, c);
    }
  }

  // ===========================================================================
  // Tabular tables
  // ===========================================================================

  /** The label of header position `i`: its value, or `Column_<i>` when missing. */
  function ColumnName(header: seq<Cell>, i: nat): string
    requires i < |header|
  {
    if header[i] != Empty then CellText(header[i]) else "Column_" + Dec(i)
  }

  /** `df[col].notna().any()` for position `j`. */
  predicate ColumnHasValue(data: seq<seq<Cell>>, j: nat)
  {
    exists k :: 0 <= k < |data| && j < |data[k]| && data[k][j] != Empty
  }

  /** Positions `0..w-1` of the columns that hold a non-missing value in some row. */
  function KeptColumns(data: seq<seq<Cell>>, w: nat): (keep: seq<nat>)
    ensures forall m :: 0 <= m < |keep| ==> keep[m] < w && ColumnHasValue(data, keep[m])
    ensures forall m1, m2 :: 0 <= m1 < m2 < |keep| ==> keep[m1] < keep[m2]
    ensures forall j :: 0 <= j < w && ColumnHasValue(data, j) ==> j in keep
  {
    if w == 0 then []
    else KeptColumns(data, w - 1) + (if ColumnHasValue(data, w - 1) then [w - 1] else [])
  }

  /** The rows restricted to the kept columns. */
  function Project(data: seq<seq<Cell>>, keep: seq<nat>): (p: seq<seq<Cell>>)
    ensures |p| == |data|
    ensures forall k :: 0 <= k < |data| ==> |p[k]| == |keep|
  {
    seq(|data|, k requires 0 <= k < |data| =>
      seq(|keep|, m requires 0 <= m < |keep| => if keep[m] < |data[k]| then data[k][keep[m]] else Empty))
  }

  /** The table rows `lo..hi-1` the parser keeps before dropping empty columns:
      those with a non-missing value, cut or padded to `w` cells, in order. */
  function DataRowsIn(rows: seq<seq<Cell>>, lo: nat, hi: nat, w: nat): (d: seq<seq<Cell>>)
    requires hi <= |rows|
    ensures |d| <= hi
    ensures forall k :: 0 <= k < |d| ==> |d[k]| == w
    decreases hi
  {
    if hi <= lo then []
    else DataRowsIn(rows, lo, hi - 1, w) + (if HasValue(rows[hi - 1]) then [Fit(rows[hi - 1], w)] else [])
  }

  /** The rows kept are exactly the rows from `lo` on that hold a value, all of them and
      in order, each cut or padded to `w` cells. */
  lemma {:induction false} DataRowsInSpec(rows: seq<seq<Cell>>, lo: nat, hi: nat, w: nat)
    requires hi <= |rows|
    ensures var ix := NonEmptyRowsIn(rows, lo, hi);
      |DataRowsIn(rows, lo, hi, w)| == |ix|
      && forall k :: 0 <= k < |ix| ==> DataRowsIn(rows, lo, hi, w)[k] == Fit(rows[ix[k]], w)
    decreases hi
  {
    if hi > lo {
      DataRowsInSpec(rows, lo, hi - 1, w);
      var d0, ix0 := DataRowsIn(rows, lo, hi - 1, w), NonEmptyRowsIn(rows, lo, hi - 1);
      if HasValue(rows[hi - 1]) {
        assert DataRowsIn(rows, lo, hi, w) == d0 + [Fit(rows[hi - 1], w)];
        assert NonEmptyRowsIn(rows, lo, hi) == ix0 + [hi - 1];
      } else {
        assert DataRowsIn(rows, lo, hi, w) == d0;
        assert NonEmptyRowsIn(rows, lo, hi) == ix0;
      }
    }
  }

  function DataRows(rows: seq<seq<Cell>>, start: nat, w: nat): seq<seq<Cell>>
  {
    DataRowsIn(rows, if start <= |rows| then start else |rows|, |rows|, w)
  }

  /** `row.notna().any()`. */
  predicate HasValue(r: seq<Cell>)
  {
    !IsEmptyRow(r)
  }

  predicate StructureFits(rows: seq<seq<Cell>>, s: Structure)
  {
    s.headerRow.Some? ==> s.headerRow.value < |rows| && s.dataStartRow.Some?
  }

  /** The tabular parse of a table: header labels, non-empty data rows, then
      all-missing columns and all-missing rows dropped. */
  function TabularFrame(rows: seq<seq<Cell>>, s: Structure): Frame
    requires StructureFits(rows, s)
  {
    if s.headerRow.None? then EmptyFrame
    else
      var header := rows[s.headerRow.value];
      var data := DataRows(rows, s.dataStartRow.value, |header|);
      if data == [] then EmptyFrame
      else KeptFrame(header, data)
  }

  /** The data rows under the header's labels, with all-missing columns and then
      all-missing rows dropped. */
  function KeptFrame(header: seq<Cell>, data: seq<seq<Cell>>): Frame
  {
    var keep := KeptColumns(data, |header|);
    Frame(ColumnNames(header, keep), Filter(Project(data, keep), HasValue))
  }

  /** The labels of the kept columns. */
  function ColumnNames(header: seq<Cell>, keep: seq<nat>): (names: seq<string>)
    requires forall m :: 0 <= m < |keep| ==> keep[m] < |header|
    ensures |names| == |keep|
    ensures forall m :: 0 <= m < |keep| ==> names[m] == ColumnName(header, keep[m])
  {
    seq(|keep|, m requires 0 <= m < |keep| => ColumnName(header, keep[m]))
  }

  /** `parse_tabular_data`. */
  method ParseTabularData(rows: seq<seq<Cell>>, s: Structure) returns (f: Frame)
    requires StructureFits(rows, s)
    ensures f == TabularFrame(rows, s)
  {
    if s.headerRow.None? {
      return EmptyFrame;
    }
    var headerRow := rows[s.headerRow.value];
    var columns: seq<string> := [];
    var i := 0;
    while i < |headerRow|
      invariant 0 <= i <= |headerRow| && |columns| == i
      invariant forall j :: 0 <= j < i ==> columns[j] == ColumnName(headerRow, j)
    {
      if headerRow[i] != Empty {
        columns := columns + [CellText(headerRow[i])];
      } else {
        columns := columns + ["Column_" + Dec(i)];
      }
      i := i + 1;
    }
    // `range(data_start, len(block_df))` is empty when the data would start past the end
    var start := if s.dataStartRow.value <= |rows| then s.dataStartRow.value else |rows|;
    var dataRows: seq<seq<Cell>> := [];
    var idx := start;
    while idx < |rows|
      invariant start <= idx <= |rows|
      invariant dataRows == DataRowsIn(rows, start, idx, |columns|)
    {
      var row := rows[idx];
      if HasValue(row) {
        dataRows := dataRows + [Fit(row, |columns|)];
      }
      idx := idx + 1;
    }
    assert dataRows == DataRows(rows, s.dataStartRow.value, |headerRow|);
    if dataRows != [] {
      var keep := KeptColumns(dataRows, |columns|);
      var names := seq(|keep|, m requires 0 <= m < |keep| => columns[keep[m]]);
      assert names == ColumnNames(headerRow, keep);
      f := Frame(names, Filter(Project(dataRows, keep), HasValue));
    } else {
      f := EmptyFrame;
    }
  }

  /** A tabular parse keeps no all-missing row, and every row has one cell per column. */
  lemma TabularRowsHaveValues(rows: seq<seq<Cell>>, s: Structure)
    requires StructureFits(rows, s)
    ensures var f := TabularFrame(rows, s);
      f.Rectangular() && forall k :: 0 <= k < |f.rows| ==> !IsEmptyRow(f.rows[k])
  {
    var f := TabularFrame(rows, s);
    if s.headerRow.Some? {
      var header := rows[s.headerRow.value];
      var data := DataRows(rows, s.dataStartRow.value, |header|);
      if data != [] {
        var keep := KeptColumns(data, |header|);
        var p := Project(data, keep);
        forall k | 0 <= k < |f.rows| ensures |f.rows[k]| == |f.columns| {
          assert f.rows[k] in p;
        }
      }
    }
  }

  /** A tabular parse keeps no all-missing column: each column has a value in some kept row. */
  lemma TabularColumnsHaveValues(rows: seq<seq<Cell>>, s: Structure)
    requires StructureFits(rows, s)
    ensures var f := TabularFrame(rows, s);
      forall m :: 0 <= m < |f.columns| ==> ColumnHasValue(f.rows, m)
  {
    var f := TabularFrame(rows, s);
    if s.headerRow.Some? {
      var header := rows[s.headerRow.value];
      var data := DataRows(rows, s.dataStartRow.value, |header|);
      if data != [] {
        var keep := KeptColumns(data, |header|);
        var p := Project(data, keep);
        forall m | 0 <= m < |f.columns| ensures ColumnHasValue(f.rows, m) {
          var d :| 0 <= d < |data| && keep[m] < |data[d]| && data[d][keep[m]] != Empty;
          assert p[d][m] != Empty;
          assert HasValue(p[d]);
          assert p[d] in f.rows;
          var k :| 0 <= k < |f.rows| && f.rows[k] == p[d];
        }
      }
    }
  }

  /** The column indices `0..w-1` in order. */
  function Iota(w: nat): (r: seq<nat>)
    ensures |r| == w && forall j :: 0 <= j < w ==> r[j] == j
  {
    if w == 0 then [] else Iota(w - 1) + [w - 1]
  }

  /** When every column has a value somewhere, no column is dropped. */
  lemma {:induction false} KeptColumnsAll(data: seq<seq<Cell>>, w: nat)
    requires forall j :: 0 <= j < w ==> ColumnHasValue(data, j)
    ensures KeptColumns(data, w) == Iota(w)
  {
    if w > 0 {
      KeptColumnsAll(data, w - 1);
      assert ColumnHasValue(data, w - 1);
    }
  }

  /** Projecting onto every column changes nothing. */
  lemma ProjectAll(data: seq<seq<Cell>>, w: nat)
    requires forall k :: 0 <= k < |data| ==> |data[k]| == w
    ensures Project(data, Iota(w)) == data
  {
    var p := Project(data, Iota(w));
    forall k | 0 <= k < |data| ensures p[k] == data[k] {
      assert |p[k]| == w;
    }
  }

  lemma FullDataRows(header: seq<Cell>, r1: seq<Cell>, r2: seq<Cell>)
    requires |header| > 0 && |r1| == |header| && |r2| == |header|
    requires r1[0] != Empty && r2[0] != Empty
    ensures DataRows([header, r1, r2], 1, |header|) == [r1, r2]
  {
    var rows := [header, r1, r2];
    var w := |header|;
    assert HasValue(r1) && HasValue(r2);
    assert Fit(r1, w) == r1 && Fit(r2, w) == r2;
    assert DataRowsIn(rows, 1, 1, w) == [];
    assert DataRowsIn(rows, 1, 2, w) == [r1];
  }

  /** A fully filled table of a header and two rows parses back to exactly those rows
      under the header's labels. */
  lemma FullTableRoundTrip(header: seq<Cell>, r1: seq<Cell>, r2: seq<Cell>, s: Structure)
    requires |header| > 0 && |r1| == |header| && |r2| == |header|
    requires forall j :: 0 <= j < |header| ==> header[j] != Empty && r1[j] != Empty && r2[j] != Empty
    requires s.headerRow == Some(0) && s.dataStartRow == Some(1)
    ensures StructureFits([header, r1, r2], s)
    ensures TabularFrame([header, r1, r2], s)
      == Frame(seq(|header|, j requires 0 <= j < |header| => CellText(header[j])), [r1, r2])
  {
    var rows := [header, r1, r2];
    FullDataRows(header, r1, r2);
    FullRowsKept(|header|, r1, r2);
    TabularFrameKept(rows, s);
    assert rows[0] == header;
    KeptFrameFull(header, [r1, r2]);
  }

  /** A tabular parse with some data row is the kept frame of its data rows. */
  lemma TabularFrameKept(rows: seq<seq<Cell>>, s: Structure)
    requires StructureFits(rows, s) && s.headerRow.Some?
    requires DataRows(rows, s.dataStartRow.value, |rows[s.headerRow.value]|) != []
    ensures TabularFrame(rows, s)
      == KeptFrame(rows[s.headerRow.value], DataRows(rows, s.dataStartRow.value, |rows[s.headerRow.value]|))
  {
  }

  /** Two fully filled rows lose no column and no row. */
  lemma FullRowsKept(w: nat, r1: seq<Cell>, r2: seq<Cell>)
    requires w > 0 && |r1| == w && |r2| == w
    requires forall j :: 0 <= j < w ==> r1[j] != Empty && r2[j] != Empty
    ensures KeptColumns([r1, r2], w) == Iota(w)
    ensures Filter(Project([r1, r2], Iota(w)), HasValue) == [r1, r2]
  {
    var data := [r1, r2];
    forall j | 0 <= j < w ensures ColumnHasValue(data, j) {
      assert data[0][j] != Empty;
    }
    KeptColumnsAll(data, w);
    ProjectAll(data, w);
    assert HasValue(r1) && HasValue(r2);
    FilterAll(data, HasValue);
  }

  /** When no column and no row is dropped, the kept frame is the data under the
      header's labels. */
  lemma KeptFrameFull(header: seq<Cell>, data: seq<seq<Cell>>)
    requires KeptColumns(data, |header|) == Iota(|header|)
    requires Filter(Project(data, Iota(|header|)), HasValue) == data
    requires forall j :: 0 <= j < |header| ==> header[j] != Empty
    ensures KeptFrame(header, data)
      == Frame(seq(|header|, j requires 0 <= j < |header| => CellText(header[j])), data)
  {
    LabelsAllNamed(header);
  }

  /** With every header cell filled, the labels of all columns are the header's texts. */
  lemma LabelsAllNamed(header: seq<Cell>)
    requires forall j :: 0 <= j < |header| ==> header[j] != Empty
    ensures ColumnNames(header, Iota(|header|))
      == seq(|header|, j requires 0 <= j < |header| => CellText(header[j]))
  {
  }

  // ===========================================================================
  // All tables of a sheet
  // ===========================================================================

  /** The parse of one table: key/value when its header has at most two values and
      no recognised type, tabular otherwise. */
  function ParseBlock(rows: seq<seq<Cell>>): Frame
  {
    var s := StructureOf(rows);
    if s.numColumns <= 2 && s.tableType == Unknown then KvFrame(KeyValuePairs(rows))
    else TabularFrame(rows, s)
  }

  /** The parse of every block of the sheet, in order. */
  function BlockFrames(g: Grid, bs: seq<Block>): (fs: seq<Frame>)
    requires BlocksInside(g, 0, bs)
    ensures |fs| == |bs|
    ensures forall t :: 0 <= t < |bs| ==> fs[t] == ParseBlock(g[bs[t].start..bs[t].end + 1])
  {
    seq(|bs|, t requires 0 <= t < |bs| && BlocksInside(g, 0, bs) => ParseBlock(g[bs[t].start..bs[t].end + 1]))
  }

  /** The body of the loop of `parse_all_tables` for table `t`: detect its structure,
      then parse it as key/value or tabular data. */
  method ParseTable(g: Grid, bs: seq<Block>, t: nat) returns (parsedDf: Frame)
    requires BlocksInside(g, 0, bs) && t < |bs|
    ensures parsedDf == ParseBlock(g[bs[t].start..bs[t].end + 1]) == BlockFrames(g, bs)[t]
  {
    var subset := g[bs[t].start..bs[t].end + 1];
    var structure := DetectTableStructure(subset);
    if structure.numColumns <= 2 && structure.tableType == Unknown {
      parsedDf := ParseKeyValueTable(subset);
    } else {
      parsedDf := ParseTabularData(subset, structure);
    }
  }

  function BlockNames(bs: seq<Block>): (ns: seq<string>)
    ensures |ns| == |bs|
  {
    seq(|bs|, i requires 0 <= i < |bs| => bs[i].name)
  }

  /** The dictionary key of table number `tableNum`: its stripped name, suffixed with
      `_<tableNum>` when that name is already taken. */
  function TableKey(d: Tables, rawName: string, tableNum: nat): string
  {
    var name := Strip(rawName);
    if name in Keys(d) then name + "_" + Dec(tableNum) else name
  }

  ghost predicate AllNonEmpty(d: Tables)
  {
    forall i :: 0 <= i < |d| ==> !d[i].val.IsEmpty()
  }

  /** Adding tables `i..` (raw names and parsed frames) to the dictionary `acc`, in order;
      table `i` is table number `i + 1`. */
  function Assemble(names: seq<string>, frames: seq<Frame>, i: nat, acc: Tables): (r: Tables)
    requires |names| == |frames| && i <= |names| && UniqueKeys(acc)
    ensures UniqueKeys(r)
    decreases |names| - i
  {
    if i == |names| then acc
    else Assemble(names, frames, i + 1, AddTable(acc, names[i], i + 1, frames[i]))
  }

  /** The dictionary after table number `tableNum` has been parsed into `f`: an empty
      table is dropped, any other is stored under `TableKey`. */
  function AddTable(acc: Tables, rawName: string, tableNum: nat, f: Frame): (r: Tables)
    requires UniqueKeys(acc)
    ensures UniqueKeys(r)
  {
    if f.IsEmpty() then acc else Assign(acc, TableKey(acc, rawName, tableNum), f)
  }

  lemma AssembleStep(names: seq<string>, frames: seq<Frame>, i: nat, acc: Tables)
    requires |names| == |frames| && i < |names| && UniqueKeys(acc)
    ensures Assemble(names, frames, i, acc) == Assemble(names, frames, i + 1,
      if frames[i].IsEmpty() then acc else Assign(acc, TableKey(acc, names[i], i + 1), frames[i]))
  {
    assert Assemble(names, frames, i, acc) == Assemble(names, frames, i + 1, AddTable(acc, names[i], i + 1, frames[i]));
  }

  /** An empty table is skipped. */
  lemma AssembleSkip(names: seq<string>, frames: seq<Frame>, i: nat, acc: Tables)
    requires |names| == |frames| && i < |names| && UniqueKeys(acc) && frames[i].IsEmpty()
    ensures Assemble(names, frames, i, acc) == Assemble(names, frames, i + 1, acc)
  {
  }

  /** Only non-empty tables are ever stored, and each table adds at most one entry. */
  lemma {:induction false} AssembleKeepsNonEmpty(names: seq<string>, frames: seq<Frame>, i: nat, acc: Tables)
    requires |names| == |frames| && i <= |names| && UniqueKeys(acc) && AllNonEmpty(acc)
    ensures AllNonEmpty(Assemble(names, frames, i, acc))
    ensures |acc| <= |Assemble(names, frames, i, acc)| <= |acc| + (|names| - i)
    decreases |names| - i
  {
    if i < |names| {
      var next := AddTable(acc, names[i], i + 1, frames[i]);
      AddTableNonEmpty(acc, names[i], i + 1, frames[i]);
      AssembleKeepsNonEmpty(names, frames, i + 1, next);
    }
  }

  /** Adding one table stores it only when it is non-empty, and adds at most one entry. */
  lemma AddTableNonEmpty(acc: Tables, rawName: string, tableNum: nat, f: Frame)
    requires UniqueKeys(acc) && AllNonEmpty(acc)
    ensures AllNonEmpty(AddTable(acc, rawName, tableNum, f))
    ensures |acc| <= |AddTable(acc, rawName, tableNum, f)| <= |acc| + 1
  {
    if !f.IsEmpty() {
      var r := Assign(acc, TableKey(acc, rawName, tableNum), f);
      forall i | 0 <= i < |r|
        ensures !r[i].val.IsEmpty()
      {
        assert r[i].val == f || (i < |acc| && r[i] == acc[i]);
      }
    }
  }

  /** `parse_all_tables` on a loaded sheet. */
  function AllTables(g: Grid): Tables
  {
    var bs := Segments(g);
    Assemble(BlockNames(bs), BlockFrames(g, bs), 0, [])
  }

  /** The dictionary of a sheet has unique names, only non-empty tables, and at most
      one table per block. */
  lemma AllTablesWellFormed(g: Grid)
    ensures UniqueKeys(AllTables(g)) && AllNonEmpty(AllTables(g))
    ensures |AllTables(g)| <= |Segments(g)|
  {
    var bs := Segments(g);
    AssembleKeepsNonEmpty(BlockNames(bs), BlockFrames(g, bs), 0, []);
  }

  /**
   * `parse_all_tables`: find the tables, then parse each one as key/value or
   * tabular data and keep the non-empty ones under unique names.
   */
  method ParseAllTables(g: Grid) returns (parsed: Tables)
    ensures parsed == AllTables(g)
  {
    var boundaries := IdentifyTableBoundaries(g);
    parsed := ParseBlocks(g, boundaries);
  }

  /** The loop of `parse_all_tables` over the blocks `bs` of the sheet. */
  method ParseBlocks(g: Grid, bs: seq<Block>) returns (parsed: Tables)
    requires BlocksInside(g, 0, bs)
    ensures parsed == Assemble(BlockNames(bs), BlockFrames(g, bs), 0, [])
  {
    ghost var names := BlockNames(bs);
    ghost var frames := BlockFrames(g, bs);
    parsed := [];
    ghost var target := Assemble(names, frames, 0, []);
    AssembleLoopInit(names, frames);
    var t: nat := 0;
    while t < |bs|
      invariant t <= |bs| && AssembleLoop(names, frames, t, parsed, target)
    {
      var parsedDf := ParseTable(g, bs, t);
      ghost var before := parsed;
      parsed := KeepTable(parsed, bs[t].name, t + 1, parsedDf);
      AssembleLoopStep(names, frames, t, before, target, parsed);
      t := t + 1;
    }
    AssembleLoopDone(names, frames, parsed, target);
  }

  /** The loop state of `parse_all_tables`: adding the remaining tables to `parsed`
      gives the final dictionary. */
  ghost predicate AssembleLoop(names: seq<string>, frames: seq<Frame>, t: nat, parsed: Tables, target: Tables)
  {
    |names| == |frames| && t <= |names| && UniqueKeys(parsed) && Assemble(names, frames, t, parsed) == target
  }

  lemma AssembleLoopStep(names: seq<string>, frames: seq<Frame>, t: nat, parsed: Tables, target: Tables,
                         next: Tables)
    requires AssembleLoop(names, frames, t, parsed, target) && t < |names|
    requires next == AddTable(parsed, names[t], t + 1, frames[t])
    ensures AssembleLoop(names, frames, t + 1, next, target)
  {
  }

  /** One table of `parse_all_tables`: its stripped name, suffixed with `_<tableNum>`
      when taken, receives the parsed frame unless that frame is empty. */
  method KeepTable(parsed: Tables, rawName: string, tableNum: nat, parsedDf: Frame) returns (next: Tables)
    requires UniqueKeys(parsed)
    ensures next == AddTable(parsed, rawName, tableNum, parsedDf)
  {
    var tableName := Strip(rawName);
    if tableName in Keys(parsed) {
      tableName := tableName + "_" + Dec(tableNum);
    }
    next := parsed;
    if !parsedDf.IsEmpty() {
      next := Assign(parsed, tableName, parsedDf);
    }
  }

  lemma AssembleLoopInit(names: seq<string>, frames: seq<Frame>)
    requires |names| == |frames|
    ensures AssembleLoop(names, frames, 0, [], Assemble(names, frames, 0, []))
  {
  }

  lemma AssembleLoopDone(names: seq<string>, frames: seq<Frame>, parsed: Tables, target: Tables)
    requires AssembleLoop(names, frames, |names|, parsed, target)
    ensures parsed == target
  {
  }

  /** The dictionary as it would be if no two tables shared a stripped name: every
      non-empty table of `i..` under its own stripped name, in order. */
  function FreshAssembly(names: seq<string>, frames: seq<Frame>, i: nat): Tables
    requires |names| == |frames| && i <= |names|
    decreases |names| - i
  {
    if i == |names| then []
    else FreshEntry(names[i], frames[i]) + FreshAssembly(names, frames, i + 1)
  }

  lemma FreshSkip(names: seq<string>, frames: seq<Frame>, i: nat)
    requires |names| == |frames| && i < |names| && frames[i].IsEmpty()
    ensures FreshAssembly(names, frames, i) == FreshAssembly(names, frames, i + 1)
  {
    var rest := FreshAssembly(names, frames, i + 1);
    assert FreshEntry(names[i], frames[i]) == [];
    assert [] + rest == rest;
  }

  /** Table `f` under its own stripped name, or nothing when it is empty. */
  function FreshEntry(rawName: string, f: Frame): (r: Tables)
    ensures f.IsEmpty() <==> r == []
    ensures !f.IsEmpty() ==> r == [Entry(Strip(rawName), f)]
  {
    if f.IsEmpty() then [] else [Entry(Strip(rawName), f)]
  }

  ghost predicate DistinctNamesFrom(names: seq<string>, i: nat)
  {
    forall j1, j2 :: i <= j1 < j2 < |names| ==> Strip(names[j1]) != Strip(names[j2])
  }

  lemma AssignFresh(acc: Tables, name: string, f: Frame)
    requires UniqueKeys(acc) && name !in Keys(acc)
    ensures Assign(acc, name, f) == acc + [Entry(name, f)]
    ensures UniqueKeys(acc + [Entry(name, f)])
    ensures Keys(acc + [Entry(name, f)]) == Keys(acc) + [name]
  {
  }

  lemma NotInAppend<T>(x: T, s: seq<T>, y: T)
    requires x !in s && x != y
    ensures x !in s + [y]
  {
  }

  lemma AppendAssoc<T>(a: seq<T>, b: seq<T>, c: seq<T>)
    ensures a + b + c == a + (b + c)
  {
  }

  /** One step of `AssembleDistinct` for a non-empty table: it is added under its own name. */
  lemma AssembleFreshStep(names: seq<string>, frames: seq<Frame>, i: nat, acc: Tables)
    requires |names| == |frames| && i < |names| && UniqueKeys(acc)
    requires DistinctNamesFrom(names, i) && !frames[i].IsEmpty()
    requires forall j :: i <= j < |names| ==> Strip(names[j]) !in Keys(acc)
    ensures var next := acc + [Entry(Strip(names[i]), frames[i])];
      UniqueKeys(next)
      && (forall j :: i + 1 <= j < |names| ==> Strip(names[j]) !in Keys(next))
      && Assemble(names, frames, i, acc) == Assemble(names, frames, i + 1, next)
  {
    var name := Strip(names[i]);
    assert TableKey(acc, names[i], i + 1) == name;
    AssembleStep(names, frames, i, acc);
    AssignFresh(acc, name, frames[i]);
    forall j | i + 1 <= j < |names| ensures Strip(names[j]) !in Keys(acc) + [name] {
      NotInAppend(Strip(names[j]), Keys(acc), name);
    }
  }

  lemma {:induction false} AssembleDistinct(names: seq<string>, frames: seq<Frame>, i: nat, acc: Tables)
    requires |names| == |frames| && i <= |names| && UniqueKeys(acc)
    requires DistinctNamesFrom(names, i)
    requires forall j :: i <= j < |names| ==> Strip(names[j]) !in Keys(acc)
    ensures Assemble(names, frames, i, acc) == acc + FreshAssembly(names, frames, i)
    decreases |names| - i, 1
  {
    if i < |names| {
      if frames[i].IsEmpty() {
        AssembleDistinctSkip(names, frames, i, acc);
      } else {
        AssembleDistinctAdd(names, frames, i, acc);
      }
    }
  }

  lemma {:induction false} AssembleDistinctSkip(names: seq<string>, frames: seq<Frame>, i: nat, acc: Tables)
    requires |names| == |frames| && i < |names| && UniqueKeys(acc)
    requires DistinctNamesFrom(names, i) && frames[i].IsEmpty()
    requires forall j :: i <= j < |names| ==> Strip(names[j]) !in Keys(acc)
    ensures Assemble(names, frames, i, acc) == acc + FreshAssembly(names, frames, i)
    decreases |names| - i, 0
  {
    AssembleSkip(names, frames, i, acc);
    AssembleDistinct(names, frames, i + 1, acc);
    FreshSkip(names, frames, i);
  }

  lemma {:induction false} AssembleDistinctAdd(names: seq<string>, frames: seq<Frame>, i: nat, acc: Tables)
    requires |names| == |frames| && i < |names| && UniqueKeys(acc)
    requires DistinctNamesFrom(names, i) && !frames[i].IsEmpty()
    requires forall j :: i <= j < |names| ==> Strip(names[j]) !in Keys(acc)
    ensures Assemble(names, frames, i, acc) == acc + FreshAssembly(names, frames, i)
    decreases |names| - i, 0
  {
    var e := Entry(Strip(names[i]), frames[i]);
    AssembleFreshStep(names, frames, i, acc);
    AssembleDistinct(names, frames, i + 1, acc + [e]);
    AppendAssoc(acc, [e], FreshAssembly(names, frames, i + 1));
  }

  /** When no two tables of the sheet share a stripped name, no table is renamed or
      overwritten: the dictionary holds every non-empty table under its stripped name,
      in sheet order. */
  lemma AllTablesDistinct(g: Grid)
    requires DistinctNamesFrom(BlockNames(Segments(g)), 0)
    ensures AllTables(g) == FreshAssembly(BlockNames(Segments(g)), BlockFrames(g, Segments(g)), 0)
  {
    var bs := Segments(g);
    AssembleDistinct(BlockNames(bs), BlockFrames(g, bs), 0, []);
  }

  /** The `_<n>` suffix does not always give a fresh key: with tables `A` and `A_3`
      already parsed, a third table named `A` is stored under `A_3` and replaces the
      table that had that name. */
  lemma RenameCanOverwrite(f1: Frame, f2: Frame, f3: Frame)
    ensures var acc := [Entry("A", f1), Entry("A_3", f2)];
      TableKey(acc, "A", 3) == "A_3"
      && Assign(acc, TableKey(acc, "A", 3), f3) == [Entry("A", f1), Entry("A_3", f3)]
  {
    var acc := [Entry("A", f1), Entry("A_3", f2)];
    assert Strip("A") == "A";
    assert Dec(3) == "3";
    assert Keys(acc) == ["A", "A_3"];
    assert IndexOfKey(acc, "A_3") == 1;
  }
}
