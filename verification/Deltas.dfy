/** Sparse edits of one segment, as an ordered map and as a list of rows, and what both mean. */
module Deltas {
  import opened WireFormat
  import opened LinearAlgebra

  /** Non-zero edits keyed by `(row, cell offset)`. */
  type DeltaMap = map<(nat, nat), int>

  // ---------- meaning ----------

  /** The edit of one cell. */
  function MapAt(m: DeltaMap, row: nat, off: nat): int {
    if (row, off) in m then m[(row, off)] else 0
  }

  /** The sum of the edits at one offset. */
  function CellsAt(cells: seq<Cell>, off: nat): int {
    if cells == [] then 0
    else
      var last := cells[|cells| - 1];
      CellsAt(cells[..|cells| - 1], off) + (if last.offset == off then last.delta else 0)
  }

  /** The sum of the edits of one cell. */
  function RowsAt(rows: SegmentRowDeltas, row: nat, off: nat): int {
    if rows == [] then 0
    else
      var last := rows[|rows| - 1];
      RowsAt(rows[..|rows| - 1], row, off) + (if last.row == row then CellsAt(last.cells, off) else 0)
  }

  /** The edits written out cell by cell. */
  function MapDense(m: DeltaMap, rows: nat, width: nat): (r: seq<Vector>)
    ensures |r| == rows && forall i :: 0 <= i < rows ==> |r[i]| == width
    ensures forall i, j :: 0 <= i < rows && 0 <= j < width ==> r[i][j] == MapAt(m, i, j)
  {
    seq(rows, i requires 0 <= i < rows => seq(width, j requires 0 <= j < width => MapAt(m, i, j)))
  }

  function RowsDense(deltas: SegmentRowDeltas, rows: nat, width: nat): (r: seq<Vector>)
    ensures |r| == rows && forall i :: 0 <= i < rows ==> |r[i]| == width
    ensures forall i, j :: 0 <= i < rows && 0 <= j < width ==> r[i][j] == RowsAt(deltas, i, j)
  {
    seq(rows, i requires 0 <= i < rows => seq(width, j requires 0 <= j < width => RowsAt(deltas, i, j)))
  }

  ghost predicate ZeroFree(m: DeltaMap) {
    forall k :: k in m ==> m[k] != 0
  }

  // ---------- canonical lists ----------

  lemma {:induction false} AbsentOffset(cells: seq<Cell>, off: nat)
    requires forall i :: 0 <= i < |cells| ==> cells[i].offset != off
    ensures CellsAt(cells, off) == 0
  {
    if cells != [] { AbsentOffset(cells[..|cells| - 1], off); }
  }

  lemma {:induction false} AbsentRow(rows: SegmentRowDeltas, row: nat, off: nat)
    requires forall i :: 0 <= i < |rows| ==> rows[i].row != row
    ensures RowsAt(rows, row, off) == 0
  {
    if rows != [] { AbsentRow(rows[..|rows| - 1], row, off); }
  }

  lemma {:induction false} CellsAtEntry(cells: seq<Cell>, i: nat)
    requires Ascending(cells) && i < |cells|
    ensures CellsAt(cells, cells[i].offset) == cells[i].delta
  {
    var n := |cells| - 1;
    if i == n {
      AbsentOffset(cells[..n], cells[n].offset);
    } else {
      CellsAtEntry(cells[..n], i);
    }
  }

  /** Below the offset of edit `k`, only the edits before it count. */
  lemma {:induction false} EarlierOffset(cells: seq<Cell>, k: nat, off: nat)
    requires Ascending(cells) && k <= |cells| && (k < |cells| ==> off < cells[k].offset)
    ensures CellsAt(cells, off) == CellsAt(cells[..k], off)
    decreases |cells|
  {
    if k == |cells| {
      assert cells[..k] == cells;
    } else {
      var n := |cells| - 1;
      assert cells[..n][..k] == cells[..k];
      EarlierOffset(cells[..n], k, off);
    }
  }

  ghost predicate AscendingRows(rows: SegmentRowDeltas) {
    forall i, k :: 0 <= i < k < |rows| ==> rows[i].row < rows[k].row
  }

  lemma {:induction false} RowsAtEntry(rows: SegmentRowDeltas, i: nat, off: nat)
    requires AscendingRows(rows) && i < |rows|
    ensures RowsAt(rows, rows[i].row, off) == CellsAt(rows[i].cells, off)
  {
    var n := |rows| - 1;
    if i == n {
      AbsentRow(rows[..n], rows[n].row, off);
    } else {
      RowsAtEntry(rows[..n], i, off);
    }
  }

  /** Where a canonical list has an edit, its meaning is non-zero, and conversely. */
  lemma {:induction false} CellsSupport(cells: seq<Cell>, off: nat, l: DeltaWireLayout)
    requires CanonicalCells(cells, l)
    ensures CellsAt(cells, off) != 0 <==> exists i :: 0 <= i < |cells| && cells[i].offset == off
  {
    if i :| 0 <= i < |cells| && cells[i].offset == off {
      CellsAtEntry(cells, i);
      assert CellInRange(cells[i], l);
    } else {
      AbsentOffset(cells, off);
    }
  }

  lemma {:induction false} RowSupport(rows: SegmentRowDeltas, row: nat, l: DeltaWireLayout)
    requires CanonicalSegment(rows, l)
    ensures (exists off :: RowsAt(rows, row, off) != 0) <==> exists i :: 0 <= i < |rows| && rows[i].row == row
  {
    if i :| 0 <= i < |rows| && rows[i].row == row {
      var off := rows[i].cells[0].offset;
      RowsAtEntry(rows, i, off);
      CellsSupport(rows[i].cells, off, l);
      assert RowsAt(rows, row, off) != 0;
    } else {
      forall off ensures RowsAt(rows, row, off) == 0 { AbsentRow(rows, row, off); }
    }
  }

  lemma {:induction false} NoCells(cells: seq<Cell>, l: DeltaWireLayout)
    requires cells == [] || CanonicalCells(cells, l)
    requires forall off :: CellsAt(cells, off) == CellsAt([], off)
    ensures cells == []
  {
    if cells != [] { CellsSupport(cells, cells[0].offset, l); }
  }

  lemma {:induction false} NoRows(rows: SegmentRowDeltas, l: DeltaWireLayout)
    requires CanonicalSegment(rows, l)
    requires forall row, off :: RowsAt(rows, row, off) == RowsAt([], row, off)
    ensures rows == []
  {
    if rows != [] { RowSupport(rows, rows[0].row, l); }
  }

  /** Ascending cell lists with the same meaning are the same list. */
  lemma {:induction false} CellsUnique(a: seq<Cell>, b: seq<Cell>, l: DeltaWireLayout)
    requires (a == [] || CanonicalCells(a, l)) && (b == [] || CanonicalCells(b, l))
    requires forall off :: CellsAt(a, off) == CellsAt(b, off)
    ensures a == b
    decreases |a|
  {
    if a == [] {
      NoCells(b, l);
    } else if b == [] {
      NoCells(a, l);
    } else {
      var x, y := a[|a| - 1], b[|b| - 1];
      CellsSupport(a, x.offset, l);
      CellsSupport(b, x.offset, l);
      CellsSupport(a, y.offset, l);
      CellsSupport(b, y.offset, l);
      assert CellsAt(a, x.offset) == CellsAt(b, x.offset) && CellsAt(a, y.offset) == CellsAt(b, y.offset);
      assert x.offset == y.offset;
      CellsAtEntry(a, |a| - 1);
      CellsAtEntry(b, |b| - 1);
      assert x == y;
      var a', b' := a[..|a| - 1], b[..|b| - 1];
      forall off ensures CellsAt(a', off) == CellsAt(b', off) { assert CellsAt(a, off) == CellsAt(b, off); }
      CellsUnique(a', b', l);
      assert a == a' + [x] && b == b' + [y];
    }
  }

  /** Canonical segments with the same meaning are the same list. */
  lemma {:induction false} SegmentUnique(a: SegmentRowDeltas, b: SegmentRowDeltas, l: DeltaWireLayout)
    requires CanonicalSegment(a, l) && CanonicalSegment(b, l)
    requires forall row, off :: RowsAt(a, row, off) == RowsAt(b, row, off)
    ensures a == b
    decreases |a|
  {
    if a == [] {
      NoRows(b, l);
    } else if b == [] {
      NoRows(a, l);
    } else {
      var x, y := a[|a| - 1], b[|b| - 1];
      SameLastRow(a, b, l);
      forall off ensures CellsAt(x.cells, off) == CellsAt(y.cells, off) {
        RowsAtEntry(a, |a| - 1, off);
        RowsAtEntry(b, |b| - 1, off);
        assert RowsAt(a, x.row, off) == RowsAt(b, x.row, off);
      }
      CellsUnique(x.cells, y.cells, l);
      var a', b' := a[..|a| - 1], b[..|b| - 1];
      forall row, off ensures RowsAt(a', row, off) == RowsAt(b', row, off) {
        assert RowsAt(a, row, off) == RowsAt(b, row, off);
      }
      SegmentUnique(a', b', l);
      assert a == a' + [x] && b == b' + [y];
    }
  }

  lemma {:induction false} SameLastRow(a: SegmentRowDeltas, b: SegmentRowDeltas, l: DeltaWireLayout)
    requires a != [] && b != [] && CanonicalSegment(a, l) && CanonicalSegment(b, l)
    requires forall row, off :: RowsAt(a, row, off) == RowsAt(b, row, off)
    ensures a[|a| - 1].row == b[|b| - 1].row
  {
    LastRowWithin(a, b, l);
    LastRowWithin(b, a, l);
  }

  lemma {:induction false} RowHolding(rows: SegmentRowDeltas, row: nat, off: nat) returns (i: nat)
    requires RowsAt(rows, row, off) != 0
    ensures i < |rows| && rows[i].row == row
  {
    if forall k :: 0 <= k < |rows| ==> rows[k].row != row { AbsentRow(rows, row, off); }
    i :| 0 <= i < |rows| && rows[i].row == row;
  }

  lemma {:induction false} LastRowWithin(a: SegmentRowDeltas, b: SegmentRowDeltas, l: DeltaWireLayout)
    requires a != [] && b != [] && CanonicalSegment(a, l) && CanonicalSegment(b, l)
    requires forall row, off :: RowsAt(a, row, off) == RowsAt(b, row, off)
    ensures a[|a| - 1].row <= b[|b| - 1].row
  {
    var x := a[|a| - 1];
    RowSupport(a, x.row, l);
    var off :| RowsAt(a, x.row, off) != 0;
    assert RowsAt(b, x.row, off) != 0;
    var i := RowHolding(b, x.row, off);
    assert i < |b| - 1 ==> b[i].row < b[|b| - 1].row;
  }

  // ---------- merging ----------

  predicate FitsI64(x: int) { -0x8000_0000_0000_0000 <= x < 0x8000_0000_0000_0000 }

  /** Fold one edit in; false when the sum overflows an i64. */
  function MergeCell(m: DeltaMap, key: (nat, nat), delta: int): (DeltaMap, bool) {
    if key !in m then (if delta != 0 then m[key := delta] else m, true)
    else
      var sum := m[key] + delta;
      if !FitsI64(sum) then (m, false)
      else if sum == 0 then (m - {key}, true)
      else (m[key := sum], true)
  }

  function MergeCells(m: DeltaMap, row: nat, cells: seq<Cell>): (DeltaMap, bool) {
    if cells == [] then (m, true)
    else
      var (m', ok) := MergeCells(m, row, cells[..|cells| - 1]);
      var last := cells[|cells| - 1];
      if !ok then (m', false) else MergeCell(m', (row, last.offset), last.delta)
  }

  function MergeRows(m: DeltaMap, rows: SegmentRowDeltas): (DeltaMap, bool) {
    if rows == [] then (m, true)
    else
      var (m', ok) := MergeRows(m, rows[..|rows| - 1]);
      var last := rows[|rows| - 1];
      if !ok then (m', false) else MergeCells(m', last.row, last.cells)
  }

  /** A successful merge adds the meanings and leaves no zero entry. */
  lemma {:induction false} MergeCellsAdds(m: DeltaMap, row: nat, cells: seq<Cell>)
    requires ZeroFree(m)
    ensures ZeroFree(MergeCells(m, row, cells).0)
    ensures MergeCells(m, row, cells).1 ==> forall r, j ::
              MapAt(MergeCells(m, row, cells).0, r, j) == MapAt(m, r, j) + (if r == row then CellsAt(cells, j) else 0)
  {
    if cells != [] { MergeCellsAdds(m, row, cells[..|cells| - 1]); }
  }

  lemma {:induction false} MergeRowsAdds(m: DeltaMap, rows: SegmentRowDeltas)
    requires ZeroFree(m)
    ensures ZeroFree(MergeRows(m, rows).0)
    ensures MergeRows(m, rows).1 ==> forall r, j ::
              MapAt(MergeRows(m, rows).0, r, j) == MapAt(m, r, j) + RowsAt(rows, r, j)
  {
    if rows != [] {
      var n := |rows| - 1;
      MergeRowsAdds(m, rows[..n]);
      MergeCellsAdds(MergeRows(m, rows[..n]).0, rows[n].row, rows[n].cells);
    }
  }

  /** Merging a canonical list cannot overflow when every resulting sum fits. */
  lemma {:induction false} MergeCellsSucceeds(m: DeltaMap, row: nat, cells: seq<Cell>)
    requires ZeroFree(m) && Ascending(cells)
    requires forall j :: FitsI64(MapAt(m, row, j) + CellsAt(cells, j))
    requires forall j :: FitsI64(MapAt(m, row, j))
    ensures MergeCells(m, row, cells).1
  {
    if cells != [] {
      var n := |cells| - 1;
      var last := cells[n];
      forall j ensures FitsI64(MapAt(m, row, j) + CellsAt(cells[..n], j)) {
        if j == last.offset { AbsentOffset(cells[..n], j); }
        else {
        assert CellsAt(cells, j) == CellsAt(cells[..n], j);
        assert FitsI64(MapAt(m, row, j) + CellsAt(cells, j));
      }
      }
      MergeCellsSucceeds(m, row, cells[..n]);
      MergeCellsAdds(m, row, cells[..n]);
      var m' := MergeCells(m, row, cells[..n]).0;
      assert MapAt(m', row, last.offset) == MapAt(m, row, last.offset) + CellsAt(cells[..n], last.offset);
      assert FitsI64(MapAt(m, row, last.offset) + CellsAt(cells, last.offset));
    }
  }

  lemma {:induction false} MergeRowsSucceeds(m: DeltaMap, rows: SegmentRowDeltas)
    requires ZeroFree(m) && AscendingRows(rows) && forall i :: 0 <= i < |rows| ==> Ascending(rows[i].cells)
    requires forall r, j :: FitsI64(MapAt(m, r, j))
    requires forall r, j :: FitsI64(MapAt(m, r, j) + RowsAt(rows, r, j))
    ensures MergeRows(m, rows).1
  {
    if rows != [] {
      var n := |rows| - 1;
      var last := rows[n];
      forall r, j ensures FitsI64(MapAt(m, r, j) + RowsAt(rows[..n], r, j)) {
        if r == last.row { AbsentRow(rows[..n], r, j); }
        else {
        assert RowsAt(rows, r, j) == RowsAt(rows[..n], r, j);
        assert FitsI64(MapAt(m, r, j) + RowsAt(rows, r, j));
      }
      }
      MergeRowsSucceeds(m, rows[..n]);
      MergeRowsAdds(m, rows[..n]);
      var m' := MergeRows(m, rows[..n]).0;
      forall j ensures MapAt(m', last.row, j) == MapAt(m, last.row, j) { AbsentRow(rows[..n], last.row, j); }
      forall j ensures FitsI64(MapAt(m', last.row, j) + CellsAt(last.cells, j)) {
        AbsentRow(rows[..n], last.row, j);
        assert RowsAt(rows, last.row, j) == CellsAt(last.cells, j);
        assert FitsI64(MapAt(m, last.row, j) + RowsAt(rows, last.row, j));
      }
      MergeCellsSucceeds(m', last.row, last.cells);
    }
  }

  // ---------- keys ----------

  /** Every edit is inside a segment of `n` rows of this width. */
  ghost predicate RowsInRange(rows: SegmentRowDeltas, n: nat, width: nat) {
    forall i :: 0 <= i < |rows| ==> rows[i].row < n && CellsInRange(rows[i].cells, width)
  }

  ghost predicate CellsInRange(cells: seq<Cell>, width: nat) {
    forall c :: 0 <= c < |cells| ==> cells[c].offset < width
  }

  /** The list edits this cell. */
  ghost predicate Lists(rows: SegmentRowDeltas, key: (nat, nat)) {
    exists i :: 0 <= i < |rows| && rows[i].row == key.0 && ListsCell(rows[i].cells, key.1)
  }

  ghost predicate ListsCell(cells: seq<Cell>, off: nat) {
    exists c :: 0 <= c < |cells| && cells[c].offset == off
  }

  lemma {:induction false} MergeCellsKeys(m: DeltaMap, row: nat, cells: seq<Cell>, key: (nat, nat))
    requires key in MergeCells(m, row, cells).0
    ensures key in m || (key.0 == row && ListsCell(cells, key.1))
  {
    if cells != [] {
      var n := |cells| - 1;
      if key in MergeCells(m, row, cells[..n]).0 {
        MergeCellsKeys(m, row, cells[..n], key);
        if key !in m {
          var c :| 0 <= c < n && cells[..n][c].offset == key.1;
          assert cells[c].offset == key.1;
        }
      } else {
        assert cells[n].offset == key.1;
      }
    }
  }

  /** Merging adds no key but those the list edits, however far it got. */
  lemma {:induction false} MergeRowsKeys(m: DeltaMap, rows: SegmentRowDeltas, key: (nat, nat))
    requires key in MergeRows(m, rows).0
    ensures key in m || Lists(rows, key)
  {
    if rows != [] {
      var n := |rows| - 1;
      if key in MergeRows(m, rows[..n]).0 {
        MergeRowsKeys(m, rows[..n], key);
        if key !in m {
          var i :| 0 <= i < n && rows[..n][i].row == key.0 && ListsCell(rows[..n][i].cells, key.1);
          assert rows[i].row == key.0 && ListsCell(rows[i].cells, key.1);
        }
      } else {
        MergeCellsKeys(MergeRows(m, rows[..n]).0, rows[n].row, rows[n].cells, key);
        assert rows[n].row == key.0 && ListsCell(rows[n].cells, key.1);
      }
    }
  }
}
