/** The client's rolling edit set since its pinned hint. */
module Pending {
  import opened WireFormat
  import opened Deltas
  import opened OrderedKeys

  // ---------- grouping sorted keys into rows ----------

  /** Consecutive keys of one row become one row entry. */
  function Group(keys: seq<(nat, nat)>, m: DeltaMap): SegmentRowDeltas
    requires forall k :: k in keys ==> k in m
  {
    if keys == [] then []
    else PushKey(Group(keys[..|keys| - 1], m), keys[|keys| - 1], m[keys[|keys| - 1]])
  }

  function PushKey(out: SegmentRowDeltas, key: (nat, nat), delta: int): SegmentRowDeltas {
    var cell := Cell(key.1, delta);
    if out != [] && out[|out| - 1].row == key.0
    then out[..|out| - 1] + [RowDelta(key.0, out[|out| - 1].cells + [cell])]
    else out + [RowDelta(key.0, [cell])]
  }

  /** Rows ascending and not empty, offsets ascending, no zero edits. */
  ghost predicate Tidy(rows: SegmentRowDeltas) {
    && AscendingRows(rows)
    && forall i :: 0 <= i < |rows| ==> TidyCells(rows[i].cells)
  }

  ghost predicate TidyCells(cells: seq<Cell>) {
    cells != [] && WireFormat.Ascending(cells) && forall i :: 0 <= i < |cells| ==> cells[i].delta != 0
  }

  lemma {:induction false} PushKeyMeans(out: SegmentRowDeltas, key: (nat, nat), delta: int, r: nat, j: nat)
    ensures RowsAt(PushKey(out, key, delta), r, j) == RowsAt(out, r, j) + (if key == (r, j) then delta else 0)
  {
    var cell := Cell(key.1, delta);
    var n := |out| - 1;
    if out != [] && out[n].row == key.0 {
      var cells := out[n].cells;
      var rows := PushKey(out, key, delta);
      assert rows[..n] == out[..n] && rows[n].cells[..|cells|] == cells;
    } else {
      var rows := PushKey(out, key, delta);
      assert rows[..|out|] == out;
      assert CellsAt([cell], j) == (if cell.offset == j then delta else 0) by { assert [cell][..0] == []; }
    }
  }

  /** What the last key of a tidy list tells about it. */
  ghost predicate EndsAt(out: SegmentRowDeltas, key: (nat, nat)) {
    && out != [] && out[|out| - 1].row == key.0
    && out[|out| - 1].cells != [] && out[|out| - 1].cells[|out[|out| - 1].cells| - 1].offset == key.1
  }

  lemma {:induction false} PushKeyTidy(out: SegmentRowDeltas, prev: (nat, nat), key: (nat, nat), delta: int)
    requires Tidy(out) && delta != 0
    requires out == [] || (EndsAt(out, prev) && Less(prev, key))
    ensures Tidy(PushKey(out, key, delta)) && EndsAt(PushKey(out, key, delta), key)
  {
    var n, cell := |out| - 1, Cell(key.1, delta);
    if out != [] && out[n].row == key.0 {
      LongerTidy(out[n].cells, cell);
      LastRowTidy(out, RowDelta(key.0, out[n].cells + [cell]));
    } else {
      assert TidyCells([cell]);
      NewRowTidy(out, RowDelta(key.0, [cell]));
    }
  }

  lemma {:induction false} LastRowTidy(out: SegmentRowDeltas, last: RowDelta)
    requires Tidy(out) && out != [] && last.row == out[|out| - 1].row && TidyCells(last.cells)
    ensures Tidy(out[..|out| - 1] + [last])
  {
  }

  lemma {:induction false} NewRowTidy(out: SegmentRowDeltas, last: RowDelta)
    requires Tidy(out) && TidyCells(last.cells) && (out != [] ==> out[|out| - 1].row < last.row)
    ensures Tidy(out + [last])
  {
    var n := |out| - 1;
    forall i | 0 <= i <= n ensures out[i].row <= out[n].row { assert i < n ==> out[i].row < out[n].row; }
  }

  lemma {:induction false} LongerTidy(cells: seq<Cell>, cell: Cell)
    requires TidyCells(cells) && cells[|cells| - 1].offset < cell.offset && cell.delta != 0
    ensures TidyCells(cells + [cell])
  {
    var n := |cells| - 1;
    forall i | 0 <= i <= n
      ensures cells[i].offset <= cells[n].offset
    {
      assert i < n ==> cells[i].offset < cells[n].offset;
    }
  }

  lemma {:induction false} GroupMeans(keys: seq<(nat, nat)>, m: DeltaMap, r: nat, j: nat)
    requires InOrder(keys) && forall k :: k in keys ==> k in m
    ensures RowsAt(Group(keys, m), r, j) == if (r, j) in keys then m[(r, j)] else 0
  {
    if keys != [] {
      var n := |keys| - 1;
      GroupMeans(keys[..n], m, r, j);
      PushKeyMeans(Group(keys[..n], m), keys[n], m[keys[n]], r, j);
      assert keys == keys[..n] + [keys[n]];
    }
  }

  lemma {:induction false} GroupTidy(keys: seq<(nat, nat)>, m: DeltaMap)
    requires InOrder(keys) && ZeroFree(m) && forall k :: k in keys ==> k in m
    ensures Tidy(Group(keys, m))
    ensures keys != [] ==> EndsAt(Group(keys, m), keys[|keys| - 1])
  {
    if keys != [] {
      var n := |keys| - 1;
      GroupTidy(keys[..n], m);
      if n == 0 {
        PushKeyTidy([], keys[0], keys[0], m[keys[0]]);
        assert keys[..0] == [];
      } else {
        assert keys[..n][n - 1] == keys[n - 1];
        PushKeyTidy(Group(keys[..n], m), keys[n - 1], keys[n], m[keys[n]]);
      }
    }
  }

  /** A tidy list whose edits are in range is canonical. */
  lemma {:induction false} TidyCanonical(rows: SegmentRowDeltas, l: DeltaWireLayout)
    requires Tidy(rows)
    requires forall r: nat, j: nat :: RowsAt(rows, r, j) != 0 ==>
               r < l.segmentSize && j < l.rowWidth && -l.Modulus() < RowsAt(rows, r, j) < l.Modulus()
    ensures CanonicalSegment(rows, l)
  {
    forall i | 0 <= i < |rows| ensures rows[i].row < l.segmentSize && CanonicalCells(rows[i].cells, l) {
      var cells := rows[i].cells;
      forall k | 0 <= k < |cells| ensures CellInRange(cells[k], l) && rows[i].row < l.segmentSize {
        RowsAtEntry(rows, i, cells[k].offset);
        CellsAtEntry(cells, k);
        assert RowsAt(rows, rows[i].row, cells[k].offset) == cells[k].delta;
      }
      assert CellInRange(cells[0], l);
    }
  }

  lemma {:induction false} CanonicalTidy(rows: SegmentRowDeltas, l: DeltaWireLayout)
    requires CanonicalSegment(rows, l)
    ensures Tidy(rows)
  {
    forall i | 0 <= i < |rows| ensures TidyCells(rows[i].cells) {
      assert CanonicalCells(rows[i].cells, l);
      forall k | 0 <= k < |rows[i].cells|
        ensures rows[i].cells[k].delta != 0
      {
        assert CellInRange(rows[i].cells[k], l);
      }
    }
  }

  class PendingDelta {
    var perSegment: seq<DeltaMap>

    /** No segment's map holds a zero edit. */
    ghost predicate Valid()
      reads this
    {
      forall j :: 0 <= j < |perSegment| ==> ZeroFree(perSegment[j])
    }

    constructor (arity: nat)
      ensures Valid() && |perSegment| == arity && forall j :: 0 <= j < arity ==> perSegment[j] == map[]
    {
      perSegment := seq(arity, _ => map[]);
    }

    method Clear()
      modifies this
      ensures Valid() && |perSegment| == |old(perSegment)|
      ensures forall j :: 0 <= j < |perSegment| ==> perSegment[j] == map[]
    {
      for j := 0 to |perSegment|
        invariant |perSegment| == |old(perSegment)|
        invariant forall k :: 0 <= k < j ==> perSegment[k] == map[]
      {
        perSegment := perSegment[j := map[]];
      }
    }

    /** The edits of one row, offsets ascending. */
    method Row(seg: nat, row: nat) returns (cells: seq<Cell>)
      requires Valid() && seg < |perSegment|
      ensures WireFormat.Ascending(cells)
      ensures forall i :: 0 <= i < |cells| ==> (row, cells[i].offset) in perSegment[seg]
      ensures forall off :: CellsAt(cells, off) == MapAt(perSegment[seg], row, off)
    {
      var m := perSegment[seg];
      var keys := KeysInOrder(set k | k in m && k.0 == row);
      cells := [];
      forall i | 0 <= i < |keys| ensures keys[i] in m && keys[i].0 == row { assert keys[i] in keys; }
      for i := 0 to |keys|
        invariant |cells| == i && forall k :: 0 <= k < i ==> cells[k] == Cell(keys[k].1, m[keys[k]])
      {
        cells := cells + [Cell(keys[i].1, m[keys[i]])];
      }
      forall i, k | 0 <= i < k < |cells| ensures cells[i].offset < cells[k].offset {
        assert keys[i] in keys && keys[k] in keys && Less(keys[i], keys[k]);
      }
      forall off ensures CellsAt(cells, off) == MapAt(m, row, off) {
        if (row, off) in m {
          assert (row, off) in keys;
          var i :| 0 <= i < |keys| && keys[i] == (row, off);
          CellsAtEntry(cells, i);
        } else {
          forall i | 0 <= i < |cells| ensures cells[i].offset != off { assert keys[i] in keys; }
          AbsentOffset(cells, off);
        }
      }
    }

    /** Exactly the pending edits of a segment, rows and offsets ascending. */
    method AsRowDeltas(seg: nat) returns (out: SegmentRowDeltas)
      requires Valid() && seg < |perSegment|
      ensures Tidy(out)
      ensures forall r, j :: RowsAt(out, r, j) == MapAt(perSegment[seg], r, j)
    {
      var m := perSegment[seg];
      var keys := KeysInOrder(m.Keys);
      out := [];
      for i := 0 to |keys|
        invariant forall k :: k in keys[..i] ==> k in m
        invariant out == Group(keys[..i], m)
      {
        assert keys[i] in keys;
        assert keys[..i + 1][..i] == keys[..i] && keys[..i + 1][i] == keys[i];
        out := PushKey(out, keys[i], m[keys[i]]);
      }
      assert keys[..|keys|] == keys;
      GroupTidy(keys, m);
      forall r, j ensures RowsAt(out, r, j) == MapAt(m, r, j) { GroupMeans(keys, m, r, j); }
    }

    /** Fold a bundle's edits in, segment by segment; false, part way, on overflow. */
    method Merge(deltas: seq<SegmentRowDeltas>) returns (ok: bool)
      requires Valid() && |deltas| == |perSegment|
      modifies this
      ensures Valid() && |perSegment| == |old(perSegment)|
      ensures ok <==> forall j :: 0 <= j < |deltas| ==> MergeRows(old(perSegment)[j], deltas[j]).1
      ensures ok ==> forall j :: 0 <= j < |deltas| ==> perSegment[j] == MergeRows(old(perSegment)[j], deltas[j]).0
      ensures forall j, k :: 0 <= j < |deltas| && k in perSegment[j] ==> k in old(perSegment)[j] || Lists(deltas[j], k)
    {
      for seg := 0 to |deltas|
        invariant Valid() && |perSegment| == |old(perSegment)|
        invariant forall j :: 0 <= j < seg ==> MergeRows(old(perSegment)[j], deltas[j]) == (perSegment[j], true)
        invariant forall j :: seg <= j < |deltas| ==> perSegment[j] == old(perSegment)[j]
        invariant forall j, k :: 0 <= j < |deltas| && k in perSegment[j] ==>
             k in old(perSegment)[j] || Lists(deltas[j], k)
      {
        forall k | k in MergeRows(perSegment[seg], deltas[seg]).0
          ensures k in old(perSegment)[seg] || Lists(deltas[seg], k)
        {
          MergeRowsKeys(perSegment[seg], deltas[seg], k);
        }
        MergeRowsAdds(perSegment[seg], deltas[seg]);
        var m, fits := MergeSegment(perSegment[seg], deltas[seg]);
        perSegment := perSegment[seg := m];
        if !fits { return false; }
      }
      return true;
    }
  }

  /** The two inner loops of `Merge`. */
  method MergeSegment(m0: DeltaMap, rows: SegmentRowDeltas) returns (m: DeltaMap, ok: bool)
    ensures (m, ok) == MergeRows(m0, rows)
  {
    m, ok := m0, true;
    for i := 0 to |rows|
      invariant (m, true) == MergeRows(m0, rows[..i])
    {
      ghost var before := m;
      var row, cells := rows[i].row, rows[i].cells;
      for k := 0 to |cells|
        invariant (m, true) == MergeCells(before, row, cells[..k])
      {
        assert cells[..k + 1][..k] == cells[..k];
        var (m', fits) := MergeCell(m, (row, cells[k].offset), cells[k].delta);
        m := m';
        if !fits {
          MergeCellsStops(before, row, cells, k + 1);
          assert cells[..|cells|] == cells;
          assert rows[..i + 1][..i] == rows[..i];
          MergeRowsStops(m0, rows, i + 1);
          assert rows[..|rows|] == rows;
          return m, false;
        }
      }
      assert cells[..|cells|] == cells;
      assert rows[..i + 1][..i] == rows[..i];
    }
    assert rows[..|rows|] == rows;
  }

  /** Nothing is merged after an overflow. */
  lemma {:induction false} MergeCellsStops(m: DeltaMap, row: nat, cells: seq<Cell>, k: nat)
    requires k <= |cells| && !MergeCells(m, row, cells[..k]).1
    ensures MergeCells(m, row, cells) == MergeCells(m, row, cells[..k])
  {
    if k == |cells| {
      assert cells[..k] == cells;
    } else {
      var n := |cells| - 1;
      assert cells[..n][..k] == cells[..k];
      MergeCellsStops(m, row, cells[..n], k);
    }
  }

  lemma {:induction false} MergeRowsStops(m: DeltaMap, rows: SegmentRowDeltas, k: nat)
    requires k <= |rows| && !MergeRows(m, rows[..k]).1
    ensures MergeRows(m, rows) == MergeRows(m, rows[..k])
  {
    if k == |rows| {
      assert rows[..k] == rows;
    } else {
      var n := |rows| - 1;
      assert rows[..n][..k] == rows[..k];
      MergeRowsStops(m, rows[..n], k);
    }
  }
}
