/** Folding a log of slot mutations into sparse per-segment deltas. */
module HintFold {
  import opened Words
  import opened Geometry
  import opened WireFormat
  import opened LinearAlgebra
  import opened Lwe
  import opened Fields
  import opened CellBits
  import opened SlotCodec
  import opened SlotEdit
  import opened Deltas
  import opened Pending
  import OrderedKeys

  /** One slot rewritten: what it held and what it holds now. */
  datatype SlotMutation = SlotMutation(
    bucket: nat, slot: nat,
    oldFingerprint: nat, oldValueCells: seq<nat>,
    newFingerprint: nat, newValueCells: seq<nat>)

  /** All segments of a store: rows of cells. */
  type Database = seq<Matrix>

  ghost predicate MutationOk(m: SlotMutation, p: CuckooParams)
    requires p.Legal()
  {
    && m.bucket < p.numBuckets && m.slot < p.bucketSize
    && |m.oldValueCells| == p.ValueSizeInCells() && |m.newValueCells| == p.ValueSizeInCells()
  }

  function OldCells(m: SlotMutation, p: CuckooParams): seq<nat>
    requires p.Legal() && |m.oldValueCells| == p.ValueSizeInCells()
  {
    PackedCells(m.oldFingerprint, ValueOfCells(m.oldValueCells, p), p)
  }

  function NewCells(m: SlotMutation, p: CuckooParams): seq<nat>
    requires p.Legal() && |m.newValueCells| == p.ValueSizeInCells()
  {
    PackedCells(m.newFingerprint, ValueOfCells(m.newValueCells, p), p)
  }

  lemma {:induction false} PackedShape(fp: nat, value: seq<nat>, p: CuckooParams)
    requires p.Legal() && |value| == p.ValueSizeInCells()
    ensures |PackedCells(fp, ValueOfCells(value, p), p)| == p.CellsPerSlot()
    ensures Fit(PackedCells(fp, ValueOfCells(value, p), p), p.plaintextBits)
  {
    CellsRoundTrip(SlotPayload(fp, ValueOfCells(value, p), p), p.plaintextBits, p.CellsPerSlot());
  }

  function SegmentOf(bucket: nat, p: CuckooParams): nat
    requires p.Legal()
  {
    LegalPositive(p);
    bucket / p.SegmentSize()
  }

  function RowOf(bucket: nat, p: CuckooParams): nat
    requires p.Legal()
  {
    LegalPositive(p);
    bucket % p.SegmentSize()
  }

  /** First cell of a slot within its row. */
  function SlotStart(slot: nat, p: CuckooParams): nat
    requires p.Legal()
  {
    Base(slot, p.CellsPerSlot())
  }

  lemma {:induction false} SlotInRange(bucket: nat, slot: nat, p: CuckooParams)
    requires p.Legal() && bucket < p.numBuckets && slot < p.bucketSize
    ensures SegmentOf(bucket, p) < p.Arity() && RowOf(bucket, p) < p.SegmentSize()
    ensures SlotStart(slot, p) + p.CellsPerSlot() <= p.RowWidth()
  {
    LegalPositive(p);
    LayoutSegments(p);
    QuotientBelow(bucket, p.Arity(), p.SegmentSize());
    SlotInRow(slot, p.bucketSize, p.CellsPerSlot());
  }

  lemma {:induction false} SlotInRow(slot: nat, bucketSize: nat, cps: nat)
    requires slot < bucketSize
    ensures Base(slot, cps) + cps <= bucketSize * cps
  {
    MulMonotone(cps, slot + 1, bucketSize);
  }

  // ---------- what a log means ----------

  /** What one mutation adds to one cell. */
  ghost function MutationAt(m: SlotMutation, p: CuckooParams, seg: nat, row: nat, off: nat): int
    requires p.Legal() && MutationOk(m, p)
  {
    PackedShape(m.oldFingerprint, m.oldValueCells, p);
    PackedShape(m.newFingerprint, m.newValueCells, p);
    if seg == SegmentOf(m.bucket, p) && row == RowOf(m.bucket, p) then
      SlotChange(OldCells(m, p), NewCells(m, p), SlotStart(m.slot, p), off)
    else 0
  }

  /** The change of the cell at `off` when the cells from `start` on turn from `old_` into `new_`. */
  function SlotChange(was: seq<nat>, now: seq<nat>, start: nat, off: nat): int
    requires |was| == |now|
  {
    if start <= off < start + |was| then Sub(now[off - start], was[off - start]) else 0
  }

  ghost predicate LogOk(muts: seq<SlotMutation>, p: CuckooParams)
    requires p.Legal()
  {
    forall i :: 0 <= i < |muts| ==> MutationOk(muts[i], p)
  }

  /** What a log adds to one cell. */
  ghost function LogAt(muts: seq<SlotMutation>, p: CuckooParams, seg: nat, row: nat, off: nat): int
    requires p.Legal() && LogOk(muts, p)
  {
    if muts == [] then 0
    else LogAt(muts[..|muts| - 1], p, seg, row, off) + MutationAt(muts[|muts| - 1], p, seg, row, off)
  }

  lemma {:induction false} LogConcat(a: seq<SlotMutation>, b: seq<SlotMutation>, p: CuckooParams, seg: nat, row: nat,
                                     off: nat)
    requires p.Legal() && LogOk(a, p) && LogOk(b, p)
    ensures LogAt(a + b, p, seg, row, off) == LogAt(a, p, seg, row, off) + LogAt(b, p, seg, row, off)
  {
    if b == [] {
      assert a + b == a;
    } else {
      var n := |b| - 1;
      assert (a + b)[..|a + b| - 1] == a + b[..n];
      LogConcat(a, b[..n], p, seg, row, off);
    }
  }

  lemma {:induction false} LogInRange(muts: seq<SlotMutation>, p: CuckooParams, seg: nat, row: nat, off: nat)
    requires p.Legal() && LogOk(muts, p)
    requires seg >= p.Arity() || row >= p.SegmentSize() || off >= p.RowWidth()
    ensures LogAt(muts, p, seg, row, off) == 0
  {
    if muts != [] {
      var m := muts[|muts| - 1];
      LogInRange(muts[..|muts| - 1], p, seg, row, off);
      SlotInRange(m.bucket, m.slot, p);
      PackedShape(m.oldFingerprint, m.oldValueCells, p);
      PackedShape(m.newFingerprint, m.newValueCells, p);
    }
  }

  // ---------- consistent logs ----------

  ghost predicate DatabaseOk(db: Database, p: CuckooParams)
    requires p.Legal()
  {
    && |db| == p.Arity()
    && forall j :: 0 <= j < |db| ==> Shape(db[j], p.SegmentSize(), p.RowWidth()) && CellsFit(db[j], p.plaintextBits)
  }

  /** The cells of a row with a slot replaced. */
  function SetSlotCells(row: seq<nat>, start: nat, cells: seq<nat>): (r: seq<nat>)
    requires start + |cells| <= |row|
    ensures |r| == |row|
  {
    row[..start] + cells + row[start + |cells|..]
  }

  /** The cells of one slot. */
  function SlotCellsOf(db: Database, bucket: nat, slot: nat, p: CuckooParams): (r: seq<nat>)
    requires p.Legal() && DatabaseOk(db, p) && bucket < p.numBuckets && slot < p.bucketSize
    ensures |r| == p.CellsPerSlot() && Fit(r, p.plaintextBits)
  {
    SlotInRange(bucket, slot, p);
    var row, start := db[SegmentOf(bucket, p)][RowOf(bucket, p)], SlotStart(slot, p);
    row[start..start + p.CellsPerSlot()]
  }

  /** The mutation records the entry its slot holds at that moment. */
  ghost predicate Records(db: Database, m: SlotMutation, p: CuckooParams)
    requires p.Legal() && DatabaseOk(db, p) && MutationOk(m, p)
  {
    HoldsEntry(SlotCellsOf(db, m.bucket, m.slot, p), m.oldFingerprint, ValueOfCells(m.oldValueCells, p), p)
  }

  /** The new entry written into the slot. */
  function Apply(db: Database, m: SlotMutation, p: CuckooParams): (r: Database)
    requires p.Legal() && DatabaseOk(db, p) && MutationOk(m, p)
    ensures DatabaseOk(r, p)
  {
    SlotInRange(m.bucket, m.slot, p);
    var seg, row, start := SegmentOf(m.bucket, p), RowOf(m.bucket, p), SlotStart(m.slot, p);
    var slot := Rewritten(SlotCellsOf(db, m.bucket, m.slot, p), m.newFingerprint, ValueOfCells(m.newValueCells, p), p);
    var cells: seq<nat> := SetSlotCells(db[seg][row], start, slot);
    SlotCellsFit(db[seg], row, start, slot, p.plaintextBits);
    var segment: Matrix := db[seg][row := cells];
    db[seg := segment]
  }

  lemma {:induction false} SlotCellsFit(segment: Matrix, row: nat, start: nat, cells: seq<nat>, pb: nat)
    requires CellsFit(segment, pb) && Fit(cells, pb) && row < |segment| && start + |cells| <= |segment[row]|
    ensures var updated: seq<nat> := SetSlotCells(segment[row], start, cells);
            CellsFit(segment[row := updated], pb)
  {
    var updated: seq<nat> := SetSlotCells(segment[row], start, cells);
    forall j | 0 <= j < |updated| ensures updated[j] < Pow2(pb) {
      if start <= j < start + |cells| { assert updated[j] == cells[j - start]; }
    }
  }

  ghost function Replay(db: Database, muts: seq<SlotMutation>, p: CuckooParams): (r: Database)
    requires p.Legal() && DatabaseOk(db, p) && LogOk(muts, p)
    ensures DatabaseOk(r, p)
  {
    if muts == [] then db else Apply(Replay(db, muts[..|muts| - 1], p), muts[|muts| - 1], p)
  }

  /** Each mutation's old contents are those of its slot when it happened. */
  ghost predicate Consistent(db: Database, muts: seq<SlotMutation>, p: CuckooParams)
    requires p.Legal() && DatabaseOk(db, p) && LogOk(muts, p)
  {
    muts == []
         || (Consistent(db, muts[..|muts| - 1], p) && Records(Replay(db, muts[..|muts| - 1], p), muts[|muts| - 1], p))
  }

  lemma {:induction false} ConsistentPrefix(db: Database, muts: seq<SlotMutation>, n: nat, p: CuckooParams)
    requires p.Legal() && DatabaseOk(db, p) && LogOk(muts, p) && Consistent(db, muts, p) && n <= |muts|
    ensures Consistent(db, muts[..n], p)
  {
    if n == |muts| {
      assert muts[..n] == muts;
    } else {
      assert muts[..|muts| - 1][..n] == muts[..n];
      ConsistentPrefix(db, muts[..|muts| - 1], n, p);
    }
  }

  /** The mutation changes this cell by what it adds to it. */
  ghost predicate TracksCell(db: Database, m: SlotMutation, p: CuckooParams, seg: nat, row: nat, off: nat)
    requires p.Legal() && DatabaseOk(db, p) && MutationOk(m, p)
    requires seg < p.Arity() && row < p.SegmentSize() && off < p.RowWidth()
  {
    Apply(db, m, p)[seg][row][off] == db[seg][row][off] + MutationAt(m, p, seg, row, off)
  }

  /** A mutation changes every cell by what it adds to it if and only if it records the entry its
      slot held. */
  lemma {:induction false} TracksIffRecords(db: Database, m: SlotMutation, p: CuckooParams)
    requires p.Legal() && DatabaseOk(db, p) && MutationOk(m, p)
    ensures Records(db, m, p)
       <==> forall seg, row, off :: 0 <= seg < p.Arity() && 0 <= row < p.SegmentSize() && 0 <= off < p.RowWidth() ==>
              TracksCell(db, m, p, seg, row, off)
  {
    var v0, v1, cells := ValueOfCells(m.oldValueCells, p), ValueOfCells(m.newValueCells, p),
        SlotCellsOf(db, m.bucket, m.slot, p);
    ChangeIffHeld(cells, m.oldFingerprint, v0, m.newFingerprint, v1, p);
    SlotInRange(m.bucket, m.slot, p);
    var seg0, row0, start := SegmentOf(m.bucket, p), RowOf(m.bucket, p), SlotStart(m.slot, p);
    forall c | 0 <= c < p.CellsPerSlot()
      ensures TracksCell(db, m, p, seg0, row0, start + c)
         <==> ChangesBy(cells, m.oldFingerprint, v0, m.newFingerprint, v1, p, c)
    {
      TracksInSlot(db, m, p, c);
    }
    if Records(db, m, p) {
      forall seg, row, off | 0 <= seg < p.Arity() && 0 <= row < p.SegmentSize() && 0 <= off < p.RowWidth()
        ensures TracksCell(db, m, p, seg, row, off)
      {
        if seg == seg0 && row == row0 && start <= off < start + p.CellsPerSlot() {
          assert ChangesBy(cells, m.oldFingerprint, v0, m.newFingerprint, v1, p, off - start);
        } else {
          TracksOutside(db, m, p, seg, row, off);
        }
      }
    }
  }

  lemma {:induction false} TracksInSlot(db: Database, m: SlotMutation, p: CuckooParams, c: nat)
    requires p.Legal() && DatabaseOk(db, p) && MutationOk(m, p) && c < p.CellsPerSlot()
    ensures SegmentOf(m.bucket, p) < p.Arity() && RowOf(m.bucket, p) < p.SegmentSize()
         && SlotStart(m.slot, p) + c < p.RowWidth()
    ensures TracksCell(db, m, p, SegmentOf(m.bucket, p), RowOf(m.bucket, p), SlotStart(m.slot, p) + c)
       <==> ChangesBy(SlotCellsOf(db, m.bucket, m.slot, p), m.oldFingerprint, ValueOfCells(m.oldValueCells, p),
                      m.newFingerprint, ValueOfCells(m.newValueCells, p), p, c)
  {
    SlotInRange(m.bucket, m.slot, p);
    PackedShape(m.oldFingerprint, m.oldValueCells, p);
    PackedShape(m.newFingerprint, m.newValueCells, p);
    var row, start := db[SegmentOf(m.bucket, p)][RowOf(m.bucket, p)], SlotStart(m.slot, p);
    assert SlotCellsOf(db, m.bucket, m.slot, p)[c] == row[start + c];
  }

  lemma {:induction false} TracksOutside(db: Database, m: SlotMutation, p: CuckooParams, seg: nat, row: nat, off: nat)
    requires p.Legal() && DatabaseOk(db, p) && MutationOk(m, p)
    requires seg < p.Arity() && row < p.SegmentSize() && off < p.RowWidth()
    requires seg != SegmentOf(m.bucket, p) || row != RowOf(m.bucket, p)
             || off < SlotStart(m.slot, p) || off >= SlotStart(m.slot, p) + p.CellsPerSlot()
    ensures TracksCell(db, m, p, seg, row, off)
  {
    SlotInRange(m.bucket, m.slot, p);
    PackedShape(m.oldFingerprint, m.oldValueCells, p);
    PackedShape(m.newFingerprint, m.newValueCells, p);
  }

  /** A consistent log adds up to the change of every cell. */
  lemma {:induction false} Telescopes(db: Database, muts: seq<SlotMutation>, p: CuckooParams, seg: nat, row: nat,
                                      off: nat)
    requires p.Legal() && DatabaseOk(db, p) && LogOk(muts, p) && Consistent(db, muts, p)
    requires seg < p.Arity() && row < p.SegmentSize() && off < p.RowWidth()
    ensures Replay(db, muts, p)[seg][row][off] == db[seg][row][off] + LogAt(muts, p, seg, row, off)
  {
    if muts != [] {
      var n := |muts| - 1;
      Telescopes(db, muts[..n], p, seg, row, off);
      TracksIffRecords(Replay(db, muts[..n], p), muts[n], p);
      assert TracksCell(Replay(db, muts[..n], p), muts[n], p, seg, row, off);
    }
  }

  /** What the whole log adds to this cell is its change. */
  ghost predicate LogTracksCell(db: Database, muts: seq<SlotMutation>, p: CuckooParams, seg: nat, row: nat, off: nat)
    requires p.Legal() && DatabaseOk(db, p) && LogOk(muts, p)
    requires seg < p.Arity() && row < p.SegmentSize() && off < p.RowWidth()
  {
    Replay(db, muts, p)[seg][row][off] == db[seg][row][off] + LogAt(muts, p, seg, row, off)
  }

  /** With all earlier mutations recorded right, the log adds up on every cell if and only if the last
      one is recorded right too. */
  lemma {:induction false} TelescopesIffLastRecords(db: Database, muts: seq<SlotMutation>, p: CuckooParams)
    requires p.Legal() && DatabaseOk(db, p) && LogOk(muts, p) && muts != []
    requires Consistent(db, muts[..|muts| - 1], p)
    ensures Records(Replay(db, muts[..|muts| - 1], p), muts[|muts| - 1], p)
       <==> forall seg, row, off :: 0 <= seg < p.Arity() && 0 <= row < p.SegmentSize() && 0 <= off < p.RowWidth() ==>
              LogTracksCell(db, muts, p, seg, row, off)
  {
    var n := |muts| - 1;
    var before := Replay(db, muts[..n], p);
    TracksIffRecords(before, muts[n], p);
    hide Consistent, Records, MutationAt, Apply, DatabaseOk;
    forall seg, row, off | 0 <= seg < p.Arity() && 0 <= row < p.SegmentSize() && 0 <= off < p.RowWidth()
      ensures LogTracksCell(db, muts, p, seg, row, off) <==> TracksCell(before, muts[n], p, seg, row, off)
    {
      Telescopes(db, muts[..n], p, seg, row, off);
    }
  }

  // ---------- the fold ----------

  type RowMap = map<nat, int>
  type SegmentMap = map<nat, RowMap>

  function RowMapAt(m: RowMap, off: nat): int { if off in m then m[off] else 0 }

  function NestedAt(m: SegmentMap, row: nat, off: nat): int {
    if row in m then RowMapAt(m[row], off) else 0
  }

  /** Add the cell changes of one slot to a row's map. */
  method FoldSlot(entry0: RowMap, start: nat, oldBuf: array<nat>, newBuf: array<nat>) returns (entry: RowMap)
    requires oldBuf.Length == newBuf.Length
    ensures forall off: nat ::
              RowMapAt(entry, off) == RowMapAt(entry0, off) + SlotChange(oldBuf[..], newBuf[..], start, off)
  {
    entry := entry0;
    for c := 0 to oldBuf.Length
      invariant forall off: nat ::
                  RowMapAt(entry, off) == RowMapAt(entry0, off) + SlotChange(oldBuf[..c], newBuf[..c], start, off)
    {
      var delta := Sub(newBuf[c], oldBuf[c]);
      if delta != 0 {
        var cellOffset := start + c;
        entry := entry[cellOffset := RowMapAt(entry, cellOffset) + delta];
      }
    }
    assert oldBuf[..oldBuf.Length] == oldBuf[..] && newBuf[..newBuf.Length] == newBuf[..];
  }

  /** Add one mutation. */
  method FoldOne(acc0: seq<SegmentMap>, m: SlotMutation, p: CuckooParams, oldBuf: array<nat>, newBuf: array<nat>)
      returns (acc: seq<SegmentMap>)
    requires p.Legal() && MutationOk(m, p) && |acc0| == p.Arity()
    requires oldBuf != newBuf && oldBuf.Length == newBuf.Length == p.CellsPerSlot()
    modifies oldBuf, newBuf
    ensures |acc| == p.Arity()
    ensures forall seg, row, off :: 0 <= seg < p.Arity() && 0 <= row && 0 <= off ==>
              NestedAt(acc[seg], row, off) == NestedAt(acc0[seg], row, off) + MutationAt(m, p, seg, row, off)
  {
    SlotInRange(m.bucket, m.slot, p);
    var segIdx, bucketInSeg := SegmentOf(m.bucket, p), RowOf(m.bucket, p);
    PackSlotCells(p, m.oldFingerprint, m.oldValueCells, oldBuf);
    PackSlotCells(p, m.newFingerprint, m.newValueCells, newBuf);
    var entry0 := if bucketInSeg in acc0[segIdx] then acc0[segIdx][bucketInSeg] else map[];
    var entry := FoldSlot(entry0, SlotStart(m.slot, p), oldBuf, newBuf);
    acc := acc0[segIdx := acc0[segIdx][bucketInSeg := entry]];
    forall seg, row, off | 0 <= seg < p.Arity() && 0 <= row && 0 <= off
      ensures NestedAt(acc[seg], row, off) == NestedAt(acc0[seg], row, off) + MutationAt(m, p, seg, row, off)
    {
      if seg == segIdx && row == bucketInSeg {
        assert RowMapAt(entry, off)
             == RowMapAt(entry0, off) + SlotChange(oldBuf[..], newBuf[..], SlotStart(m.slot, p), off);
      }
    }
  }

  /** The non-zero cells of a row, offsets ascending. */
  method DrainRow(m: RowMap) returns (cells: seq<Cell>)
    ensures cells == [] || TidyCells(cells)
    ensures forall off: nat :: CellsAt(cells, off) == RowMapAt(m, off)
  {
    var keys := OrderedKeys.NumbersInOrder(m.Keys);
    cells := [];
    for i := 0 to |keys|
      invariant cells == [] || (TidyCells(cells) && i > 0 && cells[|cells| - 1].offset <= keys[i - 1])
      invariant forall off: nat :: CellsAt(cells, off) == if off in keys[..i] then RowMapAt(m, off) else 0
    {
      assert keys[i] in keys;
      assert keys[..i + 1] == keys[..i] + [keys[i]];
      if m[keys[i]] != 0 {
        var cell := Cell(keys[i], m[keys[i]]);
        if cells == [] { assert TidyCells([cell]); } else { LongerTidy(cells, cell); }
        assert (cells + [cell])[..|cells|] == cells;
        cells := cells + [cell];
      }
    }
    assert keys[..|keys|] == keys;
  }

  /** The non-empty rows of a segment, ascending. */
  method DrainSegment(m: SegmentMap) returns (out: SegmentRowDeltas)
    ensures Tidy(out)
    ensures forall row: nat, off: nat :: RowsAt(out, row, off) == NestedAt(m, row, off)
  {
    var keys := OrderedKeys.NumbersInOrder(m.Keys);
    out := [];
    for i := 0 to |keys|
      invariant Drained(out, m, keys, i)
    {
      assert keys[i] in keys;
      var cells := DrainRow(m[keys[i]]);
      DrainNext(out, m, keys, i, cells);
      if cells != [] { out := out + [RowDelta(keys[i], cells)]; }
    }
    assert keys[..|keys|] == keys;
  }

  /** `out` lists the rows of the first `i` keys. */
  ghost predicate Drained(out: SegmentRowDeltas, m: SegmentMap, keys: seq<nat>, i: nat) {
    && i <= |keys| && Tidy(out)
    && (out == [] || (i > 0 && out[|out| - 1].row <= keys[i - 1]))
    && forall row: nat, off: nat :: RowsAt(out, row, off) == if row in keys[..i] then NestedAt(m, row, off) else 0
  }

  lemma {:induction false} DrainNext(out: SegmentRowDeltas, m: SegmentMap, keys: seq<nat>, i: nat, cells: seq<Cell>)
    requires OrderedKeys.Ascending(keys) && i < |keys| && keys[i] in m && Drained(out, m, keys, i)
    requires cells == [] || TidyCells(cells)
    requires forall off: nat :: CellsAt(cells, off) == RowMapAt(m[keys[i]], off)
    ensures Drained(if cells != [] then out + [RowDelta(keys[i], cells)] else out, m, keys, i + 1)
  {
    assert keys[..i + 1] == keys[..i] + [keys[i]];
    var entry := RowDelta(keys[i], cells);
    assert (out + [entry])[..|out|] == out;
    forall row: nat, off: nat
      ensures RowsAt(out + [entry], row, off) == if row in keys[..i + 1] then NestedAt(m, row, off) else 0
      ensures cells == [] ==> RowsAt(out, row, off) == if row in keys[..i + 1] then NestedAt(m, row, off) else 0
    {
      if row == keys[i] {
        assert row !in keys[..i];
        assert RowsAt(out, row, off) == 0;
      }
    }
    if out != [] && cells != [] { NewRowTidy(out, entry); }
  }

  /** Per-segment deltas of a whole log: what the log adds to each cell, nothing else, in order. */
  method FoldMutationsIntoRowDeltas(muts: seq<SlotMutation>, p: CuckooParams) returns (out: seq<SegmentRowDeltas>)
    requires p.Legal() && LogOk(muts, p)
    ensures |out| == p.Arity() && forall j :: 0 <= j < |out| ==> IsFold(out[j], muts, p, j)
  {
    var acc: seq<SegmentMap> := seq(p.Arity(), _ => map[]);
    var oldBuf, newBuf := new nat[p.CellsPerSlot()], new nat[p.CellsPerSlot()];
    for i := 0 to |muts|
      invariant |acc| == p.Arity()
      invariant forall seg, row, off :: 0 <= seg < p.Arity() && 0 <= row && 0 <= off ==>
                  NestedAt(acc[seg], row, off) == LogAt(muts[..i], p, seg, row, off)
    {
      acc := FoldOne(acc, muts[i], p, oldBuf, newBuf);
      assert muts[..i + 1][..i] == muts[..i];
    }
    assert muts[..|muts|] == muts;
    out := [];
    for j := 0 to p.Arity()
      invariant |out| == j && forall k :: 0 <= k < j ==> IsFold(out[k], muts, p, k)
    {
      var rows := DrainSegment(acc[j]);
      out := out + [rows];
    }
  }

  /** `rows` is the tidy list of what the log adds to segment `j`. */
  ghost predicate IsFold(rows: SegmentRowDeltas, muts: seq<SlotMutation>, p: CuckooParams, j: nat)
    requires p.Legal() && LogOk(muts, p)
  {
    && Tidy(rows)
    && forall row: nat, off: nat :: RowsAt(rows, row, off) == LogAt(muts, p, j, row, off)
  }

  // ---------- what the fold promises ----------

  /** The folded deltas of a consistent log carry every segment's old cells exactly to its new cells. */
  lemma {:induction false} FoldIsDiff(rows: SegmentRowDeltas, db: Database, muts: seq<SlotMutation>, p: CuckooParams,
                                      j: nat)
    requires p.Legal() && DatabaseOk(db, p) && LogOk(muts, p) && Consistent(db, muts, p)
    requires j < p.Arity() && IsFold(rows, muts, p, j)
    ensures RowsDense(rows, p.SegmentSize(), p.RowWidth())
         == Diff(db[j], Replay(db, muts, p)[j], p.SegmentSize(), p.RowWidth())
  {
    var n, w, after := p.SegmentSize(), p.RowWidth(), Replay(db, muts, p);
    forall r, o | 0 <= r < n && 0 <= o < w ensures RowsDense(rows, n, w)[r][o] == Diff(db[j], after[j], n, w)[r][o] {
      Telescopes(db, muts, p, j, r, o);
    }
    forall r | 0 <= r < n ensures RowsDense(rows, n, w)[r] == Diff(db[j], after[j], n, w)[r] {
    }
  }

  /** They are canonical, so the wire encoder accepts them. */
  lemma {:induction false} FoldIsCanonical(rows: SegmentRowDeltas, db: Database, muts: seq<SlotMutation>,
                                           p: CuckooParams, j: nat)
    requires p.Legal() && DatabaseOk(db, p) && LogOk(muts, p) && Consistent(db, muts, p)
    requires j < p.Arity() && IsFold(rows, muts, p, j)
    ensures CanonicalSegment(rows, ForParams(p))
  {
    var l := ForParams(p);
    forall r: nat, o: nat | RowsAt(rows, r, o) != 0
      ensures r < l.segmentSize && o < l.rowWidth && -l.Modulus() < RowsAt(rows, r, o) < l.Modulus()
    {
      if r >= p.SegmentSize() || o >= p.RowWidth() {
        LogInRange(muts, p, j, r, o);
      } else {
        Telescopes(db, muts, p, j, r, o);
        var after := Replay(db, muts, p);
        assert db[j][r][o] < Pow2(p.plaintextBits) && after[j][r][o] < Pow2(p.plaintextBits);
      }
    }
    TidyCanonical(rows, l);
  }

  /** Merging the folds of consecutive logs into an accumulator that holds an earlier fold never
      overflows and gives the fold of the concatenated log. */
  lemma {:induction false} MergeIsFold(m: DeltaMap, rows: SegmentRowDeltas, db: Database,
                                       first: seq<SlotMutation>, second: seq<SlotMutation>, p: CuckooParams, j: nat)
    requires p.Legal() && DatabaseOk(db, p) && LogOk(first, p) && LogOk(second, p) && j < p.Arity()
    requires Consistent(db, first + second, p)
    requires ZeroFree(m) && forall row, off :: MapAt(m, row, off) == LogAt(first, p, j, row, off)
    requires IsFold(rows, second, p, j)
    ensures MergeRows(m, rows).1 && ZeroFree(MergeRows(m, rows).0)
    ensures forall row, off :: MapAt(MergeRows(m, rows).0, row, off) == LogAt(first + second, p, j, row, off)
  {
    assert Tidy(rows) && forall row: nat, off: nat :: RowsAt(rows, row, off) == LogAt(second, p, j, row, off);
    assert LogOk(first + second, p);
    hide *;
    forall row: nat, off: nat
      ensures MapAt(m, row, off) + RowsAt(rows, row, off) == LogAt(first + second, p, j, row, off)
      ensures FitsI64(MapAt(m, row, off)) && FitsI64(MapAt(m, row, off) + RowsAt(rows, row, off))
    {
      SumsFit(db, first, second, p, j, row, off);
    }
    MergeTidy(m, rows);
  }

  /** The parts and the whole of a consistent log add up to sums that fit. */
  lemma {:induction false} SumsFit(db: Database, first: seq<SlotMutation>, second: seq<SlotMutation>, p: CuckooParams,
                                   j: nat, row: nat, off: nat)
    requires p.Legal() && DatabaseOk(db, p) && LogOk(first, p) && LogOk(second, p) && j < p.Arity()
    requires LogOk(first + second, p) && Consistent(db, first + second, p)
    ensures LogAt(first + second, p, j, row, off) == LogAt(first, p, j, row, off) + LogAt(second, p, j, row, off)
    ensures FitsI64(LogAt(first, p, j, row, off)) && FitsI64(LogAt(first + second, p, j, row, off))
  {
    hide *;
    ConsistentPrefix(db, first + second, |first|, p);
    assert (first + second)[..|first|] == first;
    LogConcat(first, second, p, j, row, off);
    NetChangeFits(db, first, p, j, row, off);
    NetChangeFits(db, first + second, p, j, row, off);
  }

  lemma {:induction false} MergeTidy(m: DeltaMap, rows: SegmentRowDeltas)
    requires ZeroFree(m) && Tidy(rows)
    requires forall row: nat, off: nat ::
               FitsI64(MapAt(m, row, off)) && FitsI64(MapAt(m, row, off) + RowsAt(rows, row, off))
    ensures MergeRows(m, rows).1 && ZeroFree(MergeRows(m, rows).0)
    ensures forall row, off :: MapAt(MergeRows(m, rows).0, row, off) == MapAt(m, row, off) + RowsAt(rows, row, off)
  {
    MergeRowsSucceeds(m, rows);
    MergeRowsAdds(m, rows);
  }

  /** The net change of a cell over a consistent log is below the cell modulus. */
  lemma {:induction false} NetChangeFits(db: Database, muts: seq<SlotMutation>, p: CuckooParams, j: nat, row: nat,
                                         off: nat)
    requires p.Legal() && DatabaseOk(db, p) && LogOk(muts, p) && Consistent(db, muts, p) && j < p.Arity()
    ensures -(Pow2(p.plaintextBits) as int) < LogAt(muts, p, j, row, off) < Pow2(p.plaintextBits)
    ensures FitsI64(LogAt(muts, p, j, row, off))
  {
    Pow2Monotone(p.plaintextBits, 32);
    PowersOfTwo();
    if row >= p.SegmentSize() || off >= p.RowWidth() {
      LogInRange(muts, p, j, row, off);
    } else {
      Telescopes(db, muts, p, j, row, off);
      var after := Replay(db, muts, p);
      assert db[j][row][off] < Pow2(p.plaintextBits) && after[j][row][off] < Pow2(p.plaintextBits);
    }
  }
}
