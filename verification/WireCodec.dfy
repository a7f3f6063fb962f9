/** The encoder and the decoder as they run: loops over a bit writer and a bit reader, proved to
    compute the functions of `WireFormat.dfy`. */
module WireCodec {
  import opened Words
  import opened Geometry
  import opened WireFormat
  import opened WireRoundTrip
  import opened WireTheorems
  import opened WireSize
  import opened BitIO

  // ---------- validation ----------

  method ValidateCells(cells: seq<Cell>, l: DeltaWireLayout) returns (ok: bool)
    ensures ok <==> CanonicalCells(cells, l)
  {
    if cells == [] { return false; }
    var prevOffset := None;
    for k := 0 to |cells|
      invariant prevOffset == if k == 0 then None else Some(cells[k - 1].offset)
      invariant Ascending(cells[..k])
      invariant forall i :: 0 <= i < k ==> CellInRange(cells[i], l)
    {
      var Cell(offset, delta) := cells[k];
      if offset >= l.rowWidth { assert !CellInRange(cells[k], l); return false; }
      if prevOffset.Some? && offset <= prevOffset.value { assert !Ascending(cells); return false; }
      prevOffset := Some(offset);
      if delta == 0 || delta >= l.Modulus() || delta <= -l.Modulus() {
        assert !CellInRange(cells[k], l);
        return false;
      }
      assert cells[..k + 1] == cells[..k] + [cells[k]];
    }
    assert cells[..|cells|] == cells;
    return true;
  }

  method ValidateSegment(seg: SegmentRowDeltas, l: DeltaWireLayout) returns (ok: bool)
    ensures ok <==> CanonicalSegment(seg, l)
  {
    var prevRow := None;
    for i := 0 to |seg|
      invariant prevRow == if i == 0 then None else Some(seg[i - 1].row)
      invariant CanonicalSegment(seg[..i], l)
    {
      if seg[i].row >= l.segmentSize { return false; }
      if prevRow.Some? && seg[i].row <= prevRow.value { return false; }
      prevRow := Some(seg[i].row);
      var cellsOk := ValidateCells(seg[i].cells, l);
      if !cellsOk { return false; }
      assert seg[..i + 1] == seg[..i] + [seg[i]];
    }
    assert seg[..|seg|] == seg;
    return true;
  }

  /** The checks `encode` panics on. */
  method Validate(b: HintDeltaBundle) returns (ok: bool)
    requires b.params.Legal()
    ensures ok <==> Canonical(b)
  {
    var l := ForParams(b.params);
    if |b.perSegmentRowDeltas| != b.params.Arity() { return false; }
    for j := 0 to |b.perSegmentRowDeltas|
      invariant forall i :: 0 <= i < j ==> CanonicalSegment(b.perSegmentRowDeltas[i], l)
    {
      var segOk := ValidateSegment(b.perSegmentRowDeltas[j], l);
      if !segOk { return false; }
    }
    return true;
  }

  // ---------- accounting ----------

  datatype DeltaWireStats = DeltaWireStats(counts: Counts, bits: nat, bytes: nat)

  /** Row, run and cell counts of a bundle, and the size they imply. */
  method WireStats(b: HintDeltaBundle) returns (stats: DeltaWireStats)
    requires b.params.Legal() && Canonical(b)
    ensures stats.counts == BundleTotals(b)
    ensures stats.bits == |BundleBits(b)| && 8 * stats.bytes == |Padded(BundleBits(b))|
  {
    var l, segs := ForParams(b.params), b.perSegmentRowDeltas;
    var counts := Counts(0, 0, 0, 0);
    for j := 0 to |segs|
      invariant AllAscending(Flatten(segs, l.segmentSize, j))
      invariant counts == RowTotals(Flatten(segs, l.segmentSize, j), l.maxGap)
    {
      SegmentAscending(segs[j], l);
      counts := AddSegment(
        counts, Flatten(segs, l.segmentSize, j), GlobalRows(segs[j], j, l.segmentSize), segs[j], l.maxGap);
    }
    BundleSize(b);
    stats := DeltaWireStats(
      counts,
      l.BitCount(counts.rows, counts.runs, counts.cells),
      l.ByteCount(counts.rows, counts.runs, counts.cells));
  }

  ghost predicate AllAscending(rows: seq<BucketDelta>) {
    forall i :: 0 <= i < |rows| ==> Ascending(rows[i].cells)
  }

  lemma {:induction false} SegmentAscending(seg: SegmentRowDeltas, l: DeltaWireLayout)
    requires CanonicalSegment(seg, l)
    ensures forall i :: 0 <= i < |seg| ==> Ascending(seg[i].cells)
  {
    forall i | 0 <= i < |seg| ensures Ascending(seg[i].cells) { assert CanonicalCells(seg[i].cells, l); }
  }

  lemma {:induction false} MoreTotals(rows: seq<BucketDelta>, row: BucketDelta, maxGap: nat)
    requires AllAscending(rows) && Ascending(row.cells)
    ensures AllAscending(rows + [row])
    ensures RowTotals(rows + [row], maxGap) == Plus(RowTotals(rows, maxGap), RowCounts(row.cells, maxGap))
  {
    assert (rows + [row])[..|rows|] == rows;
  }

  method AddSegment(before: Counts, ghost done: seq<BucketDelta>, ghost rows: seq<BucketDelta>, seg: SegmentRowDeltas,
                    maxGap: nat)
    returns (counts: Counts)
    requires |rows| == |seg| && forall i :: 0 <= i < |seg| ==> rows[i].cells == seg[i].cells && Ascending(seg[i].cells)
    requires AllAscending(done) && before == RowTotals(done, maxGap)
    ensures AllAscending(done + rows) && counts == RowTotals(done + rows, maxGap)
  {
    hide Ascending, RowCounts, RowTotals;
    counts := before;
    ghost var all := done;
    for i := 0 to |seg|
      invariant all == done + rows[..i]
      invariant AllAscending(all) && counts == RowTotals(all, maxGap)
    {
      var row := RowStats(seg[i].cells, maxGap);
      counts := Plus(counts, row);
      MoreTotals(all, rows[i], maxGap);
      all := all + [rows[i]];
    }
    assert rows[..|seg|] == rows;
  }

  method RowStats(cells: seq<Cell>, maxGap: nat) returns (counts: Counts)
    requires Ascending(cells)
    ensures counts == RowCounts(cells, maxGap)
  {
    RunsAscending(cells, maxGap);
    var runs := RowRuns(cells, maxGap);
    var runCount, literals := 0, 0;
    for k := 0 to |runs|
      invariant runCount == k && literals + LiteralCount(runs[k..]) == LiteralCount(runs)
    {
      runCount := runCount + 1;
      literals := literals + RunSpan(runs[k]);
      assert runs[k..][1..] == runs[k + 1..];
    }
    counts := Counts(1, runCount, literals, |cells|);
  }

  // ---------- encoding ----------

  /** Literal `k` of a run, by the edit whose turn it is. */
  lemma {:induction false} DenseAt(run: seq<Cell>, k: nat, idx: nat)
    requires run != [] && Ascending(run) && k < RunSpan(run) && idx < |run|
    requires run[idx].offset >= run[0].offset + k
    requires idx > 0 ==> run[idx - 1].offset < run[0].offset + k
    ensures |Dense(run)| == RunSpan(run)
    ensures Dense(run)[k] == if run[idx].offset == run[0].offset + k then run[idx].delta else 0
    decreases |run|
  {
    if |run| > 1 {
      var gap := run[1].offset - run[0].offset;
      assert run[0].offset < run[1].offset <= run[|run| - 1].offset;
      if k < gap {
        DenseAt(run[1..], 0, 0);
      } else {
        DenseAt(run[1..], k - gap, idx - 1);
      }
    }
  }

  lemma {:induction false} NextDelta(now: seq<bool>, ds: seq<int>, k: nat, l: DeltaWireLayout)
    requires k < |ds| && InRange(ds, l)
    ensures now + DeltaListBits(ds[k..], l)
         == now + Bits(ds[k] + (l.Modulus() - 1), l.deltaBits) + DeltaListBits(ds[k + 1..], l)
  {
    assert ds[k..][1..] == ds[k + 1..];
    Concat(now, Bits(ds[k] + (l.Modulus() - 1), l.deltaBits), DeltaListBits(ds[k + 1..], l));
  }

  /** Write the literals of a run, taking each edit when its offset comes up and zero otherwise. */
  method EncodeDeltas(w: BitWriter, run: seq<Cell>, l: DeltaWireLayout)
    requires w.Valid() && run != [] && Ascending(run) && InRange(Dense(run), l)
    requires w.bitPos + |DeltaListBits(Dense(run), l)| <= 8 * w.bytes.Length
    modifies w, w.bytes
    ensures w.Valid() && w.Written() == old(w.Written()) + DeltaListBits(Dense(run), l)
  {
    hide Dense;
    ghost var ds := Dense(run);
    ghost var target := w.Written() + DeltaListBits(ds, l);
    var start, len := run[0].offset, RunSpan(run);
    DenseAt(run, 0, 0);
    var idx := 0;
    assert ds[0..] == ds;
    for k := 0 to len
      invariant w.Valid() && idx <= |run|
      invariant idx < |run| ==> run[idx].offset >= start + k
      invariant idx > 0 ==> run[idx - 1].offset < start + k
      invariant w.Written() + DeltaListBits(ds[k..], l) == target
    {
      assert idx < |run|;
      DenseAt(run, k, idx);
      var delta := 0;
      if run[idx].offset == start + k {
        delta := run[idx].delta;
        idx := idx + 1;
      }
      NextDelta(w.Written(), ds, k, l);
      w.WriteBits(delta + (l.Modulus() - 1), l.deltaBits);
    }
    assert ds[len..] == [];
  }

  method EncodeRun(w: BitWriter, run: seq<Cell>, l: DeltaWireLayout)
    requires w.Valid() && l.Sound() && CanonicalCells(run, l) && Joined(run, l.maxGap)
    requires w.bitPos + |RunBits(run, l)| <= 8 * w.bytes.Length
    modifies w, w.bytes
    ensures w.Valid() && w.Written() == old(w.Written()) + RunBits(run, l)
  {
    hide Bits, DeltaListBits, RunBits, Dense, Sparse, Joined, WellFormedRun, InRange;
    LiteralsOfRun(run, l);
    var len := RunSpan(run);
    w.WriteBits(run[0].offset, l.offsetBits);
    w.WriteBits(len - 1, l.offsetBits);
    EncodeDeltas(w, run, l);
  }

  method EncodeRow(w: BitWriter, bucket: nat, cells: seq<Cell>, l: DeltaWireLayout)
    requires w.Valid() && l.Sound() && CanonicalCells(cells, l)
    requires w.bitPos + l.bucketBits + |RunListBits(cells, l)| <= 8 * w.bytes.Length
    modifies w, w.bytes
    ensures w.Valid() && w.Written() == old(w.Written()) + Bits(bucket, l.bucketBits) + RunListBits(cells, l)
  {
    w.WriteBits(bucket, l.bucketBits);
    ghost var target := w.Written() + RunListBits(cells, l);
    var runs := RowRuns(cells, l.maxGap);
    ghost var rest := cells;
    for k := 0 to |runs|
      invariant w.Valid() && RowRuns(rest, l.maxGap) == runs[k..]
      invariant rest != [] ==> CanonicalCells(rest, l)
      invariant k == 0 ==> rest == cells && w.Written() + RunListBits(rest, l) == target
      invariant k > 0 ==> w.Written() + Continuation(rest, l) == target
    {
      ghost var run, tail := SplitFirstRun(rest, l);
      RunsOfSplit(rest, run, tail, l);
      assert runs[k..][1..] == runs[k + 1..];
      RunListStep(rest, run, tail, l);
      ghost var now := w.Written();
      if k > 0 {
        Concat(now, [true], RunListBits(rest, l));
        w.WriteBit(true);
        now := now + [true];
      }
      Concat(now, RunBits(run, l), Continuation(tail, l));
      EncodeRun(w, runs[k], l);
      rest := tail;
    }
    w.WriteBit(false);
  }

  /** What follows the runs already written. */
  ghost function Continuation(rest: seq<Cell>, l: DeltaWireLayout): seq<bool>
    requires rest != [] ==> CanonicalCells(rest, l)
  {
    if rest == [] then [false] else [true] + RunListBits(rest, l)
  }

  lemma {:induction false} RunListStep(cells: seq<Cell>, run: seq<Cell>, tail: seq<Cell>, l: DeltaWireLayout)
    requires CanonicalCells(cells, l) && CanonicalCells(run, l) && cells == run + tail && Joined(run, l.maxGap)
    requires tail == [] ==> run == cells
    requires tail != [] ==> CanonicalCells(tail, l) && tail[0].offset - run[|run| - 1].offset - 1 > l.maxGap
    ensures RunListBits(cells, l) == RunBits(run, l) + Continuation(tail, l)
  {
    if tail == [] {
      LastRun(run, l);
    } else {
      JoinRuns(run, tail, l);
      Concat(RunBits(run, l), [true], RunListBits(tail, l));
    }
  }

  ghost predicate RowsEncodable(rows: seq<BucketDelta>, l: DeltaWireLayout) {
    forall i :: 0 <= i < |rows| ==> CanonicalCells(rows[i].cells, l)
  }

  lemma {:induction false} NextRow(now: seq<bool>, rows: seq<BucketDelta>, m: nat, l: DeltaWireLayout)
    requires m < |rows| && RowsEncodable(rows, l)
    ensures now + RowListBits(rows[m..], l) ==
            now + [true] + Bits(rows[m].bucket, l.bucketBits) + RunListBits(rows[m].cells, l)
                 + RowListBits(rows[m + 1..], l)
  {
    var a, b, c := Bits(rows[m].bucket, l.bucketBits), RunListBits(rows[m].cells, l), RowListBits(rows[m + 1..], l);
    assert rows[m..][1..] == rows[m + 1..];
    assert now + ([true] + a + b + c) == now + [true] + a + b + c;
  }

  /** Write the rows of segment `j`, which are `rows[n ..]` up to the segment's length. */
  method EncodeSegment(w: BitWriter, j: nat, seg: SegmentRowDeltas, l: DeltaWireLayout,
                       ghost rows: seq<BucketDelta>, ghost n: nat, ghost target: seq<bool>)
    requires w.Valid() && l.Sound() && n + |seg| <= |rows| && RowsEncodable(rows, l)
    requires forall i :: 0 <= i < |seg| ==> rows[n + i] == BucketDelta(j * l.segmentSize + seg[i].row, seg[i].cells)
    requires w.Written() + RowListBits(rows[n..], l) == target && |target| <= 8 * w.bytes.Length
    modifies w, w.bytes
    ensures w.Valid() && w.Written() + RowListBits(rows[n + |seg|..], l) == target
  {
    hide RowListBits, RunListBits, CanonicalCells, CanonicalSegment;
    for i := 0 to |seg|
      invariant w.Valid() && w.Written() + RowListBits(rows[n + i..], l) == target
    {
      NextRow(w.Written(), rows, n + i, l);
      EncodeFlaggedRow(w, j * l.segmentSize + seg[i].row, seg[i].cells, l, RowListBits(rows[n + i + 1..], l), target);
    }
  }

  method EncodeFlaggedRow(w: BitWriter, bucket: nat, cells: seq<Cell>, l: DeltaWireLayout,
                          ghost tail: seq<bool>, ghost target: seq<bool>)
    requires w.Valid() && l.Sound() && CanonicalCells(cells, l)
    requires w.Written() + [true] + Bits(bucket, l.bucketBits) + RunListBits(cells, l) + tail == target
    requires |target| <= 8 * w.bytes.Length
    modifies w, w.bytes
    ensures w.Valid() && w.Written() + tail == target
  {
    w.WriteBit(true);
    EncodeRow(w, bucket, cells, l);
  }

  lemma {:induction false} NoRows(segs: seq<SegmentRowDeltas>, l: DeltaWireLayout)
    ensures Flatten(segs, l.segmentSize, 0) == [] && RowListBits([], l) == [false]
  {
  }

  /** Write every row and the flag that ends the row list. */
  method EncodeRows(w: BitWriter, segs: seq<SegmentRowDeltas>, l: DeltaWireLayout)
    requires w.Valid() && l.Sound() && RowsEncodable(Flatten(segs, l.segmentSize, |segs|), l)
    requires w.bitPos + |RowListBits(Flatten(segs, l.segmentSize, |segs|), l)| <= 8 * w.bytes.Length
    modifies w, w.bytes
    ensures w.Valid() && w.Written() == old(w.Written()) + RowListBits(Flatten(segs, l.segmentSize, |segs|), l)
  {
    hide Flatten, RowListBits, CanonicalCells;
    ghost var rows := Flatten(segs, l.segmentSize, |segs|);
    ghost var target := w.Written() + RowListBits(rows, l);
    assert rows[0..] == rows;
    NoRows(segs, l);
    ghost var n := 0;
    for j := 0 to |segs|
      invariant w.Valid() && n == |Flatten(segs, l.segmentSize, j)| <= |rows|
      invariant w.Written() + RowListBits(rows[n..], l) == target
    {
      FlattenPrefix(segs, l.segmentSize, j);
      EncodeSegment(w, j, segs[j], l, rows, n, target);
      n := n + |segs[j]|;
    }
    assert rows[|rows|..] == [];
    w.WriteBit(false);
  }

  /** Encode a bundle; `None` is the panic on a bundle that is not canonical. */
  method Encode(b: HintDeltaBundle) returns (r: Option<seq<Byte>>)
    requires b.params.Legal() && b.epoch < Pow2(64)
    ensures r.Some? <==> Canonical(b)
    ensures r.Some? ==> EncodedAs(b, r.value)
  {
    var ok := Validate(b);
    if !ok { return None; }
    var stats := WireStats(b);
    var l := ForParams(b.params);
    BundleRows(b);
    hide Canonical, CanonicalRows, CanonicalCells, Distribute, Flatten, RowListBits, BundleBits, Padded, ForParams;
    var w := new BitWriter(stats.bytes);
    BundleParts(b, l);
    w.WriteBits(b.epoch, 64);
    assert w.Written() == Bits(b.epoch, 64);
    EncodeRows(w, b.perSegmentRowDeltas, l);
    assert w.Written() == BundleBits(b);
    var bytes := w.Finish();
    PaddedStream(w.Written(), stats.bytes);
    return Some(bytes);
  }

  lemma {:induction false} BundleParts(b: HintDeltaBundle, l: DeltaWireLayout)
    requires b.params.Legal() && Canonical(b) && l == ForParams(b.params)
    ensures var rows := Flatten(b.perSegmentRowDeltas, l.segmentSize, |b.perSegmentRowDeltas|);
            && RowsEncodable(rows, l)
            && BundleBits(b) == Bits(b.epoch, 64) + RowListBits(rows, l)
            && |Padded(BundleBits(b))| >= |BundleBits(b)|
  {
    FlattenCanonical(b.perSegmentRowDeltas, l, |b.perSegmentRowDeltas|);
  }

  lemma {:induction false} PaddedStream(bs: seq<bool>, byteLen: nat)
    requires |Padded(bs)| == 8 * byteLen
    ensures |bs| <= 8 * byteLen && bs + Clear(8 * byteLen - |bs|) == Padded(bs)
  {
  }

  /** Segment `j`'s rows are where the flattened list says. */
  lemma {:induction false} FlattenPrefix(segs: seq<SegmentRowDeltas>, s: nat, j: nat)
    requires j < |segs|
    ensures var rows, n := Flatten(segs, s, |segs|), |Flatten(segs, s, j)|;
            n + |segs[j]| == |Flatten(segs, s, j + 1)| <= |rows|
            && forall i :: 0 <= i < |segs[j]| ==> rows[n + i] == BucketDelta(j * s + segs[j][i].row, segs[j][i].cells)
  {
    FlattenGrows(segs, s, j + 1, |segs|);
    var before, own, rows := Flatten(segs, s, j), GlobalRows(segs[j], j, s), Flatten(segs, s, |segs|);
    assert Flatten(segs, s, j + 1) == before + own;
    hide *;
    forall i | 0 <= i < |segs[j]| ensures rows[|before| + i] == BucketDelta(j * s + segs[j][i].row, segs[j][i].cells) {
      assert rows[|before| + i] == (before + own)[|before| + i] == own[i];
    }
  }

  lemma {:induction false} FlattenGrows(segs: seq<SegmentRowDeltas>, s: nat, m: nat, n: nat)
    requires m <= n <= |segs|
    ensures Flatten(segs, s, m) <= Flatten(segs, s, n)
  {
    if m < n { FlattenGrows(segs, s, m, n - 1); }
  }

  // ---------- decoding ----------

  function PrependTo<T>(done: seq<T>, p: Parse<seq<T>>): Parse<seq<T>> {
    match p
    case Err(e) => Err(e)
    case Ok(v, rest) => Ok(done + v, rest)
  }

  lemma {:induction false} PrependNone<T>(p: Parse<seq<T>>)
    ensures PrependTo([], p) == p
  {
    if p.Ok? { assert [] + p.value == p.value; }
  }

  lemma {:induction false} PrependMore<T>(done: seq<T>, more: seq<T>, p: Parse<seq<T>>)
    ensures PrependTo(done, PrependTo(more, p)) == PrependTo(done + more, p)
  {
    if p.Ok? { assert done + (more + p.value) == done + more + p.value; }
  }

  function TrailingZeros(ds: seq<int>, current: nat): nat {
    if ds == [] then current else TrailingZeros(ds[1..], if ds[0] == 0 then current + 1 else 0)
  }

  lemma {:induction false} MaxZeroRunSnoc(ds: seq<int>, d: int, current: nat)
    ensures TrailingZeros(ds + [d], current) == if d == 0 then TrailingZeros(ds, current) + 1 else 0
    ensures MaxZeroRun(ds + [d], current) ==
            if d == 0 then Max(MaxZeroRun(ds, current), TrailingZeros(ds, current) + 1) else MaxZeroRun(ds, current)
  {
    if ds == [] {
      assert ([] + [d])[1..] == [];
    } else {
      assert (ds + [d])[1..] == ds[1..] + [d];
      MaxZeroRunSnoc(ds[1..], d, if ds[0] == 0 then current + 1 else 0);
    }
  }

  lemma {:induction false} SparseSnoc(ds: seq<int>, d: int, start: nat)
    ensures Sparse(ds + [d], start) == Sparse(ds, start) + (if d != 0 then [Cell(start + |ds|, d)] else [])
  {
    if ds == [] {
      assert ([] + [d])[1..] == [];
    } else {
      assert (ds + [d])[1..] == ds[1..] + [d];
      SparseSnoc(ds[1..], d, start + 1);
      var head := if ds[0] != 0 then [Cell(start, ds[0])] else [];
      assert Sparse(ds + [d], start) == head + Sparse(ds[1..] + [d], start + 1);
      assert Sparse(ds, start) == head + Sparse(ds[1..], start + 1);
      hide *;
    }
  }

  /** What the scan of a literal list keeps: the non-zero edits, the current and the longest zero run. */
  ghost predicate Scanned(ds: seq<int>, start: nat, cells: seq<Cell>, zeroRun: nat, maxZeroRun: nat) {
    cells == Sparse(ds, start) && zeroRun == TrailingZeros(ds, 0) && maxZeroRun == MaxZeroRun(ds, 0)
  }

  lemma {:induction false} ScanStep(ds: seq<int>, d: int, start: nat, cells: seq<Cell>, zeroRun: nat, maxZeroRun: nat)
    requires Scanned(ds, start, cells, zeroRun, maxZeroRun)
    ensures d == 0 ==> Scanned(ds + [d], start, cells, zeroRun + 1, Max(maxZeroRun, zeroRun + 1))
    ensures d != 0 ==> Scanned(ds + [d], start, cells + [Cell(start + |ds|, d)], 0, maxZeroRun)
  {
    MaxZeroRunSnoc(ds, d, 0);
    SparseSnoc(ds, d, start);
  }

  /** A zero was read at an end of the run of `len` cells. */
  ghost predicate BoundaryZero(ds: seq<int>, len: nat) {
    (ds != [] && ds[0] == 0) || (0 < len == |ds| && ds[len - 1] == 0)
  }

  /** Read one literal. */
  method ReadDelta(r: BitReader, l: DeltaWireLayout) returns (res: Result<int>)
    requires r.Valid() && l.deltaBits <= 64
    modifies r
    ensures r.Valid() && r.bitPos >= old(r.bitPos)
    ensures match ParseDelta(old(r.Rest()), l)
            case Err(e) => res == Failure(e)
            case Ok(d, rest) => res == Success(d) && r.Rest() == rest
  {
    var field := r.ReadBits(l.deltaBits);
    if field.Failure? { return Failure(field.error); }
    var code := field.value;
    if code > 2 * l.Modulus() - 2 { return Failure(DeltaOutOfRange(code)); }
    return Success(code - (l.Modulus() - 1));
  }

  lemma {:induction false} DeltasStep(done: seq<int>, bs: seq<bool>, n: nat, l: DeltaWireLayout)
    requires n > 0
    ensures PrependTo(done, ParseDeltas(bs, n, l)) ==
            match ParseDelta(bs, l)
            case Err(e) => Err(e)
            case Ok(d, rest) => PrependTo(done + [d], ParseDeltas(rest, n - 1, l))
  {
    var p := ParseDelta(bs, l);
    if p.Ok? { PrependMore(done, [p.value], ParseDeltas(p.rest, n - 1, l)); }
  }

  datatype RunScan = RunScan(cells: seq<Cell>, maxZeroRun: nat, boundaryZero: bool)

  /** The scan result a literal list must give. */
  ghost function ScanOf(ds: seq<int>, start: nat): RunScan {
    RunScan(Sparse(ds, start), MaxZeroRun(ds, 0), BoundaryZero(ds, |ds|))
  }

  lemma {:induction false} NothingScanned(start: nat, len: nat)
    ensures Scanned([], start, [], 0, 0) && !BoundaryZero([], len)
  {
  }

  lemma {:induction false} BoundaryStep(ds: seq<int>, d: int, len: nat)
    requires |ds| < len
    ensures BoundaryZero(ds + [d], len) == (BoundaryZero(ds, len) || (d == 0 && (|ds| == 0 || |ds| == len - 1)))
  {
  }

  lemma {:induction false} AllScanned(ds: seq<int>, rest: seq<bool>, start: nat, cells: seq<Cell>, zeroRun: nat,
                                      maxZeroRun: nat, l: DeltaWireLayout)
    requires Scanned(ds, start, cells, zeroRun, maxZeroRun)
    ensures PrependTo(ds, ParseDeltas(rest, 0, l)) == Ok(ds, rest)
    ensures ScanOf(ds, start) == RunScan(cells, maxZeroRun, BoundaryZero(ds, |ds|))
  {
    assert ds + [] == ds;
  }

  /** Read the literals of one run, keeping the non-zero ones and the zero runs seen. */
  method ScanDeltas(r: BitReader, start: nat, len: nat, l: DeltaWireLayout) returns (res: Result<RunScan>)
    requires r.Valid() && l.deltaBits <= 64
    modifies r
    ensures r.Valid() && r.bitPos >= old(r.bitPos)
    ensures match ParseDeltas(old(r.Rest()), len, l)
            case Err(e) => res == Failure(e)
            case Ok(ds, rest) => res == Success(ScanOf(ds, start)) && r.Rest() == rest
  {
    hide ParseDeltas, Scanned, BoundaryZero, PrependTo, Sparse, MaxZeroRun;
    ghost var all: Parse<seq<int>>, ds: seq<int> := ParseDeltas(r.Rest(), len, l), [];
    PrependNone(all);
    NothingScanned(start, len);
    var cells, zeroRun: nat, maxZeroRun: nat, boundaryZero := [], 0, 0, false;
    for k := 0 to len
      invariant r.Valid() && r.bitPos >= old(r.bitPos) && |ds| == k
      invariant all == PrependTo(ds, ParseDeltas(r.Rest(), len - k, l))
      invariant Scanned(ds, start, cells, zeroRun, maxZeroRun)
      invariant boundaryZero <==> BoundaryZero(ds, len)
    {
      DeltasStep(ds, r.Rest(), len - k, l);
      var field := ReadDelta(r, l);
      if field.Failure? { return Failure(field.error); }
      var delta := field.value;
      ScanStep(ds, delta, start, cells, zeroRun, maxZeroRun);
      BoundaryStep(ds, delta, len);
      ds := ds + [delta];
      if delta == 0 {
        if k == 0 || k == len - 1 { boundaryZero := true; }
        zeroRun := zeroRun + 1;
        maxZeroRun := Max(maxZeroRun, zeroRun);
      } else {
        zeroRun := 0;
        cells := cells + [Cell(start + k, delta)];
      }
    }
    AllScanned(ds, r.Rest(), start, cells, zeroRun, maxZeroRun, l);
    return Success(RunScan(cells, maxZeroRun, boundaryZero));
  }

  /** Read the literals of one run and check that the run is canonical. */
  method DecodeDeltas(r: BitReader, start: nat, len: nat, l: DeltaWireLayout) returns (res: Result<seq<Cell>>)
    requires r.Valid() && len > 0 && l.deltaBits <= 64
    modifies r
    ensures r.Valid() && r.bitPos >= old(r.bitPos)
    ensures match ParseDeltas(old(r.Rest()), len, l)
            case Err(e) => res == Failure(e)
            case Ok(ds, rest) =>
              if WellFormedRun(ds, l) then res == Success(Sparse(ds, start)) && r.Rest() == rest
              else res == Failure(NonCanonicalRuns)
  {
    var scan := ScanDeltas(r, start, len, l);
    if scan.Failure? { return Failure(scan.error); }
    if scan.value.boundaryZero { return Failure(NonCanonicalRuns); }
    if scan.value.maxZeroRun > l.maxGap { return Failure(NonCanonicalRuns); }
    return Success(scan.value.cells);
  }

  /** Read one run: its position, its separation from the run before, its literals. */
  method DecodeRun(r: BitReader, prevEnd: Option<nat>, l: DeltaWireLayout) returns (res: Result<(seq<Cell>, nat)>)
    requires r.Valid() && l.deltaBits <= 64 && l.offsetBits <= 64
    modifies r
    ensures r.Valid() && r.bitPos >= old(r.bitPos)
    ensures match ParseRun(old(r.Rest()), prevEnd, l)
            case Err(e) => res == Failure(e)
            case Ok((start, ds), rest) => res == Success((Sparse(ds, start), start + |ds|)) && r.Rest() == rest
  {
    hide ParseDeltas, Sparse, WellFormedRun;
    var startField := r.ReadBits(l.offsetBits);
    if startField.Failure? { return Failure(startField.error); }
    var start := startField.value;
    if start >= l.rowWidth { return Failure(OffsetOutOfRange(start)); }
    var lenField := r.ReadBits(l.offsetBits);
    if lenField.Failure? { return Failure(lenField.error); }
    var len := lenField.value + 1;
    var end := start + len;
    if end > l.rowWidth { return Failure(OffsetOutOfRange(end)); }
    if prevEnd.Some? {
      if start < prevEnd.value { return Failure(NonCanonicalRuns); }
      var gap := start - prevEnd.value;
      if gap <= l.maxGap { return Failure(NonCanonicalRuns); }
    }
    var cells := DecodeDeltas(r, start, len, l);
    if cells.Failure? { return Failure(cells.error); }
    return Success((cells.value, end));
  }

  lemma {:induction false} ParseRunsByRun(bs: seq<bool>, prevEnd: Option<nat>, l: DeltaWireLayout)
    ensures ParseRuns(bs, prevEnd, l) ==
            match ParseRun(bs, prevEnd, l)
            case Err(e) => Err(e)
            case Ok((start, ds), bs1) =>
              match ReadField(bs1, 1)
              case Err(e) => Err(e)
              case Ok(more, bs2) =>
                if more == 0 then Ok(Sparse(ds, start), bs2)
                else PrependTo(Sparse(ds, start), ParseRuns(bs2, Some(start + |ds|), l))
  {
  }

  /** Read the next run of a row and whether another follows. */
  method DecodeNextRun(r: BitReader, prevEnd: Option<nat>, l: DeltaWireLayout)
      returns (res: Result<(seq<Cell>, nat, bool)>)
    requires r.Valid() && l.deltaBits <= 64 && l.offsetBits <= 64
    modifies r
    ensures r.Valid() && r.bitPos >= old(r.bitPos) && (res.Success? ==> r.bitPos > old(r.bitPos))
    ensures res.Failure? ==> ParseRuns(old(r.Rest()), prevEnd, l) == Err(res.error)
    ensures res.Success? ==>
              var (cells, end, more) := res.value;
              ParseRuns(old(r.Rest()), prevEnd, l) ==
                if more then PrependTo(cells, ParseRuns(r.Rest(), Some(end), l)) else Ok(cells, r.Rest())
  {
    hide ParseRun, ParseDeltas, Sparse;
    ghost var bs := r.Rest();
    ParseRunsByRun(bs, prevEnd, l);
    var run := DecodeRun(r, prevEnd, l);
    if run.Failure? { return Failure(run.error); }
    var (cells, end) := run.value;
    ghost var bs1 := r.Rest();
    assert ParseRuns(bs, prevEnd, l) ==
      match ReadField(bs1, 1)
      case Err(e) => Err(e)
      case Ok(more, bs2) => if more == 0 then Ok(cells, bs2) else PrependTo(cells, ParseRuns(bs2, Some(end), l));
    var more := r.ReadBits(1);
    if more.Failure? { return Failure(more.error); }
    return Success((cells, end, more.value != 0));
  }

  /** Read the run list of one row. */
  method DecodeRow(r: BitReader, l: DeltaWireLayout) returns (res: Result<seq<Cell>>)
    requires r.Valid() && l.deltaBits <= 64 && l.offsetBits <= 64
    modifies r
    ensures r.Valid() && r.bitPos >= old(r.bitPos)
    ensures match ParseRuns(old(r.Rest()), None, l)
            case Err(e) => res == Failure(e)
            case Ok(cells, rest) => res == Success(cells) && r.Rest() == rest
  {
    ghost var all := ParseRuns(r.Rest(), None, l);
    PrependNone(all);
    var cells: seq<Cell>, prevEnd := [], None;
    while true
      invariant r.Valid() && r.bitPos >= old(r.bitPos)
      invariant all == PrependTo(cells, ParseRuns(r.Rest(), prevEnd, l))
      decreases 8 * |r.bytes| - r.bitPos
    {
      var run := DecodeNextRun(r, prevEnd, l);
      if run.Failure? { return Failure(run.error); }
      PrependMore(cells, run.value.0, ParseRuns(r.Rest(), Some(run.value.1), l));
      cells := cells + run.value.0;
      prevEnd := Some(run.value.1);
      if !run.value.2 { return Success(cells); }
    }
  }

  /** Read the next row, or the flag that ends the row list. */
  method DecodeNextRow(r: BitReader, prevBucket: Option<nat>, l: DeltaWireLayout)
      returns (res: Result<Option<BucketDelta>>)
    requires r.Valid() && l.deltaBits <= 64 && l.offsetBits <= 64 && l.bucketBits <= 64
    modifies r
    ensures r.Valid() && (res.Success? ==> r.bitPos > old(r.bitPos))
    ensures ParseRows(old(r.Rest()), prevBucket, l) ==
            match res
            case Failure(e) => Err(e)
            case Success(None) => Ok([], r.Rest())
            case Success(Some(row)) => PrependTo([row], ParseRows(r.Rest(), Some(row.bucket), l))
    ensures res.Success? && res.value.Some? ==> res.value.value.bucket < l.numBuckets
  {
    var more := r.ReadBits(1);
    if more.Failure? { return Failure(more.error); }
    if more.value == 0 { return Success(None); }
    var field := r.ReadBits(l.bucketBits);
    if field.Failure? { return Failure(field.error); }
    var bucket := field.value;
    if bucket >= l.numBuckets { return Failure(BucketOutOfRange(bucket)); }
    if prevBucket.Some? && bucket <= prevBucket.value { return Failure(NonCanonicalRows); }
    var cells := DecodeRow(r, l);
    if cells.Failure? { return Failure(cells.error); }
    return Success(Some(BucketDelta(bucket, cells.value)));
  }

  lemma {:induction false} DistributeNone(arity: nat, s: nat)
    requires s > 0
    ensures BucketsBelow([], arity, s) && Distribute([], arity, s) == seq(arity, _ => [])
  {
  }

  lemma {:induction false} DistributeMore(done: seq<BucketDelta>, row: BucketDelta, arity: nat, s: nat)
    requires s > 0 && BucketsBelow(done, arity, s) && row.bucket / s < arity
    ensures BucketsBelow(done + [row], arity, s)
    ensures Distribute(done + [row], arity, s) == PushRow(Distribute(done, arity, s), row, s)
  {
    assert (done + [row])[..|done|] == done;
  }

  lemma {:induction false} BucketRouted(bucket: nat, params: CuckooParams)
    requires params.Legal() && bucket < ForParams(params).numBuckets
    ensures bucket / ForParams(params).segmentSize < params.Arity()
  {
    LayoutSegments(params);
    QuotientBelow(bucket, params.Arity(), ForParams(params).segmentSize);
  }

  /** Read every row and route it to its segment. */
  method DecodeRowList(r: BitReader, params: CuckooParams, l: DeltaWireLayout)
      returns (res: Result<seq<SegmentRowDeltas>>)
    requires r.Valid() && params.Legal() && l == ForParams(params)
    modifies r
    ensures r.Valid()
    ensures match ParseRows(old(r.Rest()), None, l)
            case Err(e) => res == Failure(e)
            case Ok(rows, rest) =>
              && BucketsBelow(rows, params.Arity(), l.segmentSize)
              && res == Success(Distribute(rows, params.Arity(), l.segmentSize)) && r.Rest() == rest
  {
    hide ParseRows, Distribute, PushRow, BucketsBelow;
    LegalWidths(params);
    var arity, size := params.Arity(), l.segmentSize;
    ghost var all: Parse<seq<BucketDelta>>, done: seq<BucketDelta> := ParseRows(r.Rest(), None, l), [];
    PrependNone(all);
    var segs: seq<SegmentRowDeltas>, prevBucket := seq(arity, _ => []), None;
    DistributeNone(arity, size);
    while true
      invariant r.Valid()
      invariant all == PrependTo(done, ParseRows(r.Rest(), prevBucket, l))
      invariant BucketsBelow(done, arity, size) && segs == Distribute(done, arity, size)
      decreases 8 * |r.bytes| - r.bitPos
    {
      var next := DecodeNextRow(r, prevBucket, l);
      if next.Failure? { return Failure(next.error); }
      if next.value.None? { break; }
      var row := next.value.value;
      PrependMore(done, [row], ParseRows(r.Rest(), Some(row.bucket), l));
      BucketRouted(row.bucket, params);
      prevBucket := Some(row.bucket);
      DistributeMore(done, row, arity, size);
      segs := PushRow(segs, row, size);
      done := done + [row];
    }
    assert done + [] == done;
    return Success(segs);
  }

  /** The three ways decoding ends: in the epoch field, in the rows, at the padding. */
  lemma {:induction false} DecodeEndsInEpoch(bytes: seq<Byte>, params: CuckooParams)
    requires params.Legal() && ReadField(Stream(bytes), 64).Err?
    ensures DecodeBytes(bytes, params) == Failure(ReadField(Stream(bytes), 64).error)
  {
  }

  lemma {:induction false} DecodeEndsInRows(bytes: seq<Byte>, params: CuckooParams, epoch: nat, bs1: seq<bool>)
    requires params.Legal() && ReadField(Stream(bytes), 64) == Ok(epoch, bs1)
    requires ParseRows(bs1, None, ForParams(params)).Err?
    ensures DecodeBytes(bytes, params) == Failure(ParseRows(bs1, None, ForParams(params)).error)
  {
    hide ReadField, ParseRows, ForParams, Distribute, PaddingError, PadLength, Stream;
  }

  lemma {:induction false} DecodeEndsAtPadding(bytes: seq<Byte>, params: CuckooParams, epoch: nat, bs1: seq<bool>,
                                               rows: seq<BucketDelta>, rest: seq<bool>)
    requires params.Legal() && ReadField(Stream(bytes), 64) == Ok(epoch, bs1)
    requires ParseRows(bs1, None, ForParams(params)) == Ok(rows, rest)
    requires BucketsBelow(rows, params.Arity(), ForParams(params).segmentSize)
    requires |rest| <= |Stream(bytes)|
    ensures DecodeBytes(bytes, params)
         == match PaddingError(rest, PadLength(|Stream(bytes)| - |rest|))
            case Some(e) => Failure(e)
            case None =>
              Success(HintDeltaBundle(epoch, Distribute(rows, params.Arity(), ForParams(params).segmentSize), params))
  {
    hide ReadField, ParseRows, ForParams, Distribute, PaddingError, PadLength, Stream, BucketsBelow;
  }

  /** Decode an untrusted byte string. */
  method Decode(bytes: seq<Byte>, params: CuckooParams) returns (res: Result<HintDeltaBundle>)
    requires params.Legal()
    ensures res == DecodeBytes(bytes, params)
  {
    LegalSound(params);
    hide *;
    var r := new BitReader(bytes);
    var epoch := r.ReadBits(64);
    if epoch.Failure? {
      DecodeEndsInEpoch(bytes, params);
      return Failure(epoch.error);
    }
    ghost var bs1 := r.Rest();
    var l := ForParams(params);
    var segs := DecodeRowList(r, params, l);
    if segs.Failure? {
      DecodeEndsInRows(bytes, params, epoch.value, bs1);
      return Failure(segs.error);
    }
    ghost var rows, rest := ParseRows(bs1, None, l).value, r.Rest();
    DecodeEndsAtPadding(bytes, params, epoch.value, bs1, rows, rest);
    res := CheckPadding(r, HintDeltaBundle(epoch.value, segs.value, params));
  }

  lemma {:induction false} LegalSound(params: CuckooParams)
    requires params.Legal()
    ensures ForParams(params).segmentSize > 0
  {
    LegalPositive(params);
  }

  lemma {:induction false} PadAligned(n: nat)
    ensures (n + PadLength(n)) % 8 == 0
  {
  }

  /** Every field fits the 64-bit reads of the decoder. */
  lemma {:induction false} LegalWidths(params: CuckooParams)
    requires params.Legal()
    ensures var l := ForParams(params); l.bucketBits <= 32 && l.offsetBits <= 16 && l.deltaBits <= 33
  {
    hide Pow2, GapLimit;
    PowersOfTwo();
    LegalPositive(params);
    BitlenIff(params.numBuckets - 1, 32);
    BitlenIff(params.RowWidth() - 1, 16);
  }

  /** Zero bits up to the byte boundary, then nothing. */
  method CheckPadding(r: BitReader, b: HintDeltaBundle) returns (res: Result<HintDeltaBundle>)
    requires r.Valid()
    modifies r
    ensures res == match PaddingError(old(r.Rest()), PadLength(old(r.bitPos)))
                   case Some(e) => Failure(e)
                   case None => Success(b)
  {
    ghost var rest := r.Rest();
    var pad := PadLength(r.bitPos);
    for k := 0 to pad
      invariant r.Valid() && r.bitPos == old(r.bitPos) + k && r.Rest() == rest[k..] && k <= |rest|
      invariant true !in rest[..k]
    {
      var bit := r.ReadBits(1);
      if bit.Failure? { return Failure(bit.error); }
      FlagCanonical(rest[k..]);
      if bit.value != 0 { assert rest[k] in rest[..pad]; return Failure(NonZeroPadding); }
      assert rest[..k + 1] == rest[..k] + [rest[k]];
    }
    PadAligned(old(r.bitPos));
    if r.bitPos / 8 != |r.bytes| { return Failure(TrailingBytes); }
    return Success(b);
  }
}
