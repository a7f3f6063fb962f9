/** Exact size of an encoding: the closed form over the row, run and literal counts. */
module WireSize {
  import opened Geometry
  import opened WireFormat
  import opened WireRoundTrip

  /** Literals the runs carry: run lengths summed, bridged zeros included. */
  function LiteralCount(runs: seq<seq<Cell>>): nat
    requires forall i :: 0 <= i < |runs| ==> runs[i] != [] && Ascending(runs[i])
  {
    if runs == [] then 0 else RunSpan(runs[0]) + LiteralCount(runs[1..])
  }

  /** Number of cells one run covers. */
  function RunSpan(run: seq<Cell>): (n: nat)
    requires run != [] && Ascending(run)
    ensures n == run[|run| - 1].offset - run[0].offset + 1
  {
    if |run| == 1 then 1 else
    assert run[0].offset < run[|run| - 1].offset;
    run[|run| - 1].offset - run[0].offset + 1
  }

  datatype Counts = Counts(rows: nat, runs: nat, cells: nat, nonzero: nat)

  function Plus(a: Counts, b: Counts): Counts {
    Counts(a.rows + b.rows, a.runs + b.runs, a.cells + b.cells, a.nonzero + b.nonzero)
  }

  lemma {:induction false} RunsAscending(cells: seq<Cell>, maxGap: nat)
    requires Ascending(cells)
    ensures forall i :: 0 <= i < |RowRuns(cells, maxGap)| ==>
              RowRuns(cells, maxGap)[i] != [] && Ascending(RowRuns(cells, maxGap)[i])
    decreases |cells|
  {
    if cells != [] { RunsAscending(cells[FirstRun(cells, maxGap)..], maxGap); }
  }

  function RowCounts(cells: seq<Cell>, maxGap: nat): Counts
    requires Ascending(cells)
  {
    RunsAscending(cells, maxGap);
    var runs := RowRuns(cells, maxGap);
    Counts(1, |runs|, LiteralCount(runs), |cells|)
  }

  /** Totals over the first `n` rows of a list. */
  function RowTotals(rows: seq<BucketDelta>, maxGap: nat): Counts
    requires forall i :: 0 <= i < |rows| ==> Ascending(rows[i].cells)
  {
    if rows == [] then Counts(0, 0, 0, 0)
    else Plus(RowTotals(rows[..|rows| - 1], maxGap), RowCounts(rows[|rows| - 1].cells, maxGap))
  }

  lemma {:induction false} DeltaListLength(ds: seq<int>, l: DeltaWireLayout)
    requires InRange(ds, l)
    ensures |DeltaListBits(ds, l)| == |ds| * l.deltaBits
  {
    if ds != [] {
      DeltaListLength(ds[1..], l);
      assert |ds| * l.deltaBits == l.deltaBits + |ds[1..]| * l.deltaBits;
    }
  }

  lemma {:induction false} RunLength(run: seq<Cell>, l: DeltaWireLayout)
    requires CanonicalCells(run, l) && Joined(run, l.maxGap)
    ensures |RunBits(run, l)| == 2 * l.offsetBits + RunSpan(run) * l.deltaBits
  {
    LiteralsOfRun(run, l);
    DeltaListLength(Dense(run), l);
  }

  lemma {:induction false} AddRun(runs: nat, span: nat, cells: nat, head: nat, delta: nat)
    ensures (1 + runs) * head + (span + cells) * delta == head + span * delta + (runs * head + cells * delta)
  {
  }

  lemma {:induction false} AddCounts(c: Counts, d: Counts, l: DeltaWireLayout)
    ensures var s := Plus(c, d);
            l.BitCount(s.rows, s.runs, s.cells) == l.BitCount(c.rows, c.runs, c.cells) +
              (d.rows * (1 + l.bucketBits) + d.runs * (2 * l.offsetBits + 1) + d.cells * l.deltaBits)
  {
  }

  /** The runs of a row are its first run and the runs of what follows. */
  lemma {:induction false} RunsOfSplit(cells: seq<Cell>, run: seq<Cell>, tail: seq<Cell>, l: DeltaWireLayout)
    requires CanonicalCells(cells, l) && CanonicalCells(run, l) && cells == run + tail && Joined(run, l.maxGap)
    requires tail != [] ==> CanonicalCells(tail, l) && tail[0].offset - run[|run| - 1].offset - 1 > l.maxGap
    ensures RowRuns(cells, l.maxGap) == [run] + RowRuns(tail, l.maxGap)
    ensures Ascending(run) && Ascending(tail)
    ensures RowCounts(cells, l.maxGap) ==
            var t := RowCounts(tail, l.maxGap);
            Counts(1, 1 + t.runs, RunSpan(run) + t.cells, |cells|)
  {
    CanonicalParts(run, l);
    FirstRunUnique(run, tail, l.maxGap);
    assert cells[..|run|] == run && cells[|run|..] == tail;
    RunsAscending(cells, l.maxGap);
    RunsAscending(tail, l.maxGap);
    assert RowRuns(cells, l.maxGap)[1..] == RowRuns(tail, l.maxGap);
  }

  lemma {:induction false} RunListLength(cells: seq<Cell>, l: DeltaWireLayout)
    requires CanonicalCells(cells, l)
    ensures var c := RowCounts(cells, l.maxGap);
            |RunListBits(cells, l)| == c.runs * (2 * l.offsetBits + 1) + c.cells * l.deltaBits
    decreases |cells|
  {
    hide *;
    var run, tail := SplitFirstRun(cells, l);
    if tail != [] { RunListLength(tail, l); } else { NoRunCounts(l.maxGap); }
    RunsOfSplit(cells, run, tail, l);
    FirstRunLength(cells, run, tail, l);
    var c := RowCounts(tail, l.maxGap);
    AddRun(c.runs, RunSpan(run), c.cells, 2 * l.offsetBits + 1, l.deltaBits);
  }

  lemma {:induction false} NoRunCounts(maxGap: nat)
    ensures Ascending([]) && RowCounts([], maxGap).runs == 0 && RowCounts([], maxGap).cells == 0
  {
  }

  lemma {:induction false} FirstRunLength(cells: seq<Cell>, run: seq<Cell>, tail: seq<Cell>, l: DeltaWireLayout)
    requires CanonicalCells(cells, l) && CanonicalCells(run, l) && cells == run + tail && Joined(run, l.maxGap)
    requires tail == [] ==> run == cells
    requires tail != [] ==> CanonicalCells(tail, l) && tail[0].offset - run[|run| - 1].offset - 1 > l.maxGap
    ensures |RunListBits(cells, l)| ==
            2 * l.offsetBits + 1 + RunSpan(run) * l.deltaBits + (if tail == [] then 0 else |RunListBits(tail, l)|)
  {
    RunLength(run, l);
    if tail == [] { LastRun(run, l); } else { JoinRuns(run, tail, l); }
  }

  lemma {:induction false} RowListSnoc(rows: seq<BucketDelta>, r: BucketDelta, l: DeltaWireLayout)
    requires forall i :: 0 <= i < |rows| ==> CanonicalCells(rows[i].cells, l)
    requires CanonicalCells(r.cells, l)
    ensures |RowListBits(rows + [r], l)| == |RowListBits(rows, l)| + 1 + l.bucketBits + |RunListBits(r.cells, l)|
  {
    if rows == [] {
      assert (rows + [r])[1..] == [];
    } else {
      assert (rows + [r])[1..] == rows[1..] + [r];
      RowListSnoc(rows[1..], r, l);
    }
  }

  lemma {:induction false} RowListLength(rows: seq<BucketDelta>, l: DeltaWireLayout)
    requires forall i :: 0 <= i < |rows| ==> CanonicalCells(rows[i].cells, l) && Ascending(rows[i].cells)
    ensures var c := RowTotals(rows, l.maxGap);
            |RowListBits(rows, l)| + 64 == l.BitCount(c.rows, c.runs, c.cells)
    decreases |rows|
  {
    if rows != [] {
      var n := |rows| - 1;
      assert rows == rows[..n] + [rows[n]];
      RowListLength(rows[..n], l);
      RowListSnoc(rows[..n], rows[n], l);
      RunListLength(rows[n].cells, l);
      var c, d := RowTotals(rows[..n], l.maxGap), RowCounts(rows[n].cells, l.maxGap);
      AddCounts(c, d, l);
    }
  }

  ghost function BundleTotals(b: HintDeltaBundle): Counts
    requires b.params.Legal() && Canonical(b)
  {
    var l, segs := ForParams(b.params), b.perSegmentRowDeltas;
    FlattenCanonical(segs, l, |segs|);
    RowTotals(Flatten(segs, l.segmentSize, |segs|), l.maxGap)
  }

  /** The encoding takes exactly the bits, and after padding the bytes, of the closed form. */
  lemma {:induction false} BundleSize(b: HintDeltaBundle)
    requires b.params.Legal() && Canonical(b)
    ensures var c, l := BundleTotals(b), ForParams(b.params);
            && |BundleBits(b)| == l.BitCount(c.rows, c.runs, c.cells)
            && |Padded(BundleBits(b))| == 8 * l.ByteCount(c.rows, c.runs, c.cells)
  {
    var l, segs := ForParams(b.params), b.perSegmentRowDeltas;
    FlattenCanonical(segs, l, |segs|);
    RowListLength(Flatten(segs, l.segmentSize, |segs|), l);
    PaddedLength(|BundleBits(b)|);
  }

  lemma {:induction false} PaddedLength(n: nat)
    ensures n + PadLength(n) == 8 * DivCeil(n, 8)
  {
    if n > 8 { PaddedLength(n - 8); }
  }
}
