/** The main results about the wire format: round trip, canonical form, prefix-freeness and exact
    size, for every legal geometry. */
module WireTheorems {
  import opened Words
  import opened Geometry
  import opened WireFormat
  import opened WireRoundTrip

  // ---------- rows ----------

  /** Rows a bundle can carry: buckets in range and strictly ascending, cells canonical. */
  ghost predicate CanonicalRows(rows: seq<BucketDelta>, prev: Option<nat>, l: DeltaWireLayout) {
    && (forall i, k :: 0 <= i < k < |rows| ==> rows[i].bucket < rows[k].bucket)
    && (forall i :: 0 <= i < |rows| ==> rows[i].bucket < l.numBuckets && CanonicalCells(rows[i].cells, l))
    && (prev.Some? ==> forall i :: 0 <= i < |rows| ==> prev.value < rows[i].bucket)
  }

  lemma {:induction false} ParseRowsStep(bs: seq<bool>, bs1: seq<bool>, bucket: nat, bs2: seq<bool>, cells: seq<Cell>,
                                         bs3: seq<bool>,
                      prev: Option<nat>, l: DeltaWireLayout)
    requires bs == [true] + bs1 && ReadField(bs1, l.bucketBits) == Ok(bucket, bs2)
    requires bucket < l.numBuckets && (prev.Some? ==> prev.value < bucket)
    requires ParseRuns(bs2, None, l) == Ok(cells, bs3)
    ensures |bs3| < |bs|
    ensures var t := ParseRows(bs3, Some(bucket), l);
            ParseRows(bs, prev, l) == (if t.Ok? then Ok([BucketDelta(bucket, cells)] + t.value, t.rest) else t)
  {
    FlagRoundTrip(true, bs1);
  }

  lemma {:induction false} CanonicalRowsTail(rows: seq<BucketDelta>, prev: Option<nat>, l: DeltaWireLayout)
    requires CanonicalRows(rows, prev, l) && rows != []
    ensures CanonicalRows(rows[1..], Some(rows[0].bucket), l)
  {
  }

  lemma {:induction false} RowChain(a: seq<bool>, b: seq<bool>, c: seq<bool>, rest: seq<bool>)
    ensures [true] + a + b + c + rest == [true] + (a + (b + (c + rest)))
  {
  }

  lemma {:induction false} RowsRoundTrip(rows: seq<BucketDelta>, prev: Option<nat>, l: DeltaWireLayout, rest: seq<bool>)
    requires l.Sound() && CanonicalRows(rows, prev, l)
    ensures ParseRows(RowListBits(rows, l) + rest, prev, l) == Ok(rows, rest)
  {
    if rows == [] {
      FlagRoundTrip(false, rest);
    } else {
      var r := rows[0];
      var a, b, c := Bits(r.bucket, l.bucketBits), RunListBits(r.cells, l), RowListBits(rows[1..], l);
      RowChain(a, b, c, rest);
      FieldRoundTrip(r.bucket, l.bucketBits, b + (c + rest));
      RunsRoundTrip(r.cells, None, l, c + rest);
      CanonicalRowsTail(rows, prev, l);
      RowsRoundTrip(rows[1..], Some(r.bucket), l, rest);
      ParseRowsStep(RowListBits(rows, l) + rest, a + (b + (c + rest)), r.bucket, b + (c + rest), r.cells, c + rest,
                    prev, l);
      assert [r] + rows[1..] == rows;
    }
  }

  /** How an accepted row list starts. */
  lemma {:induction false} ParseRowsParts(bs: seq<bool>, prev: Option<nat>, l: DeltaWireLayout)
    returns (bs1: seq<bool>, bucket: nat, bs2: seq<bool>, cells: seq<Cell>, bs3: seq<bool>)
    requires ParseRows(bs, prev, l).Ok? && ParseRows(bs, prev, l).value != []
    ensures bs == [true] + bs1 && ReadField(bs1, l.bucketBits) == Ok(bucket, bs2)
    ensures bucket < l.numBuckets && (prev.Some? ==> prev.value < bucket)
    ensures ParseRuns(bs2, None, l) == Ok(cells, bs3) && |bs3| < |bs|
    ensures var t := ParseRows(bs3, Some(bucket), l);
            t.Ok? && ParseRows(bs, prev, l) == Ok([BucketDelta(bucket, cells)] + t.value, t.rest)
  {
    FlagCanonical(bs);
    bs1 := ReadField(bs, 1).rest;
    bucket, bs2 := ReadField(bs1, l.bucketBits).value, ReadField(bs1, l.bucketBits).rest;
    cells, bs3 := ParseRuns(bs2, None, l).value, ParseRuns(bs2, None, l).rest;
  }

  lemma {:induction false} PrependRow(bucket: nat, cells: seq<Cell>, tail: seq<BucketDelta>, prev: Option<nat>,
                                      l: DeltaWireLayout, rest: seq<bool>)
    requires bucket < l.numBuckets && (prev.Some? ==> prev.value < bucket) && CanonicalCells(cells, l)
    requires CanonicalRows(tail, Some(bucket), l)
    ensures var rows := [BucketDelta(bucket, cells)] + tail;
            && CanonicalRows(rows, prev, l)
            && RowListBits(rows, l) + rest
            == [true] + (Bits(bucket, l.bucketBits) + (RunListBits(cells, l) + (RowListBits(tail, l) + rest)))
  {
    assert ([BucketDelta(bucket, cells)] + tail)[1..] == tail;
    RowChain(Bits(bucket, l.bucketBits), RunListBits(cells, l), RowListBits(tail, l), rest);
  }

  lemma {:induction false} RowsCanonical(bs: seq<bool>, prev: Option<nat>, l: DeltaWireLayout)
    requires l.Sound() && ParseRows(bs, prev, l).Ok?
    ensures var r := ParseRows(bs, prev, l);
            CanonicalRows(r.value, prev, l) && bs == RowListBits(r.value, l) + r.rest
    decreases |bs|
  {
    var r := ParseRows(bs, prev, l);
    if r.value == [] {
      FlagCanonical(bs);
    } else {
      var bs1, bucket, bs2, cells, bs3 := ParseRowsParts(bs, prev, l);
      FieldCanonical(bs1, l.bucketBits);
      RunsCanonical(bs2, None, l);
      RowsCanonical(bs3, Some(bucket), l);
      PrependRow(bucket, cells, ParseRows(bs3, Some(bucket), l).value, prev, l, r.rest);
    }
  }

  // ---------- segments and global rows ----------

  lemma {:induction false} BucketSplit(j: nat, row: nat, s: nat)
    requires row < s
    ensures (j * s + row) / s == j && (j * s + row) % s == row
  {
    DivModUnique(j * s + row, s, j, row);
  }

  lemma {:induction false} BucketJoin(bucket: nat, s: nat)
    requires s > 0
    ensures bucket / s * s + bucket % s == bucket
  {
  }

  ghost predicate RowsBelow(segs: seq<SegmentRowDeltas>, s: nat, bound: nat) {
    forall k, i :: 0 <= k < |segs| && 0 <= i < |segs[k]| ==> k * s + segs[k][i].row < bound
  }

  lemma {:induction false} AppendRows(a: seq<BucketDelta>, b: seq<BucketDelta>, l: DeltaWireLayout)
    requires CanonicalRows(a, None, l) && CanonicalRows(b, None, l)
    requires forall i, k :: 0 <= i < |a| && 0 <= k < |b| ==> a[i].bucket < b[k].bucket
    ensures CanonicalRows(a + b, None, l)
  {
  }

  /** The rows of one segment, under global indices, are ascending inside the segment's range. */
  lemma {:induction false} GlobalCanonical(seg: SegmentRowDeltas, j: nat, l: DeltaWireLayout)
    requires CanonicalSegment(seg, l) && j * l.segmentSize + l.segmentSize <= l.numBuckets
    ensures var rows := GlobalRows(seg, j, l.segmentSize);
            CanonicalRows(rows, None, l)
            && forall i :: 0 <= i < |rows| ==> j * l.segmentSize <= rows[i].bucket < j * l.segmentSize + l.segmentSize
  {
    var rows, base := GlobalRows(seg, j, l.segmentSize), j * l.segmentSize;
    forall i, k | 0 <= i < k < |rows| ensures rows[i].bucket < rows[k].bucket { assert seg[i].row < seg[k].row; }
  }

  /** The flattened rows of the first `n` segments are ascending and below segment `n`. */
  ghost predicate FlattenedOk(segs: seq<SegmentRowDeltas>, l: DeltaWireLayout, n: nat)
    requires n <= |segs|
  {
    && CanonicalRows(Flatten(segs, l.segmentSize, n), None, l)
    && AllBelow(Flatten(segs, l.segmentSize, n), n * l.segmentSize)
  }

  ghost predicate AllBelow(rows: seq<BucketDelta>, bound: nat) {
    forall i :: 0 <= i < |rows| ==> rows[i].bucket < bound
  }

  lemma {:induction false} FlattenRows(segs: seq<SegmentRowDeltas>, l: DeltaWireLayout, n: nat)
    requires l.Sound() && n <= |segs| && l.numBuckets == |segs| * l.segmentSize
    requires forall j :: 0 <= j < |segs| ==> CanonicalSegment(segs[j], l)
    ensures FlattenedOk(segs, l, n)
  {
    hide FlattenedOk, CanonicalSegment;
    if n == 0 { FlattenNone(segs, l); } else {
      FlattenRows(segs, l, n - 1);
      FlattenOneMore(segs, l, n);
    }
  }

  lemma {:induction false} FlattenNone(segs: seq<SegmentRowDeltas>, l: DeltaWireLayout)
    ensures FlattenedOk(segs, l, 0)
  {
  }

  lemma {:induction false} FlattenOneMore(segs: seq<SegmentRowDeltas>, l: DeltaWireLayout, n: nat)
    requires 0 < n <= |segs| && l.numBuckets == |segs| * l.segmentSize
    requires FlattenedOk(segs, l, n - 1) && CanonicalSegment(segs[n - 1], l)
    ensures FlattenedOk(segs, l, n)
  {
    assert n * l.segmentSize == (n - 1) * l.segmentSize + l.segmentSize;
    MulMonotone(l.segmentSize, n, |segs|);
    GlobalCanonical(segs[n - 1], n - 1, l);
    var a, b := Flatten(segs, l.segmentSize, n - 1), GlobalRows(segs[n - 1], n - 1, l.segmentSize);
    assert Flatten(segs, l.segmentSize, n) == a + b;
    hide Flatten, GlobalRows, CanonicalSegment, CanonicalRows;
    AppendRows(a, b, l);
  }

  lemma {:induction false} DistributeSegment(before: seq<BucketDelta>, seg: SegmentRowDeltas, j: nat, arity: nat,
                                             s: nat)
    requires s > 0 && j < arity && BucketsBelow(before, arity, s)
    requires forall i :: 0 <= i < |seg| ==> seg[i].row < s
    ensures BucketsBelow(before + GlobalRows(seg, j, s), arity, s)
    ensures var d := Distribute(before, arity, s);
            Distribute(before + GlobalRows(seg, j, s), arity, s) == d[j := d[j] + seg]
    decreases |seg|
  {
    var d := Distribute(before, arity, s);
    if seg == [] {
      assert before + GlobalRows(seg, j, s) == before && d[j] + [] == d[j];
    } else {
      hide *;
      var n := |seg| - 1;
      DistributeSegment(before, seg[..n], j, arity, s);
      var init, last := before + GlobalRows(seg[..n], j, s), BucketDelta(j * s + seg[n].row, seg[n].cells);
      GlobalRowsMore(seg, j, s);
      assert before + GlobalRows(seg, j, s) == init + [last];
      BucketSplit(j, seg[n].row, s);
      DistributeMore(init, last, arity, s);
      PushOwnRow(Distribute(init, arity, s), last, j, seg[n], s);
      AppendOne(d, j, seg);
    }
  }

  lemma {:induction false} PushOwnRow(segs: seq<SegmentRowDeltas>, r: BucketDelta, j: nat, x: RowDelta, s: nat)
    requires s > 0 && j < |segs| && r.bucket / s == j && r.bucket % s == x.row && r.cells == x.cells
    ensures PushRow(segs, r, s) == segs[j := segs[j] + [x]]
  {
  }

  /** Splitting the flattened rows of a bundle gives its segments back. */
  lemma {:induction false} DistributeFlatten(segs: seq<SegmentRowDeltas>, s: nat, n: nat)
    requires s > 0 && n <= |segs|
    requires forall j, i :: 0 <= j < |segs| && 0 <= i < |segs[j]| ==> segs[j][i].row < s
    ensures BucketsBelow(Flatten(segs, s, n), |segs|, s)
    ensures Distribute(Flatten(segs, s, n), |segs|, s) == segs[..n] + seq(|segs| - n, _ => [])
  {
    if n > 0 {
      DistributeFlatten(segs, s, n - 1);
      DistributeSegment(Flatten(segs, s, n - 1), segs[n - 1], n - 1, |segs|, s);
      FillNext(segs, n);
    }
  }

  lemma {:induction false} FillNext(segs: seq<SegmentRowDeltas>, n: nat)
    requires 0 < n <= |segs|
    ensures var d := segs[..n - 1] + seq(|segs| - n + 1, _ => []);
            d[n - 1 := d[n - 1] + segs[n - 1]] == segs[..n] + seq(|segs| - n, _ => [])
  {
    var d := segs[..n - 1] + seq(|segs| - n + 1, _ => []);
    assert d[n - 1] + segs[n - 1] == segs[n - 1];
  }

  lemma {:induction false} FlattenPush(segs: seq<SegmentRowDeltas>, j: nat, r: RowDelta, s: nat, n: nat)
    requires j < |segs| && n <= |segs| && forall k :: j < k < |segs| ==> segs[k] == []
    ensures var pushed := segs[j := segs[j] + [r]];
            Flatten(pushed, s, n) ==
              Flatten(segs, s, n) + (if j < n then [BucketDelta(j * s + r.row, r.cells)] else [])
  {
    var pushed := segs[j := segs[j] + [r]];
    if n > 0 {
      FlattenPush(segs, j, r, s, n - 1);
      if n - 1 == j {
        assert GlobalRows(pushed[j], j, s) == GlobalRows(segs[j], j, s) + [BucketDelta(j * s + r.row, r.cells)];
      }
    }
  }

  lemma {:induction false} FlattenEmpty(arity: nat, s: nat, n: nat)
    requires n <= arity
    ensures Flatten(seq(arity, _ => []), s, n) == []
  {
    if n > 0 { FlattenEmpty(arity, s, n - 1); }
  }

  lemma {:induction false} RowsRouted(rows: seq<BucketDelta>, arity: nat, l: DeltaWireLayout)
    requires l.Sound() && l.numBuckets == arity * l.segmentSize && CanonicalRows(rows, None, l)
    ensures BucketsBelow(rows, arity, l.segmentSize)
  {
    forall i | 0 <= i < |rows| ensures rows[i].bucket / l.segmentSize < arity {
      QuotientBelow(rows[i].bucket, arity, l.segmentSize);
    }
  }

  /** The segments rows were routed to: below the bound, canonical, and flattening back to the rows. */
  ghost predicate Routed(rows: seq<BucketDelta>, arity: nat, l: DeltaWireLayout, bound: nat)
    requires l.segmentSize > 0 && BucketsBelow(rows, arity, l.segmentSize)
  {
    var segs := Distribute(rows, arity, l.segmentSize);
    && RowsBelow(segs, l.segmentSize, bound)
    && (forall j :: 0 <= j < arity ==> CanonicalSegment(segs[j], l))
    && Flatten(segs, l.segmentSize, arity) == rows
  }

  /** Flattening the segments rows were routed to gives the rows back, and the segments are canonical. */
  lemma {:induction false} FlattenDistribute(rows: seq<BucketDelta>, arity: nat, l: DeltaWireLayout, bound: nat)
    requires l.Sound() && l.numBuckets == arity * l.segmentSize && CanonicalRows(rows, None, l)
    requires AllBelow(rows, bound)
    ensures BucketsBelow(rows, arity, l.segmentSize) && Routed(rows, arity, l, bound)
    decreases |rows|
  {
    RowsRouted(rows, arity, l);
    if rows == [] {
      FlattenEmpty(arity, l.segmentSize, arity);
    } else {
      FrontRows(rows, l);
      hide Routed, CanonicalRows, BucketsBelow, AllBelow;
      FlattenDistribute(rows[..|rows| - 1], arity, l, rows[|rows| - 1].bucket);
      RouteLast(rows, arity, l, bound);
    }
  }

  lemma {:induction false} RouteLast(rows: seq<BucketDelta>, arity: nat, l: DeltaWireLayout, bound: nat)
    requires rows != [] && l.segmentSize > 0 && BucketsBelow(rows, arity, l.segmentSize)
    requires BucketsBelow(rows[..|rows| - 1], arity, l.segmentSize)
    requires Routed(rows[..|rows| - 1], arity, l, rows[|rows| - 1].bucket)
    requires rows[|rows| - 1].bucket < bound && CanonicalCells(rows[|rows| - 1].cells, l)
    ensures Routed(rows, arity, l, bound)
  {
    var n := |rows| - 1;
    DistributeLast(rows, arity, l.segmentSize);
    hide Distribute, Flatten, PushRow, CanonicalSegment, RowsBelow, BucketsBelow;
    PushLast(Distribute(rows[..n], arity, l.segmentSize), rows[n], arity, l, bound);
    assert rows == rows[..n] + [rows[n]];
  }

  lemma {:induction false} FrontRows(rows: seq<BucketDelta>, l: DeltaWireLayout)
    requires rows != [] && CanonicalRows(rows, None, l)
    ensures CanonicalRows(rows[..|rows| - 1], None, l)
    ensures AllBelow(rows[..|rows| - 1], rows[|rows| - 1].bucket)
    ensures CanonicalCells(rows[|rows| - 1].cells, l)
  {
  }

  lemma {:induction false} GlobalRowsMore(seg: SegmentRowDeltas, j: nat, s: nat)
    requires seg != []
    ensures GlobalRows(seg, j, s)
         == GlobalRows(seg[..|seg| - 1], j, s) + [BucketDelta(j * s + seg[|seg| - 1].row, seg[|seg| - 1].cells)]
  {
  }

  lemma {:induction false} AppendOne(d: seq<SegmentRowDeltas>, j: nat, seg: SegmentRowDeltas)
    requires j < |d| && seg != []
    ensures var n := |seg| - 1;
            var d' := d[j := d[j] + seg[..n]];
            d'[j := d'[j] + [seg[n]]] == d[j := d[j] + seg]
  {
    assert d[j] + seg[..|seg| - 1] + [seg[|seg| - 1]] == d[j] + seg;
  }

  lemma {:induction false} DistributeMore(rows: seq<BucketDelta>, r: BucketDelta, arity: nat, s: nat)
    requires s > 0 && BucketsBelow(rows, arity, s) && r.bucket / s < arity
    ensures BucketsBelow(rows + [r], arity, s)
    ensures Distribute(rows + [r], arity, s) == PushRow(Distribute(rows, arity, s), r, s)
  {
    assert (rows + [r])[..|rows|] == rows;
    DistributeLast(rows + [r], arity, s);
  }

  lemma {:induction false} DistributeLast(rows: seq<BucketDelta>, arity: nat, s: nat)
    requires rows != [] && s > 0 && BucketsBelow(rows, arity, s)
    ensures BucketsBelow(rows[..|rows| - 1], arity, s) && rows[|rows| - 1].bucket / s < arity
    ensures Distribute(rows, arity, s) == PushRow(Distribute(rows[..|rows| - 1], arity, s), rows[|rows| - 1], s)
  {
  }

  /** Routing a row whose bucket is above every earlier one appends it to the flattened rows. */
  lemma {:induction false} PushLast(segs: seq<SegmentRowDeltas>, r: BucketDelta, arity: nat, l: DeltaWireLayout,
                                    bound: nat)
    requires l.segmentSize > 0 && |segs| == arity && r.bucket / l.segmentSize < arity && r.bucket < bound
    requires RowsBelow(segs, l.segmentSize, r.bucket) && CanonicalCells(r.cells, l)
    requires forall j :: 0 <= j < arity ==> CanonicalSegment(segs[j], l)
    ensures var pushed := PushRow(segs, r, l.segmentSize);
            && RowsBelow(pushed, l.segmentSize, bound)
            && (forall j :: 0 <= j < arity ==> CanonicalSegment(pushed[j], l))
            && Flatten(pushed, l.segmentSize, arity) == Flatten(segs, l.segmentSize, arity) + [r]
  {
    var s := l.segmentSize;
    BucketJoin(r.bucket, s);
    PushAt(segs, r, r.bucket / s, r.bucket % s, l, bound);
  }

  lemma {:induction false} PushAt(segs: seq<SegmentRowDeltas>, r: BucketDelta, j: nat, row: nat, l: DeltaWireLayout,
                                  bound: nat)
    requires j < |segs| && row < l.segmentSize && r.bucket == j * l.segmentSize + row < bound
    requires RowsBelow(segs, l.segmentSize, r.bucket) && CanonicalCells(r.cells, l)
    requires forall k :: 0 <= k < |segs| ==> CanonicalSegment(segs[k], l)
    ensures var pushed := segs[j := segs[j] + [RowDelta(row, r.cells)]];
            && RowsBelow(pushed, l.segmentSize, bound)
            && (forall k :: 0 <= k < |segs| ==> CanonicalSegment(pushed[k], l))
            && Flatten(pushed, l.segmentSize, |segs|) == Flatten(segs, l.segmentSize, |segs|) + [r]
  {
    var x := RowDelta(row, r.cells);
    LaterEmpty(segs, j, row, l.segmentSize, r.bucket);
    FlattenPush(segs, j, x, l.segmentSize, |segs|);
    PushBelow(segs, j, x, l.segmentSize, r.bucket, bound);
    PushKeepsCanonical(segs[j], x, j, r.bucket, l);
  }

  lemma {:induction false} LaterEmpty(segs: seq<SegmentRowDeltas>, j: nat, row: nat, s: nat, bucket: nat)
    requires row < s && bucket == j * s + row && RowsBelow(segs, s, bucket)
    ensures forall k :: j < k < |segs| ==> segs[k] == []
  {
    forall k | j < k < |segs| ensures segs[k] == [] {
      if segs[k] != [] {
        assert k * s + segs[k][0].row < bucket;
        assert s * (j + 1) == j * s + s;
        MulMonotone(s, j + 1, k);
      }
    }
  }

  lemma {:induction false} PushBelow(segs: seq<SegmentRowDeltas>, j: nat, x: RowDelta, s: nat, bucket: nat, bound: nat)
    requires j < |segs| && bucket == j * s + x.row < bound && RowsBelow(segs, s, bucket)
    ensures RowsBelow(segs[j := segs[j] + [x]], s, bound)
  {
  }

  lemma {:induction false} PushKeepsCanonical(seg: SegmentRowDeltas, x: RowDelta, j: nat, bucket: nat,
                                              l: DeltaWireLayout)
    requires CanonicalSegment(seg, l) && x.row < l.segmentSize && CanonicalCells(x.cells, l)
    requires bucket == j * l.segmentSize + x.row
    requires forall i :: 0 <= i < |seg| ==> j * l.segmentSize + seg[i].row < bucket
    ensures CanonicalSegment(seg + [x], l)
  {
  }

  // ---------- main theorems ----------

  /** A bundle's segments and its flattened rows determine each other. */
  lemma {:induction false} BundleRows(b: HintDeltaBundle)
    requires b.params.Legal() && Canonical(b)
    ensures var l, segs := ForParams(b.params), b.perSegmentRowDeltas;
            var rows := Flatten(segs, l.segmentSize, |segs|);
            && CanonicalRows(rows, None, l)
            && BucketsBelow(rows, |segs|, l.segmentSize)
            && Distribute(rows, |segs|, l.segmentSize) == segs
  {
    var l, segs := ForParams(b.params), b.perSegmentRowDeltas;
    LayoutSegments(b.params);
    FlattenRows(segs, l, |segs|);
    DistributeFlatten(segs, l.segmentSize, |segs|);
    assert segs[..|segs|] + seq(0, _ => []) == segs;
  }

  /** Decoding the padded encoding of a canonical bundle returns the bundle. */
  lemma {:induction false} RoundTrip(b: HintDeltaBundle)
    requires b.params.Legal() && Canonical(b) && b.epoch < Pow2(64)
    ensures DecodeBits(Padded(BundleBits(b)), b.params) == Success(b)
  {
    var l, segs := ForParams(b.params), b.perSegmentRowDeltas;
    var rows := Flatten(segs, l.segmentSize, |segs|);
    BundleRows(b);
    var rowBits := RowListBits(rows, l);
    var pad := Clear(PadLength(|BundleBits(b)|));
    RowsRoundTrip(rows, None, l, pad);
    Concat(Bits(b.epoch, 64), rowBits, pad);
    FieldRoundTrip(b.epoch, 64, rowBits + pad);
    DecodePadded(Padded(BundleBits(b)), b.epoch, rowBits + pad, rows, pad, b.params);
  }

  lemma {:induction false} PaddingIsZeros(rest: seq<bool>, pad: nat)
    ensures PaddingError(rest, pad) == None <==> rest == Clear(pad)
  {
    if PaddingError(rest, pad) == None {
      assert rest[..pad] == rest;
      forall i | 0 <= i < |rest| ensures !rest[i] { assert rest[i] in rest; }
    }
  }

  /** Rows that parse under zero padding decode to the segments they are routed to. */
  lemma {:induction false} DecodePadded(bs: seq<bool>, epoch: nat, bs1: seq<bool>, rows: seq<BucketDelta>,
                                        rest: seq<bool>, params: CuckooParams)
    requires params.Legal()
    requires ReadField(bs, 64) == Ok(epoch, bs1) && ParseRows(bs1, None, ForParams(params)) == Ok(rows, rest)
    requires rest == Clear(PadLength(|bs| - |rest|))
    ensures BucketsBelow(rows, params.Arity(), ForParams(params).segmentSize)
    ensures DecodeBits(bs, params)
         == Success(HintDeltaBundle(epoch, Distribute(rows, params.Arity(), ForParams(params).segmentSize), params))
  {
    LayoutSegments(params);
    ParsedBuckets(bs1, None, ForParams(params), params.Arity());
    PaddingIsZeros(rest, PadLength(|bs| - |rest|));
  }

  /** What acceptance means field by field. */
  lemma {:induction false} AcceptedParts(bs: seq<bool>, params: CuckooParams)
    returns (epoch: nat, bs1: seq<bool>, rows: seq<BucketDelta>, rest: seq<bool>)
    requires params.Legal() && DecodeBits(bs, params).Success?
    ensures ReadField(bs, 64) == Ok(epoch, bs1) && ParseRows(bs1, None, ForParams(params)) == Ok(rows, rest)
    ensures rest == Clear(PadLength(|bs| - |rest|)) && |rest| < 8
    ensures BucketsBelow(rows, params.Arity(), ForParams(params).segmentSize)
    ensures DecodeBits(bs, params).value
         == HintDeltaBundle(epoch, Distribute(rows, params.Arity(), ForParams(params).segmentSize), params)
  {
    var l := ForParams(params);
    epoch, bs1 := ReadField(bs, 64).value, ReadField(bs, 64).rest;
    rows, rest := ParseRows(bs1, None, l).value, ParseRows(bs1, None, l).rest;
    LayoutSegments(params);
    ParsedBuckets(bs1, None, l, params.Arity());
    PaddingIsZeros(rest, PadLength(|bs| - |rest|));
  }

  lemma {:induction false} CanonicalOfParts(
    bs: seq<bool>, epoch: nat, bs1: seq<bool>, rows: seq<BucketDelta>, rest: seq<bool>, params: CuckooParams)
    requires params.Legal()
    requires ReadField(bs, 64) == Ok(epoch, bs1) && ParseRows(bs1, None, ForParams(params)) == Ok(rows, rest)
    requires rest == Clear(PadLength(|bs| - |rest|))
    ensures BucketsBelow(rows, params.Arity(), ForParams(params).segmentSize)
    ensures var b := HintDeltaBundle(epoch, Distribute(rows, params.Arity(), ForParams(params).segmentSize), params);
            Canonical(b) && epoch < Pow2(64) && Padded(BundleBits(b)) == bs
  {
    var l := ForParams(params);
    FieldCanonical(bs, 64);
    RowsCanonical(bs1, None, l);
    LayoutSegments(params);
    FlattenDistribute(rows, params.Arity(), l, l.numBuckets);
    Concat(Bits(epoch, 64), RowListBits(rows, l), rest);
  }

  /** Whatever decodes is canonical, and is the encoding of what it decodes to. */
  lemma {:induction false} CanonicalForm(bs: seq<bool>, params: CuckooParams)
    requires params.Legal() && DecodeBits(bs, params).Success?
    ensures var b := DecodeBits(bs, params).value;
            b.params == params && Canonical(b) && b.epoch < Pow2(64) && Padded(BundleBits(b)) == bs
  {
    var epoch, bs1, rows, rest := AcceptedParts(bs, params);
    CanonicalOfParts(bs, epoch, bs1, rows, rest, params);
  }

  // ---------- the same results over byte strings ----------

  /** The byte string `encode` produces. */
  ghost predicate EncodedAs(b: HintDeltaBundle, bytes: seq<Byte>)
    requires b.params.Legal() && Canonical(b)
  {
    Stream(bytes) == Padded(BundleBits(b))
  }

  /** A byte string is accepted exactly when it is the encoding of a canonical bundle, and then
      that bundle is the result: each valid bundle has one accepted byte string. */
  lemma {:induction false} AcceptedIffEncoded(bytes: seq<Byte>, params: CuckooParams, b: HintDeltaBundle)
    requires params.Legal()
    ensures DecodeBytes(bytes, params) == Success(b)
       <==> b.params == params && Canonical(b) && b.epoch < Pow2(64) && EncodedAs(b, bytes)
  {
    if DecodeBits(Stream(bytes), params).Success? {
      CanonicalForm(Stream(bytes), params);
    }
    if b.params == params && Canonical(b) && b.epoch < Pow2(64) && EncodedAs(b, bytes) {
      RoundTrip(b);
    }
  }

  /** Different bundles of one geometry have different encodings. */
  lemma {:induction false} EncodingUnique(x: HintDeltaBundle, y: HintDeltaBundle, bytes: seq<Byte>)
    requires x.params.Legal() && x.params == y.params && Canonical(x) && Canonical(y)
    requires x.epoch < Pow2(64) && y.epoch < Pow2(64)
    requires EncodedAs(x, bytes) && EncodedAs(y, bytes)
    ensures x == y
  {
    AcceptedIffEncoded(bytes, x.params, x);
    AcceptedIffEncoded(bytes, x.params, y);
  }
}
