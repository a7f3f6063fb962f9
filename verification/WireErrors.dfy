/** Which error the decoder reports: whatever precedes the first rule broken is valid, and whatever
    follows it is arbitrary. */
module WireErrors {
  import opened Words
  import opened Geometry
  import opened WireFormat
  import opened WireRoundTrip
  import opened WireTheorems

  // ---------- valid beginnings ----------

  /** Runs of a row, each with the flag of another run behind it. */
  function OpenRuns(cells: seq<Cell>, l: DeltaWireLayout): seq<bool>
    requires cells != [] ==> CanonicalCells(cells, l)
    decreases |cells|
  {
    if cells == [] then [] else
    var n := FirstRun(cells, l.maxGap);
    CanonicalTail(cells, n, l);
    RunBits(cells[..n], l) + ([true] + OpenRuns(cells[n..], l))
  }

  /** Rows of a bundle, each behind its flag, the list not closed. */
  function OpenRows(rows: seq<BucketDelta>, l: DeltaWireLayout): seq<bool>
    requires forall i :: 0 <= i < |rows| ==> CanonicalCells(rows[i].cells, l)
  {
    if rows == [] then []
    else [true] + (Bits(rows[0].bucket, l.bucketBits) + (RunListBits(rows[0].cells, l) + OpenRows(rows[1..], l)))
  }

  /** Where the runs read so far end. */
  function EndOf(cells: seq<Cell>, prevEnd: Option<nat>): Option<nat> {
    if cells == [] then prevEnd else Some(cells[|cells| - 1].offset + 1)
  }

  /** The bucket read last. */
  function LastBucket(rows: seq<BucketDelta>, prev: Option<nat>): Option<nat> {
    if rows == [] then prev else Some(rows[|rows| - 1].bucket)
  }

  /** An error behind valid runs is the error of the run list. */
  lemma {:induction false} AfterRuns(cells: seq<Cell>, prevEnd: Option<nat>, l: DeltaWireLayout, tail: seq<bool>,
                                     e: WireError)
    requires l.Sound() && (cells != [] ==> CanonicalCells(cells, l) && SeparatedFrom(prevEnd, cells[0].offset, l))
    requires ParseRun(tail, EndOf(cells, prevEnd), l) == Err(e)
    ensures ParseRuns(OpenRuns(cells, l) + tail, prevEnd, l) == Err(e)
    decreases |cells|
  {
    hide ParseRun, ParseRuns, RunBits, Dense, Sparse, OpenRuns, Bits;
    if cells == [] {
      BadFirstRun(prevEnd, l, tail, e);
    } else {
      var run, more := FirstAndMore(cells, l);
      var start, ds, after := run[0].offset, Dense(run), OpenRuns(more, l) + tail;
      RunRoundTrip(run, prevEnd, l, [true] + after);
      AfterRuns(more, Some(start + |ds|), l, tail, e);
      Regrouped(RunBits(run, l), OpenRuns(more, l), tail);
      ParseRunsStep(OpenRuns(cells, l) + tail, prevEnd, l, start, ds, true, after);
    }
  }

  lemma {:induction false} BadFirstRun(prevEnd: Option<nat>, l: DeltaWireLayout, tail: seq<bool>, e: WireError)
    requires ParseRun(tail, prevEnd, l) == Err(e)
    ensures OpenRuns([], l) + tail == tail && ParseRuns(tail, prevEnd, l) == Err(e)
  {
  }

  lemma {:induction false} Regrouped(a: seq<bool>, b: seq<bool>, c: seq<bool>)
    ensures a + ([true] + b) + c == a + ([true] + (b + c))
  {
  }

  lemma {:induction false} FirstAndMore(cells: seq<Cell>, l: DeltaWireLayout) returns (run: seq<Cell>, more: seq<Cell>)
    requires CanonicalCells(cells, l)
    ensures CanonicalCells(run, l) && Joined(run, l.maxGap) && run[0] == cells[0] && |more| < |cells|
    ensures more != [] ==>
              CanonicalCells(more, l) && SeparatedFrom(Some(run[|run| - 1].offset + 1), more[0].offset, l)
    ensures EndOf(cells, None) == EndOf(more, Some(run[|run| - 1].offset + 1))
    ensures OpenRuns(cells, l) == RunBits(run, l) + ([true] + OpenRuns(more, l))
  {
    var n := FirstRun(cells, l.maxGap);
    CanonicalTail(cells, n, l);
    CanonicalParts(cells, l);
    FirstRunBoundary(cells, l.maxGap);
    run, more := cells[..n], cells[n..];
  }

  /** An error behind valid rows is the error of the row list. */
  lemma {:induction false} AfterRows(rows: seq<BucketDelta>, prev: Option<nat>, l: DeltaWireLayout, tail: seq<bool>,
                                     e: WireError)
    requires l.Sound() && CanonicalRows(rows, prev, l)
    requires ParseRows(tail, LastBucket(rows, prev), l) == Err(e)
    ensures ParseRows(OpenRows(rows, l) + tail, prev, l) == Err(e)
  {
    if rows == [] {
      assert OpenRows(rows, l) + tail == tail;
    } else {
      var r := rows[0];
      var a, b, c := Bits(r.bucket, l.bucketBits), RunListBits(r.cells, l), OpenRows(rows[1..], l) + tail;
      FourParts(a, b, OpenRows(rows[1..], l), tail);
      FieldRoundTrip(r.bucket, l.bucketBits, b + c);
      RunsRoundTrip(r.cells, None, l, c);
      CanonicalRowsTail(rows, prev, l);
      AfterRows(rows[1..], Some(r.bucket), l, tail, e);
      WireTheorems.ParseRowsStep(OpenRows(rows, l) + tail, a + (b + c), r.bucket, b + c, r.cells, c, prev, l);
    }
  }

  lemma {:induction false} FourParts(a: seq<bool>, b: seq<bool>, c: seq<bool>, d: seq<bool>)
    ensures [true] + (a + (b + c)) + d == [true] + (a + (b + (c + d)))
  {
  }

  lemma {:induction false} DecodeFails(epoch: nat, bs: seq<bool>, params: CuckooParams, e: WireError)
    requires params.Legal() && epoch < Pow2(64) && ParseRows(bs, None, ForParams(params)) == Err(e)
    ensures DecodeBits(Bits(epoch, 64) + bs, params) == Failure(e)
  {
    FieldRoundTrip(epoch, 64, bs);
  }

  // ---------- broken rows ----------

  /** A bucket index past the last bucket, whatever follows. */
  lemma {:induction false} BucketPastEnd(epoch: nat, rows: seq<BucketDelta>, bucket: nat, rest: seq<bool>,
                                         params: CuckooParams)
    requires params.Legal() && epoch < Pow2(64) && CanonicalRows(rows, None, ForParams(params))
    requires params.numBuckets <= bucket < Pow2(ForParams(params).bucketBits)
    ensures var l := ForParams(params);
            DecodeBits(Bits(epoch, 64) + (OpenRows(rows, l) + ([true] + (Bits(bucket, l.bucketBits) + rest))), params)
            == Failure(BucketOutOfRange(bucket))
  {
    var l := ForParams(params);
    var tail := [true] + (Bits(bucket, l.bucketBits) + rest);
    FlagRoundTrip(true, Bits(bucket, l.bucketBits) + rest);
    FieldRoundTrip(bucket, l.bucketBits, rest);
    AfterRows(rows, None, l, tail, BucketOutOfRange(bucket));
    DecodeFails(epoch, OpenRows(rows, l) + tail, params, BucketOutOfRange(bucket));
  }

  /** A bucket index that does not ascend, whatever follows. */
  lemma {:induction false} BucketRepeated(epoch: nat, rows: seq<BucketDelta>, bucket: nat, rest: seq<bool>,
                                          params: CuckooParams)
    requires params.Legal() && epoch < Pow2(64) && CanonicalRows(rows, None, ForParams(params))
    requires rows != [] && bucket <= rows[|rows| - 1].bucket
    ensures var l := ForParams(params);
            DecodeBits(Bits(epoch, 64) + (OpenRows(rows, l) + ([true] + (Bits(bucket, l.bucketBits) + rest))), params)
            == Failure(NonCanonicalRows)
  {
    var l := ForParams(params);
    var tail := [true] + (Bits(bucket, l.bucketBits) + rest);
    FlagRoundTrip(true, Bits(bucket, l.bucketBits) + rest);
    FieldRoundTrip(bucket, l.bucketBits, rest);
    AfterRows(rows, None, l, tail, NonCanonicalRows);
    DecodeFails(epoch, OpenRows(rows, l) + tail, params, NonCanonicalRows);
  }

  // ---------- broken runs ----------

  /** How a run can break a rule; `rest` is whatever follows the field that breaks it. */
  datatype Fault =
    | StartPastRow(start: nat, rest: seq<bool>)
    | EndPastRow(start: nat, len: nat, rest: seq<bool>)
    | TooClose(start: nat, len: nat, rest: seq<bool>)
    | ReservedCode(start: nat, len: nat, deltas: seq<int>, rest: seq<bool>)
    | BadLiterals(start: nat, deltas: seq<int>, rest: seq<bool>)

  /** The fault is what its name says, for a run behind runs that end at `prevEnd`. */
  ghost predicate Faulty(f: Fault, prevEnd: Option<nat>, l: DeltaWireLayout) {
    match f
    case StartPastRow(start, _) => l.rowWidth <= start < Pow2(l.offsetBits)
    case EndPastRow(start, len, _) => start < l.rowWidth < start + len && 1 <= len <= Pow2(l.offsetBits)
    case TooClose(start, len, _) => 1 <= len && start + len <= l.rowWidth && !SeparatedFrom(prevEnd, start, l)
    case ReservedCode(start, len, deltas, _) =>
      && start + len <= l.rowWidth && SeparatedFrom(prevEnd, start, l) && InRange(deltas, l) && |deltas| < len
    case BadLiterals(start, deltas, _) =>
      && deltas != [] && start + |deltas| <= l.rowWidth && SeparatedFrom(prevEnd, start, l) && InRange(deltas, l)
      && (deltas[0] == 0 || deltas[|deltas| - 1] == 0 || MaxZeroRun(deltas, 0) > l.maxGap)
  }

  /** The bits of the broken run. */
  ghost function FaultBits(f: Fault, l: DeltaWireLayout): seq<bool>
    requires (f.ReservedCode? || f.BadLiterals?) ==> InRange(f.deltas, l)
    requires f.BadLiterals? ==> f.deltas != []
    requires (f.EndPastRow? || f.TooClose? || f.ReservedCode?) ==> f.len >= 1
  {
    match f
    case StartPastRow(start, rest) => Bits(start, l.offsetBits) + rest
    case EndPastRow(start, len, rest) => Bits(start, l.offsetBits) + (Bits(len - 1, l.offsetBits) + rest)
    case TooClose(start, len, rest) => Bits(start, l.offsetBits) + (Bits(len - 1, l.offsetBits) + rest)
    case ReservedCode(start, len, deltas, rest) =>
      Bits(start, l.offsetBits)
      + (Bits(len - 1, l.offsetBits) + (DeltaListBits(deltas, l) + (Bits(2 * l.Modulus() - 1, l.deltaBits) + rest)))
    case BadLiterals(start, deltas, rest) =>
      Bits(start, l.offsetBits) + (Bits(|deltas| - 1, l.offsetBits) + (DeltaListBits(deltas, l) + rest))
  }

  /** The error reported for it. */
  function FaultError(f: Fault, l: DeltaWireLayout): WireError {
    match f
    case StartPastRow(start, _) => OffsetOutOfRange(start)
    case EndPastRow(start, len, _) => OffsetOutOfRange(start + len)
    case TooClose(_, _, _) => NonCanonicalRuns
    case ReservedCode(_, _, _, _) => DeltaOutOfRange(2 * l.Modulus() - 1)
    case BadLiterals(_, _, _) => NonCanonicalRuns
  }

  lemma {:induction false} ReservedAfter(deltas: seq<int>, n: nat, l: DeltaWireLayout, rest: seq<bool>)
    requires l.Sound() && InRange(deltas, l) && |deltas| < n
    ensures ParseDeltas(DeltaListBits(deltas, l) + (Bits(2 * l.Modulus() - 1, l.deltaBits) + rest), n, l)
         == Err(DeltaOutOfRange(2 * l.Modulus() - 1))
  {
    var reserved := Bits(2 * l.Modulus() - 1, l.deltaBits) + rest;
    assert Pow2(l.deltaBits) == 2 * l.Modulus();
    if deltas == [] {
      assert DeltaListBits(deltas, l) + reserved == reserved;
      FieldRoundTrip(2 * l.Modulus() - 1, l.deltaBits, rest);
    } else {
      var code, tail := deltas[0] + (l.Modulus() - 1), DeltaListBits(deltas[1..], l) + reserved;
      assert DeltaListBits(deltas, l) + reserved == Bits(code, l.deltaBits) + tail;
      FieldRoundTrip(code, l.deltaBits, tail);
      ReservedAfter(deltas[1..], n - 1, l, rest);
    }
  }

  lemma {:induction false} RunFault(f: Fault, prevEnd: Option<nat>, l: DeltaWireLayout)
    requires l.Sound() && Faulty(f, prevEnd, l)
    ensures ParseRun(FaultBits(f, l), prevEnd, l) == Err(FaultError(f, l))
  {
    hide Bits, DeltaListBits, ReadField, ParseDeltas;
    var w := l.offsetBits;
    match f {
      case StartPastRow(start, rest) => FieldRoundTrip(start, w, rest);
      case EndPastRow(start, len, rest) =>
        FieldRoundTrip(start, w, Bits(len - 1, w) + rest);
        FieldRoundTrip(len - 1, w, rest);
      case TooClose(start, len, rest) =>
        FieldRoundTrip(start, w, Bits(len - 1, w) + rest);
        FieldRoundTrip(len - 1, w, rest);
      case ReservedCode(start, len, deltas, rest) =>
        var bs := DeltaListBits(deltas, l) + (Bits(2 * l.Modulus() - 1, l.deltaBits) + rest);
        FieldRoundTrip(start, w, Bits(len - 1, w) + bs);
        FieldRoundTrip(len - 1, w, bs);
        ReservedAfter(deltas, len, l, rest);
      case BadLiterals(start, deltas, rest) =>
        var bs := DeltaListBits(deltas, l) + rest;
        FieldRoundTrip(start, w, Bits(|deltas| - 1, w) + bs);
        FieldRoundTrip(|deltas| - 1, w, bs);
        DeltasRoundTrip(deltas, l, rest);
    }
  }

  /** A run that breaks a rule, behind any valid runs and rows and whatever follows. */
  lemma {:induction false} RunFaultRejected(epoch: nat, rows: seq<BucketDelta>, bucket: nat, cells: seq<Cell>, f: Fault,
                                            params: CuckooParams)
    requires params.Legal() && epoch < Pow2(64) && CanonicalRows(rows, None, ForParams(params))
    requires bucket < params.numBuckets && (rows != [] ==> rows[|rows| - 1].bucket < bucket)
    requires cells != [] ==> CanonicalCells(cells, ForParams(params))
    requires Faulty(f, EndOf(cells, None), ForParams(params))
    ensures var l := ForParams(params);
            var row := [true] + (Bits(bucket, l.bucketBits) + (OpenRuns(cells, l) + FaultBits(f, l)));
            DecodeBits(Bits(epoch, 64) + (OpenRows(rows, l) + row), params) == Failure(FaultError(f, l))
  {
    var l := ForParams(params);
    var runs := OpenRuns(cells, l) + FaultBits(f, l);
    var row := [true] + (Bits(bucket, l.bucketBits) + runs);
    RunFault(f, EndOf(cells, None), l);
    AfterRuns(cells, None, l, FaultBits(f, l), FaultError(f, l));
    FlagRoundTrip(true, Bits(bucket, l.bucketBits) + runs);
    FieldRoundTrip(bucket, l.bucketBits, runs);
    AfterRows(rows, None, l, row, FaultError(f, l));
    DecodeFails(epoch, OpenRows(rows, l) + row, params, FaultError(f, l));
  }

  // ---------- broken padding ----------

  /** A set bit in the padding of a valid bundle, whatever follows. */
  lemma {:induction false} PaddingRejected(b: HintDeltaBundle, pad: seq<bool>, rest: seq<bool>)
    requires b.params.Legal() && Canonical(b) && b.epoch < Pow2(64)
    requires |pad| == PadLength(|BundleBits(b)|) && true in pad
    ensures DecodeBits(BundleBits(b) + (pad + rest), b.params) == Failure(NonZeroPadding)
  {
    var l, segs := ForParams(b.params), b.perSegmentRowDeltas;
    var rows := Flatten(segs, l.segmentSize, |segs|);
    BundleRows(b);
    var rowBits := RowListBits(rows, l);
    RowsRoundTrip(rows, None, l, pad + rest);
    Concat(Bits(b.epoch, 64), rowBits, pad + rest);
    FieldRoundTrip(b.epoch, 64, rowBits + (pad + rest));
    assert (pad + rest)[..|pad|] == pad;
  }
}
