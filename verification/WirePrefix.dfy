/** No accepted input is a proper prefix of another: cutting whole bytes off an accepted input makes
    it `Truncated`, and appending whole bytes makes it `TrailingBytes`. */
module WirePrefix {
  import opened Words
  import opened Geometry
  import opened WireFormat
  import opened WireRoundTrip
  import opened WireTheorems

  lemma {:induction false} FieldCut(bs: seq<bool>, w: nat, cut: nat)
    requires w <= |bs| && cut <= |bs|
    ensures cut < w ==> ReadField(bs[..cut], w) == Err(Truncated)
    ensures w <= cut ==> ReadField(bs[..cut], w) == Ok(ReadField(bs, w).value, ReadField(bs, w).rest[..cut - w])
  {
    if w <= cut {
      assert bs[..cut][..w] == bs[..w];
      assert bs[..cut][w..] == bs[w..][..cut - w];
    }
  }

  lemma {:induction false} DeltasCut(bs: seq<bool>, n: nat, l: DeltaWireLayout, cut: nat)
    requires ParseDeltas(bs, n, l).Ok? && cut < |bs| - |ParseDeltas(bs, n, l).rest|
    ensures ParseDeltas(bs[..cut], n, l) == Err(Truncated)
  {
    if n > 0 {
      FieldCut(bs, l.deltaBits, cut);
      if l.deltaBits <= cut {
        DeltasCut(ReadField(bs, l.deltaBits).rest, n - 1, l, cut - l.deltaBits);
      }
    }
  }

  lemma {:induction false} CutAfter(a: seq<bool>, rest: seq<bool>, cut: nat)
    requires |a| <= cut <= |a| + |rest|
    ensures (a + rest)[..cut] == a + rest[..cut - |a|]
  {
  }

  lemma {:induction false} RunCut(bs: seq<bool>, prevEnd: Option<nat>, l: DeltaWireLayout, cut: nat)
    requires ParseRun(bs, prevEnd, l).Ok? && cut < |bs| - |ParseRun(bs, prevEnd, l).rest|
    ensures ParseRun(bs[..cut], prevEnd, l) == Err(Truncated)
  {
    var w := l.offsetBits;
    FieldCut(bs, w, cut);
    if w <= cut {
      var bs1 := ReadField(bs, w).rest;
      FieldCut(bs1, w, cut - w);
      if 2 * w <= cut {
        DeltasCut(ReadField(bs1, w).rest, ReadField(bs1, w).value + 1, l, cut - 2 * w);
      }
    }
  }

  /** A run is read the same way when the cut lies behind it. */
  lemma {:induction false} RunKept(bs: seq<bool>, prevEnd: Option<nat>, l: DeltaWireLayout, cut: nat)
    requires l.Sound() && ParseRun(bs, prevEnd, l).Ok?
    requires |bs| - |ParseRun(bs, prevEnd, l).rest| <= cut <= |bs|
    ensures var r := ParseRun(bs, prevEnd, l);
            ParseRun(bs[..cut], prevEnd, l) == Ok(r.value, r.rest[..cut - (|bs| - |r.rest|)])
  {
    var r := ParseRun(bs, prevEnd, l);
    RunFieldsCanonical(bs, prevEnd, l);
    var start, ds := r.value.0, r.value.1;
    var code := Bits(start, l.offsetBits) + Bits(|ds| - 1, l.offsetBits) + DeltaListBits(ds, l);
    CutAfter(code, r.rest, cut);
    RunFieldsRoundTrip(start, ds, prevEnd, l, r.rest[..cut - |code|]);
  }

  lemma {:induction false} RunsCut(bs: seq<bool>, prevEnd: Option<nat>, l: DeltaWireLayout, cut: nat)
    requires l.Sound() && ParseRuns(bs, prevEnd, l).Ok? && cut < |bs| - |ParseRuns(bs, prevEnd, l).rest|
    ensures ParseRuns(bs[..cut], prevEnd, l) == Err(Truncated)
    decreases |bs|
  {
    var start, ds, more, bs2 := ParseRunsParts(bs, prevEnd, l);
    var used := |bs| - |bs2| - 1;
    if cut <= used {
      RunsHeadCut(bs, prevEnd, l, cut, start, ds, more, bs2);
    } else {
      RunsCut(bs2, Some(start + |ds|), l, cut - used - 1);
      RunsTailCut(bs, prevEnd, l, cut, start, ds, bs2);
    }
  }

  lemma {:induction false} RunsTailCut(bs: seq<bool>, prevEnd: Option<nat>, l: DeltaWireLayout, cut: nat,
                                       start: nat, ds: seq<int>, bs2: seq<bool>)
    requires l.Sound() && ds != [] && ParseRun(bs, prevEnd, l) == Ok((start, ds), [true] + bs2)
    requires |bs2| < |bs| && |bs| - |bs2| <= cut < |bs|
    requires ParseRuns(bs2[..cut - (|bs| - |bs2|)], Some(start + |ds|), l) == Err(Truncated)
    ensures ParseRuns(bs[..cut], prevEnd, l) == Err(Truncated)
  {
    var kept := cut - (|bs| - |bs2|);
    RunKept(bs, prevEnd, l, cut);
    assert ([true] + bs2)[..kept + 1] == [true] + bs2[..kept];
    hide ParseRun, ParseRuns, WellFormedRun;
    ParseRunsStep(bs[..cut], prevEnd, l, start, ds, true, bs2[..kept]);
  }

  /** A run list cut inside its first run, or between the run and its flag. */
  lemma {:induction false} RunsHeadCut(bs: seq<bool>, prevEnd: Option<nat>, l: DeltaWireLayout, cut: nat,
                                       start: nat, ds: seq<int>, more: bool, bs2: seq<bool>)
    requires l.Sound() && ParseRun(bs, prevEnd, l) == Ok((start, ds), [more] + bs2) && cut < |bs|
    ensures cut <= |bs| - |bs2| - 1 ==> ParseRuns(bs[..cut], prevEnd, l) == Err(Truncated)
  {
    if cut < |bs| - |bs2| - 1 {
      RunCut(bs, prevEnd, l, cut);
      RunsUnread(bs[..cut], prevEnd, l, 0, []);
    } else if cut == |bs| - |bs2| - 1 {
      RunKept(bs, prevEnd, l, cut);
      RunsUnread(bs[..cut], prevEnd, l, start, ds);
    }
  }

  lemma {:induction false} RunsUnread(bs: seq<bool>, prevEnd: Option<nat>, l: DeltaWireLayout, start: nat, ds: seq<int>)
    requires ParseRun(bs, prevEnd, l) == Err(Truncated) || ParseRun(bs, prevEnd, l) == Ok((start, ds), [])
    ensures ParseRuns(bs, prevEnd, l) == Err(Truncated)
  {
  }

  lemma {:induction false} RunsKept(bs: seq<bool>, prevEnd: Option<nat>, l: DeltaWireLayout, cut: nat)
    requires l.Sound() && ParseRuns(bs, prevEnd, l).Ok?
    requires |bs| - |ParseRuns(bs, prevEnd, l).rest| <= cut <= |bs|
    ensures var r := ParseRuns(bs, prevEnd, l);
            ParseRuns(bs[..cut], prevEnd, l) == Ok(r.value, r.rest[..cut - (|bs| - |r.rest|)])
  {
    var r := ParseRuns(bs, prevEnd, l);
    RunsCanonical(bs, prevEnd, l);
    var code := RunListBits(r.value, l);
    CutAfter(code, r.rest, cut);
    RunsRoundTrip(r.value, prevEnd, l, r.rest[..cut - |code|]);
  }

  /** A row list cut inside its first row, or behind it when the remaining rows are truncated. */
  lemma {:induction false} RowCut(bs: seq<bool>, prev: Option<nat>, l: DeltaWireLayout, cut: nat,
               bs1: seq<bool>, bucket: nat, bs2: seq<bool>, cells: seq<Cell>, bs3: seq<bool>)
    requires l.Sound() && bs == [true] + bs1 && 0 < cut < |bs|
    requires ReadField(bs1, l.bucketBits) == Ok(bucket, bs2) && bucket < l.numBuckets
    requires prev.Some? ==> prev.value < bucket
    requires ParseRuns(bs2, None, l) == Ok(cells, bs3)
    requires |bs| - |bs3| <= cut ==> ParseRows(bs3[..cut - (|bs| - |bs3|)], Some(bucket), l) == Err(Truncated)
    ensures ParseRows(bs[..cut], prev, l) == Err(Truncated)
  {
    hide ParseRows, ParseRuns;
    var cut1 := bs1[..cut - 1];
    assert bs[..cut] == [true] + cut1;
    FieldCut(bs1, l.bucketBits, cut - 1);
    if cut <= l.bucketBits {
      ParseRowsTruncated(bs[..cut], cut1, bucket, [], prev, l);
    } else {
      var cut2, used := cut - 1 - l.bucketBits, |bs2| - |bs3|;
      RunsCutOrKept(bs2, cells, bs3, l, cut2);
      if cut2 < used {
        ParseRowsTruncated(bs[..cut], cut1, bucket, bs2[..cut2], prev, l);
      } else {
        ParseRowsStep(bs[..cut], cut1, bucket, bs2[..cut2], cells, bs3[..cut2 - used], prev, l);
      }
    }
  }

  lemma {:induction false} RunsCutOrKept(bs: seq<bool>, cells: seq<Cell>, rest: seq<bool>, l: DeltaWireLayout, cut: nat)
    requires l.Sound() && cut <= |bs| && ParseRuns(bs, None, l) == Ok(cells, rest)
    ensures ParseRuns(bs[..cut], None, l)
         == (if cut < |bs| - |rest| then Err(Truncated) else Ok(cells, rest[..cut - (|bs| - |rest|)]))
  {
    if cut < |bs| - |rest| { RunsCut(bs, None, l, cut); } else { RunsKept(bs, None, l, cut); }
  }

  lemma {:induction false} RowsCut(bs: seq<bool>, prev: Option<nat>, l: DeltaWireLayout, cut: nat)
    requires l.Sound() && ParseRows(bs, prev, l).Ok? && cut < |bs| - |ParseRows(bs, prev, l).rest|
    ensures ParseRows(bs[..cut], prev, l) == Err(Truncated)
    decreases |bs|
  {
    if cut > 0 {
      RowPresent(bs, prev, l, cut);
      var bs1, bucket, bs2, cells, bs3 := ParseRowsParts(bs, prev, l);
      var used := |bs| - |bs3|;
      if used <= cut { RowsCut(bs3, Some(bucket), l, cut - used); }
      RowCut(bs, prev, l, cut, bs1, bucket, bs2, cells, bs3);
    }
  }

  lemma {:induction false} ParseRowsTruncated(bs: seq<bool>, bs1: seq<bool>, bucket: nat, bs2: seq<bool>,
                           prev: Option<nat>, l: DeltaWireLayout)
    requires bs == [true] + bs1
    requires ReadField(bs1, l.bucketBits) == Err(Truncated)
          || (ReadField(bs1, l.bucketBits) == Ok(bucket, bs2) && ParseRuns(bs2, None, l) == Err(Truncated)
              && bucket < l.numBuckets && (prev.Some? ==> prev.value < bucket))
    ensures ParseRows(bs, prev, l) == Err(Truncated)
  {
    FlagRoundTrip(true, bs1);
  }

  lemma {:induction false} RowPresent(bs: seq<bool>, prev: Option<nat>, l: DeltaWireLayout, cut: nat)
    requires ParseRows(bs, prev, l).Ok? && 0 < cut < |bs| - |ParseRows(bs, prev, l).rest|
    ensures ParseRows(bs, prev, l).value != []
  {
  }

  lemma {:induction false} StreamOfPrefix(bytes: seq<Byte>, n: nat)
    requires n <= |bytes|
    ensures Stream(bytes[..n]) == Stream(bytes)[..8 * n]
  {
  }

  lemma {:induction false} StreamOfConcat(a: seq<Byte>, b: seq<Byte>)
    ensures Stream(a + b) == Stream(a) + Stream(b)
  {
  }

  lemma {:induction false} DecodeCut(bs: seq<bool>, params: CuckooParams, epoch: nat, bs1: seq<bool>)
    requires params.Legal()
    ensures ReadField(bs, 64) == Err(Truncated) ==> DecodeBits(bs, params) == Failure(Truncated)
    ensures ReadField(bs, 64) == Ok(epoch, bs1) && ParseRows(bs1, None, ForParams(params)) == Err(Truncated)
        ==> DecodeBits(bs, params) == Failure(Truncated)
  {
  }

  lemma {:induction false} DecodeTrailing(bs: seq<bool>, params: CuckooParams, epoch: nat, bs1: seq<bool>,
                                          rows: seq<BucketDelta>,
                       rest: seq<bool>, more: seq<bool>)
    requires params.Legal() && more != []
    requires ReadField(bs, 64) == Ok(epoch, bs1) && ParseRows(bs1, None, ForParams(params)) == Ok(rows, rest + more)
    requires rest == Clear(PadLength(|bs| - |rest| - |more|))
    ensures DecodeBits(bs, params) == Failure(TrailingBytes)
  {
    assert (rest + more)[..|rest|] == rest;
  }

  lemma {:induction false} ExtendParts(bs: seq<bool>, params: CuckooParams, epoch: nat, bs1: seq<bool>,
                                       rows: seq<BucketDelta>, rest: seq<bool>,
                    more: seq<bool>)
    requires params.Legal()
    requires ReadField(bs, 64) == Ok(epoch, bs1) && ParseRows(bs1, None, ForParams(params)) == Ok(rows, rest)
    ensures ReadField(bs + more, 64) == Ok(epoch, bs1 + more)
    ensures ParseRows(bs1 + more, None, ForParams(params)) == Ok(rows, rest + more)
  {
    hide ParseRows, RowListBits;
    var l := ForParams(params);
    assert (bs + more)[..64] == bs[..64] && (bs + more)[64..] == bs1 + more;
    RowsCanonical(bs1, None, l);
    Concat(RowListBits(rows, l), rest, more);
    RowsRoundTrip(rows, None, l, rest + more);
  }

  lemma {:induction false} CutInput(bs: seq<bool>, params: CuckooParams, epoch: nat, bs1: seq<bool>,
                                    rows: seq<BucketDelta>, rest: seq<bool>,
                 cut: nat)
    requires params.Legal()
    requires ReadField(bs, 64) == Ok(epoch, bs1) && ParseRows(bs1, None, ForParams(params)) == Ok(rows, rest)
    requires |rest| < 8 && cut <= |bs| - 8
    ensures DecodeBits(bs[..cut], params) == Failure(Truncated)
  {
    FieldCut(bs, 64, cut);
    if 64 <= cut {
      RowsCut(bs1, None, ForParams(params), cut - 64);
      DecodeCut(bs[..cut], params, epoch, bs1[..cut - 64]);
    } else {
      DecodeCut(bs[..cut], params, 0, []);
    }
  }

  lemma {:induction false} ExtendInput(bs: seq<bool>, params: CuckooParams, epoch: nat, bs1: seq<bool>,
                                       rows: seq<BucketDelta>, rest: seq<bool>,
                    more: seq<bool>)
    requires params.Legal() && more != []
    requires ReadField(bs, 64) == Ok(epoch, bs1) && ParseRows(bs1, None, ForParams(params)) == Ok(rows, rest)
    requires rest == Clear(PadLength(|bs| - |rest|))
    ensures DecodeBits(bs + more, params) == Failure(TrailingBytes)
  {
    ExtendParts(bs, params, epoch, bs1, rows, rest, more);
    DecodeTrailing(bs + more, params, epoch, bs1 + more, rows, rest, more);
  }

  /** Removing whole bytes from the end of an accepted input. */
  lemma {:induction false} ProperPrefixRejected(bytes: seq<Byte>, params: CuckooParams, n: nat)
    requires params.Legal() && DecodeBytes(bytes, params).Success? && n < |bytes|
    ensures DecodeBytes(bytes[..n], params) == Failure(Truncated)
  {
    var epoch, bs1, rows, rest := AcceptedParts(Stream(bytes), params);
    StreamOfPrefix(bytes, n);
    CutInput(Stream(bytes), params, epoch, bs1, rows, rest, 8 * n);
  }

  /** Appending whole bytes to an accepted input. */
  lemma {:induction false} ExtensionRejected(bytes: seq<Byte>, params: CuckooParams, extra: seq<Byte>)
    requires params.Legal() && DecodeBytes(bytes, params).Success? && extra != []
    ensures DecodeBytes(bytes + extra, params) == Failure(TrailingBytes)
  {
    var epoch, bs1, rows, rest := AcceptedParts(Stream(bytes), params);
    StreamOfConcat(bytes, extra);
    ExtendInput(Stream(bytes), params, epoch, bs1, rows, rest, Stream(extra));
  }
}
