/** The bits of the smallest bundles, written out for every geometry. */
module WireLayout {
  import opened Words
  import opened WireFormat

  /** A bundle whose only rows are those of segment `j`. */
  ghost predicate OnlySegment(b: HintDeltaBundle, j: nat) {
    j < |b.perSegmentRowDeltas|
    && forall i :: 0 <= i < |b.perSegmentRowDeltas| && i != j ==> b.perSegmentRowDeltas[i] == []
  }

  lemma {:induction false} FlattenOnly(b: HintDeltaBundle, s: nat, j: nat, n: nat)
    requires OnlySegment(b, j) && n <= |b.perSegmentRowDeltas|
    ensures Flatten(b.perSegmentRowDeltas, s, n) == if n <= j then [] else GlobalRows(b.perSegmentRowDeltas[j], j, s)
  {
    if n > 0 { FlattenOnly(b, s, j, n - 1); }
  }

  /** Nothing changed: the epoch and a closing flag. */
  lemma {:induction false} NoEditBits(b: HintDeltaBundle)
    requires b.params.Legal() && Canonical(b) && OnlySegment(b, 0) && b.perSegmentRowDeltas[0] == []
    ensures BundleBits(b) == Bits(b.epoch, 64) + [false]
  {
    FlattenOnly(b, ForParams(b.params).segmentSize, 0, |b.perSegmentRowDeltas|);
  }

  /** One edit: the epoch, and behind a flag its global bucket and its run, before the closing flag. */
  lemma {:induction false} OneEditBits(b: HintDeltaBundle, j: nat, row: nat, c: Cell)
    requires b.params.Legal() && Canonical(b) && OnlySegment(b, j) && b.perSegmentRowDeltas[j] == [RowDelta(row, [c])]
    ensures CanonicalCells([c], ForParams(b.params))
    ensures var l, bucket := ForParams(b.params), j * b.params.SegmentSize() + row;
            BundleBits(b) == Bits(b.epoch, 64)
                             + ([true] + Bits(bucket, l.bucketBits) + RunListBits([c], l) + [false])
  {
    hide *;
    OnlyRow(b, j, row, c);
    OneRowBundle(b, BucketDelta(j * b.params.SegmentSize() + row, [c]));
  }

  lemma {:induction false} OnlyRow(b: HintDeltaBundle, j: nat, row: nat, c: Cell)
    requires b.params.Legal() && Canonical(b) && OnlySegment(b, j) && b.perSegmentRowDeltas[j] == [RowDelta(row, [c])]
    ensures CanonicalCells([c], ForParams(b.params))
    ensures Flatten(b.perSegmentRowDeltas, ForParams(b.params).segmentSize, |b.perSegmentRowDeltas|)
         == [BucketDelta(j * b.params.SegmentSize() + row, [c])]
  {
    var l := ForParams(b.params);
    FlattenOnly(b, l.segmentSize, j, |b.perSegmentRowDeltas|);
    assert CanonicalSegment(b.perSegmentRowDeltas[j], l) && CanonicalCells(b.perSegmentRowDeltas[j][0].cells, l);
  }

  lemma {:induction false} OneRowBundle(b: HintDeltaBundle, r: BucketDelta)
    requires b.params.Legal() && Canonical(b) && CanonicalCells(r.cells, ForParams(b.params))
    requires Flatten(b.perSegmentRowDeltas, ForParams(b.params).segmentSize, |b.perSegmentRowDeltas|) == [r]
    ensures var l := ForParams(b.params);
            BundleBits(b) == Bits(b.epoch, 64)
                             + ([true] + Bits(r.bucket, l.bucketBits) + RunListBits(r.cells, l) + [false])
  {
    OneRow(r, ForParams(b.params));
  }

  lemma {:induction false} OneRow(r: BucketDelta, l: DeltaWireLayout)
    requires CanonicalCells(r.cells, l)
    ensures RowListBits([r], l) == [true] + Bits(r.bucket, l.bucketBits) + RunListBits(r.cells, l) + [false]
  {
  }

  /** The run of one edit: offset, length less one, biased delta, closing flag. */
  lemma {:induction false} OneEditRow(c: Cell, l: DeltaWireLayout)
    requires CanonicalCells([c], l)
    ensures 0 <= c.delta + l.Modulus() - 1
    ensures RunListBits([c], l) == Bits(c.offset, l.offsetBits) + Bits(0, l.offsetBits)
                                   + Bits(c.delta + l.Modulus() - 1, l.deltaBits) + [false]
  {
    assert CellInRange([c][0], l);
    assert [c][..1] == [c];
    assert DeltaListBits([c.delta], l) == Bits(c.delta + (l.Modulus() - 1), l.deltaBits) + [];
  }
}
