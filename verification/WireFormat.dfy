/** The hint-delta wire format: what a bundle is, which bit string encodes it, and which bundle a
    bit string decodes to.  Everything here is a function over bit strings; the loops that compute
    these functions over byte buffers are in `WireCodec.dfy`. */
module WireFormat {
  import opened Words
  import opened Geometry

  /** One non-zero cell edit of a row. */
  datatype Cell = Cell(offset: nat, delta: int)

  /** The sparse edits of one touched row of a segment. */
  datatype RowDelta = RowDelta(row: nat, cells: seq<Cell>)

  type SegmentRowDeltas = seq<RowDelta>

  datatype HintDeltaBundle = HintDeltaBundle(
    epoch: nat,
    perSegmentRowDeltas: seq<SegmentRowDeltas>,
    params: CuckooParams)

  datatype WireError =
    | Truncated
    | BucketOutOfRange(bucket: nat)
    | OffsetOutOfRange(offset: nat)
    | DeltaOutOfRange(code: nat)
    | NonCanonicalRows
    | NonCanonicalRuns
    | NonZeroPadding
    | TrailingBytes

  datatype Result<+T> = Success(value: T) | Failure(error: WireError)

  // ---------- layout ----------

  datatype DeltaWireLayout = DeltaWireLayout(
    numBuckets: nat,
    segmentSize: nat,
    rowWidth: nat,
    plaintextBits: nat,
    bucketBits: nat,
    offsetBits: nat,
    deltaBits: nat,
    maxGap: nat)
  {
    /** Total encoded length in bits for the given counts, before byte padding. */
    function BitCount(rows: nat, runs: nat, cells: nat): nat {
      64 + 1 + rows * (1 + bucketBits) + runs * (2 * offsetBits + 1) + cells * deltaBits
    }

    function ByteCount(rows: nat, runs: nat, cells: nat): nat { DivCeil(BitCount(rows, runs, cells), 8) }

    /** `p`, the cell modulus. */
    function Modulus(): (p: int)
      ensures p > 0
    {
      Pow2(plaintextBits)
    }

    /** What the derived widths promise about the fields they carry. */
    predicate Sound() {
      && 0 < numBuckets <= Pow2(bucketBits)
      && 0 < segmentSize
      && 0 < rowWidth <= Pow2(offsetBits)
      && rowWidth <= 65535
      && deltaBits == plaintextBits + 1
    }
  }

  function ForParams(params: CuckooParams): (l: DeltaWireLayout)
    requires params.Legal()
    ensures l.Sound()
  {
    LegalPositive(params);
    var rowWidth := params.RowWidth();
    var offsetBits := Bitlen(rowWidth - 1);
    var deltaBits := params.plaintextBits + 1;
    DeltaWireLayout(
      params.numBuckets, params.SegmentSize(), rowWidth, params.plaintextBits,
      Bitlen(params.numBuckets - 1), offsetBits, deltaBits, GapLimit(2 * offsetBits + 1, deltaBits))
  }

  /** `G`, the longest gap of zero cells a run bridges. */
  function GapLimit(head: nat, delta: nat): nat
    requires delta > 0
  {
    head / delta
  }

  lemma {:induction false} LayoutSegments(params: CuckooParams)
    requires params.Legal()
    ensures ForParams(params).numBuckets == params.Arity() * ForParams(params).segmentSize
  {
  }

  /** The layout is the tightest: each field has the least width that writes every value it may carry,
      and a gap is bridged iff its zeros cost no more than another run's head. */
  lemma {:induction false} LayoutTight(params: CuckooParams)
    requires params.Legal()
    ensures var l := ForParams(params);
            l.numBuckets == params.numBuckets && l.segmentSize == params.SegmentSize()
            && l.rowWidth == params.bucketSize * params.CellsPerSlot() && l.plaintextBits == params.plaintextBits
    ensures forall w: nat :: params.numBuckets <= Pow2(w) <==> ForParams(params).bucketBits <= w
    ensures forall w: nat :: params.RowWidth() <= Pow2(w) <==> ForParams(params).offsetBits <= w
    ensures forall w: nat :: 2 * Pow2(params.plaintextBits) - 1 <= Pow2(w) <==> ForParams(params).deltaBits <= w
    ensures forall g: nat :: g * ForParams(params).deltaBits <= 2 * ForParams(params).offsetBits + 1
                             <==> g <= ForParams(params).maxGap
  {
    hide Pow2, Bitlen, GapLimit;
    LegalPositive(params);
    var l := ForParams(params);
    forall w: nat
      ensures params.numBuckets <= Pow2(w) <==> l.bucketBits <= w
      ensures params.RowWidth() <= Pow2(w) <==> l.offsetBits <= w
      ensures 2 * Pow2(params.plaintextBits) - 1 <= Pow2(w) <==> l.deltaBits <= w
    {
      BitlenIff(params.numBuckets - 1, w);
      BitlenIff(params.RowWidth() - 1, w);
      CodeWidth(params.plaintextBits, w);
    }
    var head, delta := 2 * l.offsetBits + 1, l.deltaBits;
    assert l.maxGap == GapLimit(head, delta);
    forall g: nat ensures g * delta <= head <==> g <= l.maxGap { GapIff(head, delta, g); }
  }

  /** `2p - 1` code points need one bit more than `p` does. */
  lemma {:induction false} CodeWidth(bits: nat, w: nat)
    requires bits >= 1
    ensures 2 * Pow2(bits) - 1 <= Pow2(w) <==> bits + 1 <= w
  {
    assert Pow2(bits + 1) == 2 * Pow2(bits) && Pow2(bits) == 2 * Pow2(bits - 1);
    if w <= bits { Pow2Monotone(w, bits); } else { Pow2Monotone(bits + 1, w); }
  }

  lemma {:induction false} GapIff(head: nat, delta: nat, g: nat)
    requires delta > 0
    ensures g * delta <= head <==> g <= GapLimit(head, delta)
  {
    var q := GapLimit(head, delta);
    assert head == q * delta + head % delta;
    if g <= q { MulMonotone(delta, g, q); } else { MulMonotone(delta, q + 1, g); }
  }

  lemma {:induction false} LegalPositive(params: CuckooParams)
    requires params.Legal()
    ensures params.CellsPerSlot() > 0 && params.RowWidth() > 0 && params.SegmentSize() > 0
  {
    DivCeilBounds(params.fingerprintBits + params.valueBits, params.plaintextBits);
    MulMonotone(params.bucketSize, 1, params.CellsPerSlot());
  }

  // ---------- canonical form ----------

  ghost predicate Ascending(cells: seq<Cell>) {
    forall i, j :: 0 <= i < j < |cells| ==> cells[i].offset < cells[j].offset
  }

  ghost predicate CellInRange(c: Cell, l: DeltaWireLayout) {
    c.offset < l.rowWidth && c.delta != 0 && -l.Modulus() < c.delta < l.Modulus()
  }

  /** A row's edits: at least one, in range, non-zero, offsets strictly ascending. */
  ghost predicate CanonicalCells(cells: seq<Cell>, l: DeltaWireLayout) {
    && cells != []
    && Ascending(cells)
    && forall i :: 0 <= i < |cells| ==> CellInRange(cells[i], l)
  }

  ghost predicate CanonicalSegment(seg: SegmentRowDeltas, l: DeltaWireLayout) {
    && (forall i, k :: 0 <= i < k < |seg| ==> seg[i].row < seg[k].row)
    && forall i :: 0 <= i < |seg| ==> seg[i].row < l.segmentSize && CanonicalCells(seg[i].cells, l)
  }

  /** The bundles `encode` accepts. */
  ghost predicate Canonical(b: HintDeltaBundle)
    requires b.params.Legal()
  {
    && |b.perSegmentRowDeltas| == b.params.Arity()
    && forall j :: 0 <= j < |b.perSegmentRowDeltas| ==>
         CanonicalSegment(b.perSegmentRowDeltas[j], ForParams(b.params))
  }

  // ---------- runs ----------

  /** Length of the first run of a row: neighbours at most `maxGap` zero cells apart stay together. */
  function FirstRun(cells: seq<Cell>, maxGap: nat): (n: nat)
    requires cells != []
    ensures 1 <= n <= |cells|
  {
    if |cells| > 1 && cells[1].offset - cells[0].offset - 1 <= maxGap
    then 1 + FirstRun(cells[1..], maxGap)
    else 1
  }

  /** All runs of a row, in order. */
  function RowRuns(cells: seq<Cell>, maxGap: nat): seq<seq<Cell>> {
    if cells == [] then [] else
    var n := FirstRun(cells, maxGap);
    [cells[..n]] + RowRuns(cells[n..], maxGap)
  }

  /** The delta literals of one run: its edits with the bridged zero cells filled in. */
  function Dense(run: seq<Cell>): seq<int>
    requires Ascending(run)
  {
    if run == [] then []
    else if |run| == 1 then [run[0].delta]
    else [run[0].delta] + Zeros(run[1].offset - run[0].offset - 1) + Dense(run[1..])
  }

  /** The edits a literal list stands for when its first cell is at `start`. */
  function Sparse(deltas: seq<int>, start: nat): seq<Cell> {
    if deltas == [] then []
    else (if deltas[0] != 0 then [Cell(start, deltas[0])] else []) + Sparse(deltas[1..], start + 1)
  }

  function Max(a: nat, b: nat): nat { if a < b then b else a }

  /** Longest stretch of zeros in `zeros(current) + deltas` that ends inside `deltas`. */
  function MaxZeroRun(deltas: seq<int>, current: nat): nat {
    if deltas == [] then 0
    else if deltas[0] == 0 then Max(current + 1, MaxZeroRun(deltas[1..], current + 1))
    else MaxZeroRun(deltas[1..], 0)
  }

  // ---------- encoding ----------

  function DeltaListBits(deltas: seq<int>, l: DeltaWireLayout): (bs: seq<bool>)
    requires forall i :: 0 <= i < |deltas| ==> -l.Modulus() < deltas[i] < l.Modulus()
  {
    if deltas == [] then []
    else Bits(deltas[0] + (l.Modulus() - 1), l.deltaBits) + DeltaListBits(deltas[1..], l)
  }

  lemma {:induction false} DenseInRange(run: seq<Cell>, l: DeltaWireLayout)
    requires CanonicalCells(run, l)
    ensures forall i :: 0 <= i < |Dense(run)| ==> -l.Modulus() < Dense(run)[i] < l.Modulus()
  {
    assert CellInRange(run[0], l);
    if |run| > 1 {
      CanonicalTail(run, 1, l);
      DenseInRange(run[1..], l);
    }
  }

  lemma {:induction false} CanonicalTail(cells: seq<Cell>, n: nat, l: DeltaWireLayout)
    requires CanonicalCells(cells, l)
    ensures 0 < n <= |cells| ==> CanonicalCells(cells[..n], l)
    ensures n < |cells| ==> CanonicalCells(cells[n..], l)
  {
  }

  function RunBits(run: seq<Cell>, l: DeltaWireLayout): (bs: seq<bool>)
    requires CanonicalCells(run, l)
  {
    DenseInRange(run, l);
    var len := run[|run| - 1].offset - run[0].offset + 1;
    Bits(run[0].offset, l.offsetBits) + Bits(len - 1, l.offsetBits) + DeltaListBits(Dense(run), l)
  }

  /** A row's runs, each followed by a continuation flag. */
  function RunListBits(cells: seq<Cell>, l: DeltaWireLayout): seq<bool>
    requires CanonicalCells(cells, l)
    decreases |cells|
  {
    var n := FirstRun(cells, l.maxGap);
    CanonicalTail(cells, n, l);
    RunBits(cells[..n], l) +
    (if n == |cells| then [false] else [true] + RunListBits(cells[n..], l))
  }

  /** A row under its global bucket index. */
  datatype BucketDelta = BucketDelta(bucket: nat, cells: seq<Cell>)

  function RowListBits(rows: seq<BucketDelta>, l: DeltaWireLayout): seq<bool>
    requires forall i :: 0 <= i < |rows| ==> CanonicalCells(rows[i].cells, l)
  {
    if rows == [] then [false]
    else [true] + Bits(rows[0].bucket, l.bucketBits) + RunListBits(rows[0].cells, l) + RowListBits(rows[1..], l)
  }

  /** Rows of segment `j` under their global bucket index. */
  function GlobalRows(seg: SegmentRowDeltas, j: nat, segmentSize: nat): (rows: seq<BucketDelta>)
    ensures |rows| == |seg|
    ensures forall i :: 0 <= i < |rows| ==> rows[i] == BucketDelta(j * segmentSize + seg[i].row, seg[i].cells)
  {
    seq(|seg|, i requires 0 <= i < |seg| => BucketDelta(j * segmentSize + seg[i].row, seg[i].cells))
  }

  /** The first `n` segments of a bundle as one list of rows. */
  function Flatten(segs: seq<SegmentRowDeltas>, segmentSize: nat, n: nat): seq<BucketDelta>
    requires n <= |segs|
  {
    if n == 0 then [] else Flatten(segs, segmentSize, n - 1) + GlobalRows(segs[n - 1], n - 1, segmentSize)
  }

  lemma {:induction false} FlattenCanonical(segs: seq<SegmentRowDeltas>, l: DeltaWireLayout, n: nat)
    requires n <= |segs| && forall j :: 0 <= j < |segs| ==> CanonicalSegment(segs[j], l)
    ensures forall i :: 0 <= i < |Flatten(segs, l.segmentSize, n)| ==>
              CanonicalCells(Flatten(segs, l.segmentSize, n)[i].cells, l)
  {
    if n > 0 { FlattenCanonical(segs, l, n - 1); }
  }

  function BundleBits(b: HintDeltaBundle): seq<bool>
    requires b.params.Legal() && Canonical(b)
  {
    var l := ForParams(b.params);
    FlattenCanonical(b.perSegmentRowDeltas, l, |b.perSegmentRowDeltas|);
    Bits(b.epoch, 64) + RowListBits(Flatten(b.perSegmentRowDeltas, l.segmentSize, |b.perSegmentRowDeltas|), l)
  }

  function PadLength(n: nat): (p: nat)
    ensures p < 8
  {
    (8 - n % 8) % 8
  }

  /** Zero padding out to a byte boundary. */
  function Padded(bs: seq<bool>): (r: seq<bool>)
    ensures |r| == |bs| + PadLength(|bs|)
  {
    bs + Clear(PadLength(|bs|))
  }

  // ---------- decoding ----------

  /** A parsed value with the unread bits, or the reason the input was rejected. */
  datatype Parse<+T> = Ok(value: T, rest: seq<bool>) | Err(error: WireError)

  function ReadField(bs: seq<bool>, width: nat): Parse<nat> {
    if width > |bs| then Err(Truncated) else Ok(Val(bs[..width]), bs[width..])
  }

  /** One delta code point; the largest value of the field is reserved. */
  function ParseDelta(bs: seq<bool>, l: DeltaWireLayout): (r: Parse<int>)
    ensures r.Ok? ==> |r.rest| <= |bs|
  {
    match ReadField(bs, l.deltaBits)
    case Err(e) => Err(e)
    case Ok(code, rest) =>
      if code > 2 * l.Modulus() - 2 then Err(DeltaOutOfRange(code)) else Ok(code - (l.Modulus() - 1), rest)
  }

  function ParseDeltas(bs: seq<bool>, n: nat, l: DeltaWireLayout): (r: Parse<seq<int>>)
    ensures r.Ok? ==> |r.value| == n && |r.rest| <= |bs|
  {
    if n == 0 then Ok([], bs) else
    match ParseDelta(bs, l)
    case Err(e) => Err(e)
    case Ok(d, rest) =>
      match ParseDeltas(rest, n - 1, l)
      case Err(e) => Err(e)
      case Ok(ds, rest') => Ok([d] + ds, rest')
  }

  /** A run must start more than `maxGap` cells after the end of the run before it. */
  predicate SeparatedFrom(prevEnd: Option<nat>, start: nat, l: DeltaWireLayout) {
    prevEnd.Some? ==> prevEnd.value <= start && start - prevEnd.value > l.maxGap
  }

  predicate WellFormedRun(deltas: seq<int>, l: DeltaWireLayout) {
    && deltas != [] && deltas[0] != 0 && deltas[|deltas| - 1] != 0
    && MaxZeroRun(deltas, 0) <= l.maxGap
  }

  function ParseRun(bs: seq<bool>, prevEnd: Option<nat>, l: DeltaWireLayout): (r: Parse<(nat, seq<int>)>)
    ensures r.Ok? ==> |r.value.1| > 0 && |r.rest| <= |bs|
  {
    match ReadField(bs, l.offsetBits)
    case Err(e) => Err(e)
    case Ok(start, bs1) =>
      if start >= l.rowWidth then Err(OffsetOutOfRange(start)) else
      match ReadField(bs1, l.offsetBits)
      case Err(e) => Err(e)
      case Ok(lenMinus1, bs2) =>
        var end := start + lenMinus1 + 1;
        if end > l.rowWidth then Err(OffsetOutOfRange(end))
        else if !SeparatedFrom(prevEnd, start, l) then Err(NonCanonicalRuns) else
        match ParseDeltas(bs2, lenMinus1 + 1, l)
        case Err(e) => Err(e)
        case Ok(deltas, bs3) =>
          if WellFormedRun(deltas, l) then Ok((start, deltas), bs3) else Err(NonCanonicalRuns)
  }

  function ParseRuns(bs: seq<bool>, prevEnd: Option<nat>, l: DeltaWireLayout): (r: Parse<seq<Cell>>)
    ensures r.Ok? ==> |r.rest| < |bs|
    decreases |bs|
  {
    match ParseRun(bs, prevEnd, l)
    case Err(e) => Err(e)
    case Ok((start, deltas), bs1) =>
      match ReadField(bs1, 1)
      case Err(e) => Err(e)
      case Ok(more, bs2) =>
        var cells := Sparse(deltas, start);
        if more == 0 then Ok(cells, bs2) else
        match ParseRuns(bs2, Some(start + |deltas|), l)
        case Err(e) => Err(e)
        case Ok(tail, rest) => Ok(cells + tail, rest)
  }

  function ParseRows(bs: seq<bool>, prevBucket: Option<nat>, l: DeltaWireLayout): (r: Parse<seq<BucketDelta>>)
    ensures r.Ok? ==> |r.rest| < |bs|
    decreases |bs|
  {
    match ReadField(bs, 1)
    case Err(e) => Err(e)
    case Ok(more, bs1) =>
      if more == 0 then Ok([], bs1) else
      match ReadField(bs1, l.bucketBits)
      case Err(e) => Err(e)
      case Ok(bucket, bs2) =>
        if bucket >= l.numBuckets then Err(BucketOutOfRange(bucket))
        else if prevBucket.Some? && bucket <= prevBucket.value then Err(NonCanonicalRows) else
        match ParseRuns(bs2, None, l)
        case Err(e) => Err(e)
        case Ok(cells, bs3) =>
          match ParseRows(bs3, Some(bucket), l)
          case Err(e) => Err(e)
          case Ok(rows, rest) => Ok([BucketDelta(bucket, cells)] + rows, rest)
  }

  /** Append a row to the segment its bucket belongs to. */
  function PushRow(segs: seq<SegmentRowDeltas>, r: BucketDelta, segmentSize: nat): (out: seq<SegmentRowDeltas>)
    requires segmentSize > 0 && r.bucket / segmentSize < |segs|
    ensures |out| == |segs|
  {
    var j := r.bucket / segmentSize;
    segs[j := segs[j] + [RowDelta(r.bucket % segmentSize, r.cells)]]
  }

  predicate BucketsBelow(rows: seq<BucketDelta>, arity: nat, segmentSize: nat)
    requires segmentSize > 0
  {
    forall i :: 0 <= i < |rows| ==> rows[i].bucket / segmentSize < arity
  }

  /** Route every row to its segment. */
  function Distribute(rows: seq<BucketDelta>, arity: nat, segmentSize: nat): (segs: seq<SegmentRowDeltas>)
    requires segmentSize > 0 && BucketsBelow(rows, arity, segmentSize)
    ensures |segs| == arity
  {
    if rows == [] then seq(arity, _ => []) else
    var n := |rows| - 1;
    assert BucketsBelow(rows[..n], arity, segmentSize);
    PushRow(Distribute(rows[..n], arity, segmentSize), rows[n], segmentSize)
  }

  /** Up to the next byte boundary the unread bits must be zero, and nothing may follow. */
  function PaddingError(rest: seq<bool>, pad: nat): Option<WireError> {
    if true in rest[..if pad <= |rest| then pad else |rest|] then Some(NonZeroPadding)
    else if |rest| < pad then Some(Truncated)
    else if |rest| != pad then Some(TrailingBytes)
    else None
  }

  /** What `decode` returns, with the first rule the input breaks as the error. */
  function DecodeBits(bs: seq<bool>, params: CuckooParams): Result<HintDeltaBundle>
    requires params.Legal()
  {
    var l := ForParams(params);
    match ReadField(bs, 64)
    case Err(e) => Failure(e)
    case Ok(epoch, bs1) =>
      match ParseRows(bs1, None, l)
      case Err(e) => Failure(e)
      case Ok(rows, rest) =>
        match PaddingError(rest, PadLength(|bs| - |rest|))
        case Some(e) => Failure(e)
        case None =>
          LayoutSegments(params);
          ParsedBuckets(bs1, None, l, params.Arity());
          Success(HintDeltaBundle(epoch, Distribute(rows, params.Arity(), l.segmentSize), params))
  }

  /** The decoder over a byte string. */
  function DecodeBytes(bytes: seq<Byte>, params: CuckooParams): Result<HintDeltaBundle>
    requires params.Legal()
  {
    DecodeBits(Stream(bytes), params)
  }

  lemma {:induction false} ParsedBuckets(bs: seq<bool>, prev: Option<nat>, l: DeltaWireLayout, arity: nat)
    requires l.Sound() && l.numBuckets == arity * l.segmentSize
    ensures var r := ParseRows(bs, prev, l); r.Ok? ==> BucketsBelow(r.value, arity, l.segmentSize)
    decreases |bs|
  {
    var r := ParseRows(bs, prev, l);
    if r.Ok? && r.value != [] {
      var bs1 := ReadField(bs, 1).rest;
      var bucket, bs2 := ReadField(bs1, l.bucketBits).value, ReadField(bs1, l.bucketBits).rest;
      ParsedBuckets(ParseRuns(bs2, None, l).rest, Some(bucket), l, arity);
      QuotientBelow(bucket, arity, l.segmentSize);
    }
  }

  lemma {:induction false} QuotientBelow(x: nat, a: nat, s: nat)
    requires s > 0 && x < a * s
    ensures x / s < a
  {
    assert x == s * (x / s) + x % s;
    if x / s >= a { MulMonotone(s, a, x / s); }
  }
}
