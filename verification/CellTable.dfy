/** The value table: one packed slot after another in a flat array of plaintext cells. */
module CellTable {
  import opened Words
  import opened Geometry
  import opened Hash
  import opened Fields
  import opened CellBits
  import opened SlotCodec

  /** Slot `k` of a payload whose slots are `w` bits wide. */
  ghost function SlotPart(payload: seq<bool>, w: nat, k: nat): (r: seq<bool>)
    requires Base(k, w) + w <= |payload|
    ensures |r| == w
  {
    payload[Base(k, w)..Base(k, w) + w]
  }

  lemma {:induction false} SlotInside(k: nat, w: nat, n: nat)
    requires k < n
    ensures Base(k, w) + w <= Base(n, w)
  {
    MulMonotone(w, k + 1, n);
  }

  /** The payload with one slot replaced. */
  ghost predicate OnlySlot(before: seq<bool>, after: seq<bool>, w: nat, n: nat, k: nat, slot: seq<bool>)
    requires k < n
  {
    SlotInside(k, w, n);
    && |before| == |after| == Base(n, w) && |slot| == w
    && after == before[..Base(k, w)] + slot + before[Base(k, w) + w..]
  }

  lemma {:induction false} SliceAround(before: seq<bool>, after: seq<bool>, at: nat, slot: seq<bool>, from: nat)
    requires at + |slot| <= |before| && after == before[..at] + slot + before[at + |slot|..]
    requires from + |slot| <= |before| && (from == at || from + |slot| <= at || at + |slot| <= from)
    ensures after[from..from + |slot|] == (if from == at then slot else before[from..from + |slot|])
  {
  }

  /** Replacing slot `k` sets it and leaves every other slot alone. */
  lemma {:induction false} OtherSlots(before: seq<bool>, after: seq<bool>, w: nat, n: nat, k: nat, slot: seq<bool>,
                                      j: nat)
    requires k < n && j < n && OnlySlot(before, after, w, n, k, slot)
    ensures Base(j, w) + w <= |before| == |after|
    ensures SlotPart(after, w, j) == (if j == k then slot else SlotPart(before, w, j))
  {
    SlotInside(k, w, n);
    SlotInside(j, w, n);
    if j < k { SlotInside(j, w, k); } else if k < j { SlotInside(k, w, j); }
    var at, from: nat := Base(k, w), Base(j, w);
    SliceAround(before, after, at, slot, from);
  }

  /** A write inside a slot changes only that slot. */
  lemma {:induction false} WriteInSlot(before: seq<bool>, after: seq<bool>, w: nat, n: nat, k: nat, off: nat,
                                       field: seq<bool>)
    requires k < n && |before| == Base(n, w) && off + |field| <= w
    requires Base(k, w) + off + |field| <= |before|
    requires after == before[..Base(k, w) + off] + field + before[Base(k, w) + off + |field|..]
    ensures Base(k, w) + w <= |before|
    ensures var slot := SlotPart(before, w, k);
            OnlySlot(before, after, w, n, k, slot[..off] + field + slot[off + |field|..])
  {
    SlotInside(k, w, n);
    var at, slot := Base(k, w), SlotPart(before, w, k);
    hide Base;
    var new_ := slot[..off] + field + slot[off + |field|..];
    assert before[..at + off] == before[..at] + slot[..off];
    assert before[at + off + |field|..] == slot[off + |field|..] + before[at + w..];
    assert after == before[..at] + new_ + before[at + w..];
  }

  /** Value cells holding exactly these value bits, the rest of the last cell clear. */
  ghost predicate AreValueCells(cells: seq<nat>, value: seq<bool>, pb: nat) {
    && Fit(cells, pb) && |value| <= |Flat(cells, pb)|
    && forall i :: 0 <= i < |Flat(cells, pb)| ==> Flat(cells, pb)[i] == (i < |value| && value[i])
  }

  // ---------- slots as records ----------

  /** One slot: its fingerprint (0 if empty), its value, and the bits after them. */
  datatype Slot = Slot(fingerprint: nat, value: seq<bool>, fill: seq<bool>)

  type View = seq<seq<Slot>>

  function SlotWidth(p: CuckooParams): nat
    requires p.ValidSlots()
  {
    Base(p.CellsPerSlot(), p.plaintextBits)
  }

  function SlotCount(p: CuckooParams): nat { Base(p.numBuckets, p.bucketSize) }

  function SlotNumber(p: CuckooParams, bucket: nat, slot: nat): nat { Base(bucket, p.bucketSize) + slot }

  lemma {:induction false} SlotExists(p: CuckooParams, bucket: nat, slot: nat)
    requires bucket < p.numBuckets && slot < p.bucketSize
    ensures SlotNumber(p, bucket, slot) < SlotCount(p)
  {
    SlotInside(bucket, p.bucketSize, p.numBuckets);
  }

  /** Slot numbers are distinct. */
  lemma {:induction false} SlotNumberInjective(p: CuckooParams, b: nat, s: nat, b': nat, s': nat)
    requires s < p.bucketSize && s' < p.bucketSize && SlotNumber(p, b, s) == SlotNumber(p, b', s')
    ensures b == b' && s == s'
  {
    if b < b' { SlotInside(b, p.bucketSize, b'); } else if b' < b { SlotInside(b', p.bucketSize, b); }
  }

  lemma {:induction false} EntryFits(p: CuckooParams)
    requires p.ValidSlots()
    ensures p.fingerprintBits + p.valueBits <= SlotWidth(p)
  {
    CellsCover(p.fingerprintBits + p.valueBits, p.plaintextBits);
  }

  /** The payload is exactly the slots. */
  ghost predicate PayloadOk(payload: seq<bool>, p: CuckooParams) {
    p.ValidSlots() && |payload| == Base(SlotCount(p), SlotWidth(p))
  }

  /** The bits of one slot. */
  ghost function SlotIn(payload: seq<bool>, p: CuckooParams, bucket: nat, slot: nat): (r: seq<bool>)
    requires PayloadOk(payload, p) && bucket < p.numBuckets && slot < p.bucketSize
    ensures |r| == SlotWidth(p)
  {
    SlotExists(p, bucket, slot);
    SlotInside(SlotNumber(p, bucket, slot), SlotWidth(p), SlotCount(p));
    SlotPart(payload, SlotWidth(p), SlotNumber(p, bucket, slot))
  }

  ghost function RecordOf(bits: seq<bool>, p: CuckooParams): Slot
    requires p.ValidSlots() && |bits| == SlotWidth(p)
  {
    EntryFits(p);
    Slot(Val(bits[..p.fingerprintBits]),
         bits[p.fingerprintBits..p.fingerprintBits + p.valueBits],
         bits[p.fingerprintBits + p.valueBits..])
  }

  /** All slots of a payload, by bucket. */
  ghost function ViewOf(payload: seq<bool>, p: CuckooParams): (v: View)
    requires PayloadOk(payload, p)
    ensures |v| == p.numBuckets && forall b :: 0 <= b < |v| ==> |v[b]| == p.bucketSize
    ensures forall b, s :: 0 <= b < |v| && 0 <= s < p.bucketSize ==> v[b][s] == RecordOf(SlotIn(payload, p, b, s), p)
  {
    seq(p.numBuckets, b requires 0 <= b < p.numBuckets =>
      seq(p.bucketSize, s requires 0 <= s < p.bucketSize => RecordOf(SlotIn(payload, p, b, s), p)))
  }

  /** A slot with a new entry; the fill bits stay. */
  ghost function WithEntry(slot: Slot, fp: nat, value: seq<bool>): Slot { Slot(fp, value, slot.fill) }

  /** Every slot of a view has its proper sizes. */
  ghost predicate ViewOk(v: View, p: CuckooParams)
    requires p.ValidSlots()
  {
    && |v| == p.numBuckets && (forall b :: 0 <= b < |v| ==> |v[b]| == p.bucketSize)
    && forall b, s :: 0 <= b < |v| && 0 <= s < p.bucketSize ==> SlotOk(v[b][s], p)
  }

  ghost predicate SlotOk(slot: Slot, p: CuckooParams)
    requires p.ValidSlots()
  {
    && slot.fingerprint < Pow2(p.fingerprintBits) && |slot.value| == p.valueBits
    && p.fingerprintBits + p.valueBits + |slot.fill| == SlotWidth(p)
  }

  lemma {:induction false} ViewIsOk(payload: seq<bool>, p: CuckooParams)
    requires PayloadOk(payload, p)
    ensures ViewOk(ViewOf(payload, p), p)
  {
    EntryFits(p);
    forall b, s | 0 <= b < p.numBuckets && 0 <= s < p.bucketSize ensures SlotOk(ViewOf(payload, p)[b][s], p) {
      ValBound(SlotIn(payload, p, b, s)[..p.fingerprintBits]);
    }
  }

  /** Writing a field of one slot replaces that slot's record and no other. */
  lemma {:induction false} OnlySlotWritten(before: seq<bool>, after: seq<bool>, p: CuckooParams, bucket: nat, slot: nat,
                                           off: nat, field: seq<bool>)
    requires PayloadOk(before, p)
    requires bucket < p.numBuckets && slot < p.bucketSize && off + |field| <= SlotWidth(p)
    requires Spliced(before, after, Base(SlotNumber(p, bucket, slot), SlotWidth(p)) + off, field)
    ensures PayloadOk(after, p)
    ensures Spliced(SlotIn(before, p, bucket, slot), SlotIn(after, p, bucket, slot), off, field)
    ensures ViewOf(after, p) == SetSlot(ViewOf(before, p), bucket, slot, RecordOf(SlotIn(after, p, bucket, slot), p))
  {
    var k := SlotNumber(p, bucket, slot);
    SlotExists(p, bucket, slot);
    WriteInSlot(before, after, SlotWidth(p), SlotCount(p), k, off, field);
    var part := SlotPart(before, SlotWidth(p), k);
    var written := part[..off] + field + part[off + |field|..];
    OtherSlots(before, after, SlotWidth(p), SlotCount(p), k, written, k);
    forall b, s | 0 <= b < p.numBuckets && 0 <= s < p.bucketSize && (b != bucket || s != slot)
      ensures SlotIn(after, p, b, s) == SlotIn(before, p, b, s)
    {
      SlotExists(p, b, s);
      if SlotNumber(p, b, s) == k { SlotNumberInjective(p, b, s, bucket, slot); }
      OtherSlots(before, after, SlotWidth(p), SlotCount(p), k, written, SlotNumber(p, b, s));
    }
    OneRecordDiffers(before, after, p, bucket, slot);
  }

  lemma {:induction false} OneRecordDiffers(before: seq<bool>, after: seq<bool>, p: CuckooParams, bucket: nat,
                                            slot: nat)
    requires PayloadOk(before, p) && PayloadOk(after, p) && bucket < p.numBuckets && slot < p.bucketSize
    requires forall b, s :: 0 <= b < p.numBuckets && 0 <= s < p.bucketSize && (b != bucket || s != slot) ==>
               SlotIn(after, p, b, s) == SlotIn(before, p, b, s)
    ensures ViewOf(after, p) == SetSlot(ViewOf(before, p), bucket, slot, RecordOf(SlotIn(after, p, bucket, slot), p))
  {
    var was, now, record := ViewOf(before, p), ViewOf(after, p), RecordOf(SlotIn(after, p, bucket, slot), p);
    var updated := SetSlot(was, bucket, slot, record);
    forall b | 0 <= b < p.numBuckets ensures now[b] == updated[b] {
      forall s | 0 <= s < p.bucketSize ensures now[b][s] == updated[b][s] {
      }
    }
    assert now == updated;
  }

  /** A field of a slot lies inside the payload. */
  lemma {:induction false} SlotField(payload: seq<bool>, p: CuckooParams, bucket: nat, slot: nat, off: nat, n: nat)
    requires PayloadOk(payload, p) && bucket < p.numBuckets && slot < p.bucketSize && off + n <= SlotWidth(p)
    ensures Base(SlotNumber(p, bucket, slot), SlotWidth(p)) + off + n <= |payload|
    ensures var at := Base(SlotNumber(p, bucket, slot), SlotWidth(p)) + off;
            payload[at..at + n] == SlotIn(payload, p, bucket, slot)[off..off + n]
  {
    SlotExists(p, bucket, slot);
    SlotInside(SlotNumber(p, bucket, slot), SlotWidth(p), SlotCount(p));
    var at: nat := Base(SlotNumber(p, bucket, slot), SlotWidth(p));
    hide Base, SlotWidth, SlotNumber, SlotCount;
    SliceOfSlice(payload, at, at + SlotWidth(p), off, n);
  }

  class Table {
    const p: CuckooParams
    const cells: array<nat>

    ghost function Payload(): seq<bool>
      reads cells
    {
      Flat(cells[..], p.plaintextBits)
    }

    /** Every cell keeps its high bits zero, and the cells are exactly the slots. */
    ghost predicate Valid()
      reads cells
    {
      Fit(cells[..], p.plaintextBits) && PayloadOk(Payload(), p)
    }

    /** The stored slots. */
    ghost function Slots(): (v: View)
      reads cells
      requires Valid()
      ensures |v| == p.numBuckets && forall b :: 0 <= b < |v| ==> |v[b]| == p.bucketSize
    {
      ViewOf(Payload(), p)
    }

    /** A table of empty slots with zero values. */
    constructor New(p: CuckooParams)
      requires p.ValidSlots()
      ensures Valid() && fresh(cells) && this.p == p && cells.Length == TotalCells(p)
      ensures forall b, s :: 0 <= b < p.numBuckets && 0 <= s < p.bucketSize ==>
                Slots()[b][s].fingerprint == 0 && Slots()[b][s].value == Clear(p.valueBits)
    {
      this.p := p;
      cells := new nat[TotalCells(p)](_ => 0);
      new;
      PayloadOfTotal(cells[..], p);
      ZeroPayload(cells[..], p.plaintextBits);
      hide Base, Flat, Fit, TotalCells;
      ClearSlots(Payload(), p);
    }

    /** A table over given cells. */
    constructor Adopt(p: CuckooParams, cells: array<nat>)
      requires p.ValidSlots() && cells.Length == TotalCells(p) && Fit(cells[..], p.plaintextBits)
      ensures Valid() && this.p == p && this.cells == cells
    {
      this.p, this.cells := p, cells;
      new;
      PayloadOfTotal(cells[..], p);
    }

    /** `(bucket * bucket_size + slot) * cells_per_slot * plaintext_bits`. */
    function SlotBitOffset(bucket: nat, slot: nat): (r: nat)
      requires p.ValidSlots()
      ensures r == Base(SlotNumber(p, bucket, slot), SlotWidth(p))
    {
      SlotNumber(p, bucket, slot) * (p.CellsPerSlot() * p.plaintextBits)
    }

    method ReadFingerprint(bucket: nat, slot: nat) returns (fp: nat)
      requires Valid() && bucket < p.numBuckets && slot < p.bucketSize
      ensures fp == Slots()[bucket][slot].fingerprint
    {
      hide Base, DivCeil, Flat, Fit, SlotWidth, SlotNumber, Table.SlotBitOffset;
      EntryFits(p);
      SlotField(Payload(), p, bucket, slot, 0, p.fingerprintBits);
      fp := ReadBits(cells, p.plaintextBits, SlotBitOffset(bucket, slot), p.fingerprintBits);
    }

    /** Write an `n`-bit field at position `off` of a slot. */
    method WriteSlotBits(bucket: nat, slot: nat, off: nat, n: nat, v: nat)
      requires Valid() && bucket < p.numBuckets && slot < p.bucketSize && off + n <= SlotWidth(p) && 1 <= n <= 64
      modifies cells
      ensures Valid()
      ensures Spliced(old(SlotIn(Payload(), p, bucket, slot)), SlotIn(Payload(), p, bucket, slot), off, Bits(v, n))
      ensures Slots() == SetSlot(old(Slots()), bucket, slot, RecordOf(SlotIn(Payload(), p, bucket, slot), p))
    {
      hide Base, DivCeil, Flat, Fit, SlotPart, SlotIn, SlotWidth, SlotNumber, Table.SlotBitOffset, ViewOf, RecordOf,
           SetSlot;
      SlotField(Payload(), p, bucket, slot, off, n);
      WriteBits(cells, p.plaintextBits, SlotBitOffset(bucket, slot) + off, n, v);
      OnlySlotWritten(old(Payload()), Payload(), p, bucket, slot, off, Bits(v, n));
    }

    /** Replace the fingerprint of one slot. */
    method WriteFingerprint(bucket: nat, slot: nat, fp: nat)
      requires Valid() && bucket < p.numBuckets && slot < p.bucketSize && fp < Pow2(p.fingerprintBits)
      modifies cells
      ensures Valid()
      ensures Slots() == SetSlot(old(Slots()), bucket, slot, old(Slots()[bucket][slot]).(fingerprint := fp))
    {
      EntryFits(p);
      WriteSlotBits(bucket, slot, 0, p.fingerprintBits, fp);
      NewFingerprint(old(SlotIn(Payload(), p, bucket, slot)), SlotIn(Payload(), p, bucket, slot), fp, p);
    }

    /** Replace the value of one slot; stray high bits of the input are ignored. */
    method WriteValue(bucket: nat, slot: nat, value: seq<nat>)
      requires Valid() && bucket < p.numBuckets && slot < p.bucketSize && |value| == p.ValueSizeInCells()
      modifies cells
      ensures Valid()
      ensures Slots()
           == SetSlot(old(Slots()), bucket, slot, old(Slots()[bucket][slot]).(value := ValueOfCells(value, p)))
    {
      hide Base, DivCeil, Flat, Fit, SlotPart, SlotWidth, SlotNumber, Table.SlotBitOffset, SetSlot, ValueOfCells;
      EntryFits(p);
      SlotField(Payload(), p, bucket, slot, p.fingerprintBits, p.valueBits);
      WriteValueCells(cells, p, SlotBitOffset(bucket, slot), value);
      OnlySlotWritten(old(Payload()), Payload(), p, bucket, slot, p.fingerprintBits, ValueOfCells(value, p));
      NewValue(old(SlotIn(Payload(), p, bucket, slot)), SlotIn(Payload(), p, bucket, slot), ValueOfCells(value, p), p);
    }

    /** Store an entry: exactly that slot changes, and its fill bits stay. */
    method Write(bucket: nat, slot: nat, fp: nat, value: seq<nat>)
      requires Valid() && bucket < p.numBuckets && slot < p.bucketSize && |value| == p.ValueSizeInCells()
      requires fp < Pow2(p.fingerprintBits)
      modifies cells
      ensures Valid()
      ensures Slots()
           == SetSlot(old(Slots()), bucket, slot, WithEntry(old(Slots()[bucket][slot]), fp, ValueOfCells(value, p)))
    {
      hide ViewOf, ValueOfCells;
      WriteFingerprint(bucket, slot, fp);
      WriteValue(bucket, slot, value);
      SetTwice(old(Slots()), bucket, slot, old(Slots()[bucket][slot]).(fingerprint := fp),
               WithEntry(old(Slots()[bucket][slot]), fp, ValueOfCells(value, p)));
    }

    /** The value of a slot in cells. */
    method ReadValue(bucket: nat, slot: nat, out: array<nat>)
      requires Valid() && bucket < p.numBuckets && slot < p.bucketSize && out.Length == p.ValueSizeInCells()
           && out != cells
      modifies out
      ensures AreValueCells(out[..], Slots()[bucket][slot].value, p.plaintextBits)
    {
      hide Base, Min, DivCeil, Flat, Fit, SlotWidth, SlotNumber, Table.SlotBitOffset;
      EntryFits(p);
      ghost var bits, value := SlotIn(Payload(), p, bucket, slot), Slots()[bucket][slot].value;
      var pb := p.plaintextBits;
      ValueSpan(p);
      for i := 0 to out.Length
        invariant forall k :: 0 <= k < i ==> ChunkOf(out[k], value, k, p)
      {
        ValueWidthBounds(i, p);
        NextChunk(i, p);
        var n := ValueWidth(i, p);
        SlotField(Payload(), p, bucket, slot, p.fingerprintBits + Base(i, pb), n);
        out[i] := ReadBits(cells, pb, SlotBitOffset(bucket, slot) + p.fingerprintBits + Base(i, pb), n);
        SliceOfSlice(bits, p.fingerprintBits, p.fingerprintBits + p.valueBits, Base(i, pb), n);
      }
      ChunksAreValue(out[..], value, p);
    }

    /** True iff a slot of the bucket holds `fp`. */
    method Contain(bucket: nat, fp: nat) returns (r: bool)
      requires Valid() && bucket < p.numBuckets
      ensures r <==> exists s :: 0 <= s < p.bucketSize && Slots()[bucket][s].fingerprint == fp
    {
      var found := Find(bucket, fp);
      r := found.Some?;
    }

    /** The first slot of a bucket holding `fp`. */
    method Find(bucket: nat, fp: nat) returns (r: Option<nat>)
      requires Valid() && bucket < p.numBuckets
      ensures IsFirst(Slots()[bucket], fp, r)
    {
      for s := 0 to p.bucketSize
        invariant forall t :: 0 <= t < s ==> Slots()[bucket][t].fingerprint != fp
      {
        var f := ReadFingerprint(bucket, s);
        if f == fp { return Some(s); }
      }
      return None;
    }

    /** Store an entry in the first empty slot of a bucket, if there is one. */
    method Insert(bucket: nat, fp: nat, value: seq<nat>) returns (r: Option<nat>)
      requires Valid() && bucket < p.numBuckets && 0 < fp < Pow2(p.fingerprintBits) && |value| == p.ValueSizeInCells()
      modifies cells
      ensures Valid() && IsFirst(old(Slots()[bucket]), 0, r)
      ensures r.Some? ==> Slots() == SetSlot(old(Slots()), bucket, r.value,
                                             WithEntry(old(Slots()[bucket][r.value]), fp, ValueOfCells(value, p)))
      ensures r.None? ==> cells[..] == old(cells[..])
    {
      r := Find(bucket, 0);
      if r.Some? { Write(bucket, r.value, fp, value); }
    }

    /** Clear the first occurrence of a fingerprint, value included. */
    method Delete(bucket: nat, fp: nat) returns (r: bool, ghost slot: Option<nat>)
      requires Valid() && bucket < p.numBuckets && fp != 0
      modifies cells
      ensures Valid() && r == slot.Some? && IsFirst(old(Slots()[bucket]), fp, slot)
      ensures !r ==> cells[..] == old(cells[..])
      ensures r ==> Slots() == SetSlot(old(Slots()), bucket, slot.value,
                                       WithEntry(old(Slots()[bucket][slot.value]), 0, Clear(p.valueBits)))
    {
      var found := Find(bucket, fp);
      if found.None? { return false, None; }
      var zeros := Zeros(p.ValueSizeInCells());
      ZeroValue(zeros, p);
      Write(bucket, found.value, 0, zeros);
      return true, found;
    }
  }

  /** The first slot of a bucket with this fingerprint, if there is one. */
  ghost predicate IsFirst(bucket: seq<Slot>, fp: nat, r: Option<nat>) {
    match r
    case Some(s) =>
      && s < |bucket| && bucket[s].fingerprint == fp
      && forall t :: 0 <= t < s ==> bucket[t].fingerprint != fp
    case None => forall t :: 0 <= t < |bucket| ==> bucket[t].fingerprint != fp
  }

  lemma {:induction false} NewFingerprint(was: seq<bool>, now: seq<bool>, fp: nat, p: CuckooParams)
    requires p.ValidSlots() && |was| == SlotWidth(p) && fp < Pow2(p.fingerprintBits)
    requires Spliced(was, now, 0, Bits(fp, p.fingerprintBits))
    ensures |now| == SlotWidth(p) && RecordOf(now, p) == RecordOf(was, p).(fingerprint := fp)
  {
    EntryFits(p);
    ValOfBits(fp, p.fingerprintBits);
    var f, n := p.fingerprintBits, p.fingerprintBits + p.valueBits;
    assert now[..f] == Bits(fp, f) && now[f..n] == was[f..n] && now[n..] == was[n..];
  }

  lemma {:induction false} NewValue(was: seq<bool>, now: seq<bool>, value: seq<bool>, p: CuckooParams)
    requires p.ValidSlots() && |was| == SlotWidth(p) && |value| == p.valueBits
    requires Spliced(was, now, p.fingerprintBits, value)
    ensures |now| == SlotWidth(p) && RecordOf(now, p) == RecordOf(was, p).(value := value)
  {
    EntryFits(p);
    var f, n := p.fingerprintBits, p.fingerprintBits + p.valueBits;
    assert now[..f] == was[..f] && now[f..n] == value && now[n..] == was[n..];
  }

  lemma {:induction false} SetTwice(v: View, b: nat, s: nat, x: Slot, y: Slot)
    requires b < |v| && s < |v[b]|
    ensures SetSlot(SetSlot(v, b, s, x), b, s, y) == SetSlot(v, b, s, y)
  {
    assert v[b][s := x][s := y] == v[b][s := y];
  }

  lemma {:induction false} ClearSlots(payload: seq<bool>, p: CuckooParams)
    requires PayloadOk(payload, p) && forall i :: 0 <= i < |payload| ==> !payload[i]
    ensures forall b, s :: 0 <= b < p.numBuckets && 0 <= s < p.bucketSize ==>
              ViewOf(payload, p)[b][s].fingerprint == 0 && ViewOf(payload, p)[b][s].value == Clear(p.valueBits)
  {
    forall b, s | 0 <= b < p.numBuckets && 0 <= s < p.bucketSize
      ensures ViewOf(payload, p)[b][s].fingerprint == 0 && ViewOf(payload, p)[b][s].value == Clear(p.valueBits)
    {
      ClearBitsOf(payload, p, b, s);
      ClearRecord(SlotIn(payload, p, b, s), p);
      hide *;
    }
  }

  lemma {:induction false} ClearBitsOf(payload: seq<bool>, p: CuckooParams, bucket: nat, slot: nat)
    requires PayloadOk(payload, p) && bucket < p.numBuckets && slot < p.bucketSize
    requires forall i :: 0 <= i < |payload| ==> !payload[i]
    ensures forall i :: 0 <= i < SlotWidth(p) ==> !SlotIn(payload, p, bucket, slot)[i]
  {
    SlotExists(p, bucket, slot);
    SlotInside(SlotNumber(p, bucket, slot), SlotWidth(p), SlotCount(p));
    hide Base, SlotWidth, SlotNumber, SlotCount;
  }

  lemma {:induction false} ClearRecord(bits: seq<bool>, p: CuckooParams)
    requires p.ValidSlots() && |bits| == SlotWidth(p) && forall i :: 0 <= i < |bits| ==> !bits[i]
    ensures RecordOf(bits, p).fingerprint == 0 && RecordOf(bits, p).value == Clear(p.valueBits)
  {
    EntryFits(p);
    ClearBits(bits[..p.fingerprintBits]);
    assert bits[p.fingerprintBits..p.fingerprintBits + p.valueBits] == Clear(p.valueBits);
  }

  lemma {:induction false} ZeroValue(zeros: seq<nat>, p: CuckooParams)
    requires p.ValidSlots() && |zeros| == p.ValueSizeInCells() && forall i :: 0 <= i < |zeros| ==> zeros[i] == 0
    ensures ValueOfCells(zeros, p) == Clear(p.valueBits)
  {
    ZeroPayload(zeros, p.plaintextBits);
    FlatLength(zeros, p.plaintextBits);
    CellsCover(p.valueBits, p.plaintextBits);
    var v := ValueOfCells(zeros, p);
    forall i | 0 <= i < p.valueBits
      ensures v[i] == Clear(p.valueBits)[i]
    {
      assert v[i] == Flat(zeros, p.plaintextBits)[i];
    }
  }

  // ---------- reading value cells ----------

  /** `cell` holds chunk `k` of the value. */
  ghost predicate ChunkOf(cell: nat, value: seq<bool>, k: nat, p: CuckooParams) {
    && p.ValidSlots() && k < p.ValueSizeInCells() && |value| == p.valueBits
    && 0 <= ValueWidth(k, p) && Base(k, p.plaintextBits) + ValueWidth(k, p) <= |value|
    && cell == Val(value[Base(k, p.plaintextBits)..Base(k, p.plaintextBits) + ValueWidth(k, p)])
  }

  lemma {:induction false} NextChunk(i: nat, p: CuckooParams)
    requires p.ValidSlots() && i < p.ValueSizeInCells()
    ensures Base(i, p.plaintextBits) + ValueWidth(i, p) <= p.valueBits
  {
    ValueWidthBounds(i, p);
  }

  lemma {:induction false} ChunkBit(cells: seq<nat>, value: seq<bool>, p: CuckooParams, k: nat, i: nat)
    requires k < |cells| && i < p.plaintextBits && ChunkOf(cells[k], value, k, p)
    ensures cells[k] < Pow2(p.plaintextBits)
    ensures Base(k, p.plaintextBits) + i < |Flat(cells, p.plaintextBits)|
    ensures var at := Base(k, p.plaintextBits) + i;
            Flat(cells, p.plaintextBits)[at] == (at < |value| && value[at])
  {
    var pb, n := p.plaintextBits, ValueWidth(k, p);
    var chunk := value[Base(k, pb)..Base(k, pb) + n];
    ValueWidthBounds(k, p);
    ValBound(chunk);
    Pow2Monotone(n, pb);
    CellBit(cells, pb, k, i);
    BitOfVal(chunk, i);
  }

  lemma {:induction false} ChunksAreValue(cells: seq<nat>, value: seq<bool>, p: CuckooParams)
    requires p.ValidSlots() && |value| == p.valueBits && |cells| == p.ValueSizeInCells()
    requires forall k :: 0 <= k < |cells| ==> ChunkOf(cells[k], value, k, p)
    ensures AreValueCells(cells, value, p.plaintextBits)
  {
    var pb := p.plaintextBits;
    PayloadLength(cells, pb);
    CellsCover(p.valueBits, pb);
    forall k | 0 <= k < |cells| ensures cells[k] < Pow2(pb) { ChunkBit(cells, value, p, k, 0); }
    forall i | 0 <= i < |Flat(cells, pb)| ensures Flat(cells, pb)[i] == (i < |value| && value[i]) {
      DivBase(i, pb);
      CellExists(i / pb, i, pb, |cells|);
      ChunkBit(cells, value, p, i / pb, i % pb);
    }
  }

  // ---------- adopting cells ----------

  function TotalCells(p: CuckooParams): nat
    requires p.plaintextBits > 0
  {
    p.numBuckets * p.bucketSize * p.CellsPerSlot()
  }

  lemma {:induction false} PayloadOfTotal(cells: seq<nat>, p: CuckooParams)
    requires p.plaintextBits > 0 && |cells| == TotalCells(p)
    ensures |Flat(cells, p.plaintextBits)|
         == Base(Base(p.numBuckets, p.bucketSize), Base(p.CellsPerSlot(), p.plaintextBits))
  {
    FlatLength(cells, p.plaintextBits);
    var n, c, w := p.numBuckets * p.bucketSize, p.CellsPerSlot(), p.plaintextBits;
    assert n * c * w == n * (c * w);
  }

  lemma {:induction false} ClearBits(bits: seq<bool>)
    requires forall i :: 0 <= i < |bits| ==> !bits[i]
    ensures Val(bits) == 0
  {
    if bits != [] { ClearBits(bits[1..]); }
  }

  /** The bits of a cell above the payload. */
  lemma {:induction false} HighBitsOf(c: nat, pb: nat)
    requires c < U32 && pb < 32
    ensures And(c, Not(Pow2(pb) - 1, 32), 32) != 0 <==> c >= Pow2(pb)
  {
    var high := And(c, Not(Pow2(pb) - 1, 32), 32);
    PowersOfTwo();
    OpBounds(c, Not(Pow2(pb) - 1, 32), 32);
    forall i | 0 <= i < 32 ensures BitOf(high, i) == (BitOf(c, i) && i >= pb) {
      OpBits(c, Not(Pow2(pb) - 1, 32), 32, i);
      OpBits(Pow2(pb) - 1, 0, 32, i);
      MaskBit(pb, i);
    }
    if c < Pow2(pb) {
      forall i | 0 <= i < 32 ensures BitOf(high, i) == BitOf(0, i) {
        BitOfZero(i);
        if i >= pb { NoHighBit(c, pb, i); }
      }
      SameBits(high, 0, 32);
    }
    if high == 0 {
      forall i | pb <= i < 32 ensures !BitOf(c, i) { BitOfZero(i); }
      HighBitsClear(c, 32, pb);
    }
  }

  /** Accept cells iff the fingerprint width, their number and their clear high bits are right. */
  method FromCells(cells: array<nat>, p: CuckooParams) returns (r: Option<Table>)
    requires 1 <= p.plaintextBits <= 32 && p.valueBits >= 1
    requires forall k :: 0 <= k < cells.Length ==> cells[k] < U32
    ensures r.Some?
         <==> 1 <= p.fingerprintBits <= 64 && cells.Length == TotalCells(p) && Fit(cells[..], p.plaintextBits)
    ensures r.Some? ==> r.value.Valid() && r.value.p == p && r.value.cells == cells
  {
    if !(1 <= p.fingerprintBits <= 64) { return None; }
    if cells.Length != TotalCells(p) { return None; }
    if p.plaintextBits < 32 {
      for k := 0 to cells.Length
        invariant forall i :: 0 <= i < k ==> cells[i] < Pow2(p.plaintextBits)
      {
        HighBitsOf(cells[k], p.plaintextBits);
        if And(cells[k], Not(Pow2(p.plaintextBits) - 1, 32), 32) != 0 {
          assert cells[..][k] >= Pow2(p.plaintextBits);
          return None;
        }
      }
    } else {
      PowersOfTwo();
    }
    var table := new Table.Adopt(p, cells);
    return Some(table);
  }
}
