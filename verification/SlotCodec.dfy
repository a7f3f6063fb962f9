/** One slot of the value table: a fingerprint and a value packed into plaintext cells. */
module SlotCodec {
  import opened Words
  import opened Geometry
  import opened Hash
  import opened Window
  import opened Fields
  import opened CellBits

  /** Cut a bit string into cells. */
  function CellsOf(bits: seq<bool>, pb: nat): seq<nat>
    requires pb > 0
  {
    if bits == [] then []
    else if |bits| <= pb then [Val(bits)]
    else [Val(bits[..pb])] + CellsOf(bits[pb..], pb)
  }

  /** A value held in cells, as the bits that are stored of it: the last cell may be ragged. */
  function ValueOfCells(value: seq<nat>, p: CuckooParams): (r: seq<bool>)
    requires p.plaintextBits > 0 && |value| == p.ValueSizeInCells()
    ensures |r| == p.valueBits
  {
    FlatLength(value, p.plaintextBits);
    CellsCover(p.valueBits, p.plaintextBits);
    Flat(value, p.plaintextBits)[..p.valueBits]
  }

  /** The payload of a packed slot: fingerprint, value, zero fill. */
  function SlotPayload(fp: nat, value: seq<bool>, p: CuckooParams): (r: seq<bool>)
    requires p.ValidSlots() && |value| == p.valueBits
    ensures |r| == Base(p.CellsPerSlot(), p.plaintextBits)
  {
    CellsCover(p.fingerprintBits + p.valueBits, p.plaintextBits);
    Bits(fp, p.fingerprintBits) + value
    + Clear(Base(p.CellsPerSlot(), p.plaintextBits) - p.fingerprintBits - p.valueBits)
  }

  /** The cells of a packed slot. */
  function PackedCells(fp: nat, value: seq<bool>, p: CuckooParams): seq<nat>
    requires p.ValidSlots() && |value| == p.valueBits
  {
    CellsOf(SlotPayload(fp, value, p), p.plaintextBits)
  }

  /** The fingerprint read back from a slot's cells. */
  function FingerprintOf(cells: seq<nat>, p: CuckooParams): nat
    requires p.fingerprintBits <= |Flat(cells, p.plaintextBits)|
  {
    Val(Flat(cells, p.plaintextBits)[..p.fingerprintBits])
  }

  /** The value bits read back from a slot's cells. */
  function ValueOf(cells: seq<nat>, p: CuckooParams): (r: seq<bool>)
    requires p.fingerprintBits + p.valueBits <= |Flat(cells, p.plaintextBits)|
    ensures |r| == p.valueBits
  {
    Flat(cells, p.plaintextBits)[p.fingerprintBits..p.fingerprintBits + p.valueBits]
  }

  // ---------- cells and bit strings ----------

  lemma {:induction false} CellsCover(bits: nat, pb: nat)
    requires pb > 0
    ensures bits <= DivCeil(bits, pb) * pb < bits + pb
    ensures bits <= Base(DivCeil(bits, pb), pb)
  {
    DivCeilBounds(bits, pb);
  }

  lemma {:induction false} SlotHolds(cells: seq<nat>, p: CuckooParams)
    requires p.ValidSlots() && |cells| == p.CellsPerSlot()
    ensures |Flat(cells, p.plaintextBits)| == Base(p.CellsPerSlot(), p.plaintextBits)
    ensures p.fingerprintBits + p.valueBits <= |Flat(cells, p.plaintextBits)|
  {
    PayloadLength(cells, p.plaintextBits);
    CellsCover(p.fingerprintBits + p.valueBits, p.plaintextBits);
  }

  /** Cutting into `n` whole cells loses nothing. */
  lemma {:induction false} CellsRoundTrip(bits: seq<bool>, pb: nat, n: nat)
    requires pb > 0 && |bits| == Base(n, pb)
    ensures |CellsOf(bits, pb)| == n && Fit(CellsOf(bits, pb), pb) && Flat(CellsOf(bits, pb), pb) == bits
    decreases n
  {
    if n == 0 {
      assert bits == [];
    } else {
      BaseNext(n - 1, pb);
      CellsRoundTrip(bits[pb..], pb, n - 1);
      var first := bits[..pb];
      assert CellsOf(bits, pb) == [Val(first)] + CellsOf(bits[pb..], pb) by {
        if |bits| == pb { assert first == bits && bits[pb..] == []; }
      }
      ValBound(first);
      BitsOfVal(first);
      assert bits == first + bits[pb..];
      var rest := CellsOf(bits[pb..], pb);
      assert ([Val(first)] + rest)[1..] == rest;
      assert Fit([Val(first)] + rest, pb);
    }
  }

  /** Cells with a given payload are the cells cut from it. */
  lemma {:induction false} CellsUnique(cells: seq<nat>, bits: seq<bool>, pb: nat)
    requires pb > 0 && Fit(cells, pb) && Flat(cells, pb) == bits
    ensures CellsOf(bits, pb) == cells
  {
    PayloadLength(cells, pb);
    CellsRoundTrip(bits, pb, |cells|);
    FlatInjective(cells, CellsOf(bits, pb), pb);
  }

  /** Packing and reading back returns the fingerprint and the value. */
  lemma {:induction false} PackRoundTrip(fp: nat, value: seq<bool>, p: CuckooParams)
    requires p.ValidSlots() && |value| == p.valueBits && fp < Pow2(p.fingerprintBits)
    ensures var cells := PackedCells(fp, value, p);
            && |cells| == p.CellsPerSlot() && Fit(cells, p.plaintextBits)
            && p.fingerprintBits + p.valueBits <= |Flat(cells, p.plaintextBits)|
            && FingerprintOf(cells, p) == fp && ValueOf(cells, p) == value
  {
    var payload := SlotPayload(fp, value, p);
    CellsRoundTrip(payload, p.plaintextBits, p.CellsPerSlot());
    SlotHolds(PackedCells(fp, value, p), p);
    ValOfBits(fp, p.fingerprintBits);
    assert payload[..p.fingerprintBits] == Bits(fp, p.fingerprintBits);
    assert payload[p.fingerprintBits..p.fingerprintBits + p.valueBits] == value;
  }

  // ---------- packing ----------

  /** Width of value cell `i`. */
  function ValueWidth(i: nat, p: CuckooParams): (r: int)
  {
    Min(p.valueBits - Base(i, p.plaintextBits), p.plaintextBits)
  }

  lemma {:induction false} ValueWidthBounds(i: nat, p: CuckooParams)
    requires p.ValidSlots() && i < p.ValueSizeInCells()
    ensures 1 <= ValueWidth(i, p) <= p.plaintextBits
    ensures Base(i, p.plaintextBits) + ValueWidth(i, p) == Min(p.valueBits, Base(i + 1, p.plaintextBits))
  {
    BaseNext(i, p.plaintextBits);
    var pb := p.plaintextBits;
    CellsCover(p.valueBits, pb);
    MulMonotone(pb, i + 1, p.ValueSizeInCells());
  }

  /** Write the value cells of a slot whose payload starts at `start`. */
  method WriteValueCells(cells: array<nat>, p: CuckooParams, start: nat, value: seq<nat>)
    requires p.ValidSlots() && |value| == p.ValueSizeInCells() && Fit(cells[..], p.plaintextBits)
    requires start + p.fingerprintBits + p.valueBits <= |Flat(cells[..], p.plaintextBits)|
    modifies cells
    ensures Fit(cells[..], p.plaintextBits)
    ensures Spliced(old(Flat(cells[..], p.plaintextBits)), Flat(cells[..], p.plaintextBits),
                    start + p.fingerprintBits, ValueOfCells(value, p))
  {
    ghost var before := Flat(cells[..], p.plaintextBits);
    var off0: nat, n: nat := start + p.fingerprintBits, p.ValueSizeInCells();
    NoCellsWritten(before, value, p, off0);
    hide *;
    for i := 0 to n
      invariant Fit(cells[..], p.plaintextBits)
      invariant CellsWritten(Flat(cells[..], p.plaintextBits), before, value, p, off0, i)
    {
      WriteNextCell(cells, p, off0, value, i, before);
    }
    AllCellsWritten(Flat(cells[..], p.plaintextBits), before, value, p, off0);
  }

  /** `now` is `before` with the first `i` value cells written at `off0`. */
  ghost predicate CellsWritten(now: seq<bool>, before: seq<bool>, value: seq<nat>, p: CuckooParams, off0: nat, i: nat)
    requires p.ValidSlots() && |value| == p.ValueSizeInCells()
  {
    ValueWritten(now, before, ValueOfCells(value, p), off0, Min(p.valueBits, Base(i, p.plaintextBits)))
  }

  lemma {:induction false} CellsWrittenMeans(now: seq<bool>, before: seq<bool>, value: seq<nat>, p: CuckooParams,
                                             off0: nat, i: nat)
    requires p.ValidSlots() && |value| == p.ValueSizeInCells()
    ensures CellsWritten(now, before, value, p, off0, i)
       <==> ValueWritten(now, before, ValueOfCells(value, p), off0, Min(p.valueBits, Base(i, p.plaintextBits)))
  {
  }

  lemma {:induction false} NoCellsWritten(before: seq<bool>, value: seq<nat>, p: CuckooParams, off0: nat)
    requires p.ValidSlots() && |value| == p.ValueSizeInCells() && off0 + p.valueBits <= |before|
    ensures CellsWritten(before, before, value, p, off0, 0)
  {
    ValueSpan(p);
    NoneWritten(before, ValueOfCells(value, p), off0);
  }

  lemma {:induction false} AllCellsWritten(now: seq<bool>, before: seq<bool>, value: seq<nat>, p: CuckooParams,
                                           off0: nat)
    requires p.ValidSlots() && |value| == p.ValueSizeInCells()
    requires CellsWritten(now, before, value, p, off0, p.ValueSizeInCells())
    ensures Spliced(before, now, off0, ValueOfCells(value, p))
  {
    ValueSpan(p);
    AllWritten(now, before, ValueOfCells(value, p), off0);
  }

  lemma {:induction false} AllWritten(now: seq<bool>, before: seq<bool>, target: seq<bool>, off: nat)
    requires ValueWritten(now, before, target, off, |target|)
    ensures Spliced(before, now, off, target)
  {
    assert target[..|target|] == target;
  }

  lemma {:induction false} NoneWritten(before: seq<bool>, target: seq<bool>, off: nat)
    requires off + |target| <= |before|
    ensures ValueWritten(before, before, target, off, 0)
  {
  }

  /** Write value cell `i`, at its position after `off0`. */
  method WriteNextCell(cells: array<nat>, p: CuckooParams, off0: nat, value: seq<nat>, i: nat, ghost before: seq<bool>)
    requires p.ValidSlots() && |value| == p.ValueSizeInCells() && i < p.ValueSizeInCells()
         && Fit(cells[..], p.plaintextBits)
    requires CellsWritten(Flat(cells[..], p.plaintextBits), before, value, p, off0, i)
    modifies cells
    ensures Fit(cells[..], p.plaintextBits)
    ensures CellsWritten(Flat(cells[..], p.plaintextBits), before, value, p, off0, i + 1)
  {
    NextValueCell(value, p, i);
    CellsBefore(i, p);
    ValueWidthBounds(i, p);
    hide *;
    var n, at: nat := ValueWidth(i, p), Base(i, p.plaintextBits);
    CellsWrittenMeans(Flat(cells[..], p.plaintextBits), before, value, p, off0, i);
    WriteValueCell(cells, p.plaintextBits, off0 + at, n, value[i], before, ValueOfCells(value, p), off0, at);
    CellsWrittenMeans(Flat(cells[..], p.plaintextBits), before, value, p, off0, i + 1);
  }

  lemma {:induction false} ValueSpan(p: CuckooParams)
    requires p.ValidSlots()
    ensures Min(p.valueBits, Base(0, p.plaintextBits)) == 0
    ensures Min(p.valueBits, Base(p.ValueSizeInCells(), p.plaintextBits)) == p.valueBits
  {
    CellsCover(p.valueBits, p.plaintextBits);
    BaseZero(p.plaintextBits);
  }

  lemma {:induction false} CellsBefore(i: nat, p: CuckooParams)
    requires p.ValidSlots() && i < p.ValueSizeInCells()
    ensures Min(p.valueBits, Base(i, p.plaintextBits)) == Base(i, p.plaintextBits)
  {
    ValueWidthBounds(i, p);
  }

  lemma {:induction false} BaseZero(pb: nat)
    ensures Base(0, pb) == 0
  {
  }

  /** `now` is `before` with the first `j` bits of `target` written at `off`. */
  ghost predicate ValueWritten(now: seq<bool>, before: seq<bool>, target: seq<bool>, off: nat, j: int) {
    0 <= j <= |target| && off + |target| <= |before| && now == before[..off] + target[..j] + before[off + j..]
  }

  lemma {:induction false} NextValueCell(value: seq<nat>, p: CuckooParams, i: nat)
    requires p.ValidSlots() && |value| == p.ValueSizeInCells() && i < p.ValueSizeInCells()
    ensures 1 <= ValueWidth(i, p) <= p.plaintextBits && Base(i, p.plaintextBits) + ValueWidth(i, p) <= p.valueBits
    ensures Bits(value[i], ValueWidth(i, p))
         == ValueOfCells(value, p)[Base(i, p.plaintextBits)..Base(i, p.plaintextBits) + ValueWidth(i, p)]
  {
    ValueWidthBounds(i, p);
    var pb, at, n := p.plaintextBits, Base(i, p.plaintextBits), ValueWidth(i, p);
    var target := ValueOfCells(value, p);
    FlatLength(value, pb);
    CellsCover(p.valueBits, pb);
    assert target == Flat(value, pb)[..p.valueBits];
    hide *;
    forall b | 0 <= b < n ensures Bits(value[i], n)[b] == target[at + b] {
      BitsAt(value[i], n, b);
      CellBit(value, pb, i, b);
    }
    assert Bits(value[i], n) == target[at..at + n];
  }

  /** Write one masked value cell. */
  method WriteValueCell(cells: array<nat>, pb: nat, off: nat, n: nat, cell: nat, ghost before: seq<bool>,
                        ghost target: seq<bool>, ghost off0: nat, ghost j: nat)
    requires 1 <= n <= pb <= 32 && Fit(cells[..], pb)
    requires off == off0 + j && j + n <= |target|
    requires ValueWritten(Flat(cells[..], pb), before, target, off0, j)
    requires Bits(cell, n) == target[j..j + n]
    modifies cells
    ensures Fit(cells[..], pb)
    ensures ValueWritten(Flat(cells[..], pb), before, target, off0, j + n)
  {
    MaskValue(n, 64);
    var masked := And(cell, Mask(n, 64), 32);
    MaskedBits(cell, n);
    ghost var was := Flat(cells[..], pb);
    WriteBits(cells, pb, off, n, masked);
    Appended(was, before, target, off0, j, n);
  }

  lemma {:induction false} MaskedBits(v: nat, n: nat)
    requires n <= 32
    ensures Bits(And(v, Pow2(n) - 1, 32), n) == Bits(v, n)
  {
    forall i | 0 <= i < n ensures Bits(And(v, Pow2(n) - 1, 32), n)[i] == Bits(v, n)[i] {
      BitsAt(v, n, i);
      BitsAt(And(v, Pow2(n) - 1, 32), n, i);
      OpBits(v, Pow2(n) - 1, 32, i);
      MaskBit(n, i);
    }
  }

  lemma {:induction false} Appended(was: seq<bool>, before: seq<bool>, target: seq<bool>, off: nat, j: nat, n: nat)
    requires j + n <= |target| && ValueWritten(was, before, target, off, j)
    ensures ValueWritten(was[..off + j] + target[j..j + n] + was[off + j + n..], before, target, off, j + n)
  {
    assert was[..off + j] == before[..off] + target[..j];
    assert target[..j] + target[j..j + n] == target[..j + n];
    assert was[off + j + n..] == before[off + j + n..];
  }

  /** `pack_slot_cells`: the canonical cells of a slot. */
  method PackSlotCells(p: CuckooParams, fingerprint: nat, value: seq<nat>, out: array<nat>)
    requires p.ValidSlots() && out.Length == p.CellsPerSlot() && |value| == p.ValueSizeInCells()
    modifies out
    ensures out[..] == PackedCells(fingerprint, ValueOfCells(value, p), p)
  {
    var pb := p.plaintextBits;
    for i := 0 to out.Length
      invariant forall k :: 0 <= k < i ==> out[k] == 0
    {
      out[i] := 0;
    }
    ZeroPayload(out[..], pb);
    SlotHolds(out[..], p);
    hide Fit, Base, DivCeil;
    ghost var zeros := Flat(out[..], pb);
    WriteBits(out, pb, 0, p.fingerprintBits, fingerprint);
    ghost var withFp := Flat(out[..], pb);
    WriteValueCells(out, p, 0, value);
    PackedPayload(zeros, withFp, Flat(out[..], pb), fingerprint, ValueOfCells(value, p), p);
    CellsUnique(out[..], SlotPayload(fingerprint, ValueOfCells(value, p), p), pb);
  }

  lemma {:induction false} PackedPayload(zeros: seq<bool>, withFp: seq<bool>, all: seq<bool>, fp: nat, value: seq<bool>,
                                         p: CuckooParams)
    requires p.ValidSlots() && |value| == p.valueBits
    requires p.fingerprintBits + p.valueBits <= |zeros| == Base(p.CellsPerSlot(), p.plaintextBits)
    requires forall i :: 0 <= i < |zeros| ==> !zeros[i]
    requires Spliced(zeros, withFp, 0, Bits(fp, p.fingerprintBits))
    requires Spliced(withFp, all, p.fingerprintBits, value)
    ensures all == SlotPayload(fp, value, p)
  {
    assert withFp[..p.fingerprintBits] == Bits(fp, p.fingerprintBits);
    assert withFp[p.fingerprintBits + p.valueBits..] == Clear(|zeros| - p.fingerprintBits - p.valueBits);
  }

  lemma {:induction false} ZeroPayload(cells: seq<nat>, pb: nat)
    requires forall k :: 0 <= k < |cells| ==> cells[k] == 0
    ensures Fit(cells, pb)
    ensures forall i :: 0 <= i < |Flat(cells, pb)| ==> !Flat(cells, pb)[i]
  {
    if cells != [] {
      ZeroPayload(cells[1..], pb);
      forall i | 0 <= i < pb ensures !Bits(0, pb)[i] { BitsAt(0, pb, i); BitOfZero(i); }
    }
  }

  // ---------- unpacking ----------

  lemma {:induction false} HoldMore(acc: nat, s: seq<bool>, at: nat, held: nat, n: nat, c: nat)
    requires Gathered(acc, s, at, held) && at + held + n <= |s| && c == Val(s[at + held..at + held + n])
    ensures Gathered(Or(acc, Shl(c, held, 64), 64), s, at, held + n)
  {
    forall i | 0 <= i < 64 ensures BitOf(Or(acc, Shl(c, held, 64), 64), i) == (i < held + n && s[at + i]) {
      OpBits(acc, Shl(c, held, 64), 64, i);
      ShlBits(c, held, 64, i);
      if i >= held { BitOfVal(s[at + held..at + held + n], i - held); }
    }
  }

  lemma {:induction false} HoldLess(acc: nat, s: seq<bool>, at: nat, held: nat, n: nat)
    requires Gathered(acc, s, at, held) && n <= held <= 64 && acc < Pow2(64)
    ensures Gathered(Shr(acc, n), s, at + n, held - n)
    ensures Shr(acc, n) < Pow2(64)
  {
    ShrBound(acc, n);
    forall i | 0 <= i < 64 ensures BitOf(Shr(acc, n), i) == (i < held - n && s[at + n + i]) {
      ShrBits(acc, n, i);
      if n + i >= 64 { NoHighBit(acc, 64, n + i); }
    }
  }

  lemma {:induction false} ShrBound(v: nat, s: nat)
    ensures Shr(v, s) <= v
  {
    if s > 0 { ShrBound(v / 2, s - 1); }
  }

  /** The low byte of the accumulator holds the next bits of the string. */
  lemma {:induction false} LowByteBits(acc: nat, s: seq<bool>, at: nat, held: nat, k: nat)
    requires Gathered(acc, s, at, held) && k < 8
    ensures BitOf(acc % 256, k) == (k < held && s[at + k])
  {
    assert Pow2(8) == 256;
    LowByte(acc % 256, acc / 256, k, 8);
  }

  /** The first `n` bits of the buffer are those of `s`. */
  ghost predicate BytesHold(out: seq<Byte>, s: seq<bool>, n: nat) {
    n <= |s| && n <= 8 * |out| && forall i :: 0 <= i < n ==> Stream(out)[i] == s[i]
  }

  lemma {:induction false} NextByte(out: seq<Byte>, s: seq<bool>, k: nat, acc: nat, held: nat)
    requires k < |out| && BytesHold(out, s, 8 * k) && Gathered(acc, s, 8 * k, held)
    ensures var out': seq<Byte> := out[k := acc % 256]; BytesHold(out', s, 8 * k + (if held < 8 then held else 8))
  {
    var out': seq<Byte> := out[k := acc % 256];
    var m := if held < 8 then held else 8;
    forall i | 0 <= i < 8 * k + m ensures Stream(out')[i] == s[i] {
      if i >= 8 * k {
        LowByteBits(acc, s, 8 * k, held, i - 8 * k);
        assert i / 8 == k && i % 8 == i - 8 * k;
      }
    }
  }

  /** The bytes of a value: its bits in order, the last byte filled with zeros. */
  ghost predicate AreValueBytes(bytes: seq<Byte>, value: seq<bool>) {
    && |bytes| == DivCeil(|value|, 8)
    && forall i :: 0 <= i < 8 * |bytes| ==> Stream(bytes)[i] == (i < |value| && value[i])
  }

  /** Take whole bytes out of the accumulator. */
  method Drain(out: array<Byte>, ghost s: seq<bool>, acc0: nat, held0: nat, byteOff0: nat)
      returns (acc: nat, held: nat, byteOff: nat)
    requires held0 <= 64 && acc0 < Pow2(64) && 8 * byteOff0 + held0 <= |s| <= 8 * out.Length
    requires BytesHold(out[..], s, 8 * byteOff0) && Gathered(acc0, s, 8 * byteOff0, held0)
    modifies out
    ensures held < 8 && acc < Pow2(64) && 8 * byteOff + held == 8 * byteOff0 + held0
    ensures BytesHold(out[..], s, 8 * byteOff) && Gathered(acc, s, 8 * byteOff, held)
  {
    acc, held, byteOff := acc0, held0, byteOff0;
    while held >= 8 && byteOff < out.Length
      invariant held <= 64 && acc < Pow2(64) && 8 * byteOff + held == 8 * byteOff0 + held0
      invariant BytesHold(out[..], s, 8 * byteOff) && Gathered(acc, s, 8 * byteOff, held)
    {
      NextByte(out[..], s, byteOff, acc, held);
      ghost var next: seq<Byte> := out[..][byteOff := acc % 256];
      out[byteOff] := acc % 256;
      assert out[..] == next;
      byteOff := byteOff + 1;
      HoldLess(acc, s, 8 * (byteOff - 1), held, 8);
      acc := Shr(acc, 8);
      held := held - 8;
    }
  }

  /** `unpack_slot_cells`: the fingerprint and the value bytes of a slot. */
  method UnpackSlotCells(p: CuckooParams, cells: array<nat>) returns (fp: nat, out: array<Byte>)
    requires p.ValidSlots() && cells.Length == p.CellsPerSlot() && Fit(cells[..], p.plaintextBits)
    ensures p.fingerprintBits + p.valueBits <= |Flat(cells[..], p.plaintextBits)|
    ensures fp == FingerprintOf(cells[..], p)
    ensures fresh(out) && AreValueBytes(out[..], ValueOf(cells[..], p))
  {
    var pb, vb := p.plaintextBits, p.valueBits;
    SlotHolds(cells[..], p);
    fp := ReadBits(cells, pb, 0, p.fingerprintBits);
    ghost var s := ValueOf(cells[..], p);
    var acc: nat, held: nat, byteOff: nat := 0, 0, 0;
    out := new Byte[p.ValueSizeInBytes()](_ => 0);
    CellsCover(vb, pb);
    BaseZero(pb);
    BytesCover(vb);
    hide Base, DivCeil, CuckooParams.CellsPerSlot, ValueOf, FingerprintOf;
    NothingHeld(s);
    for ci := 0 to p.ValueSizeInCells()
      invariant held < 8 && acc < Pow2(64) && 8 * byteOff + held == Min(vb, Base(ci, pb))
      invariant fresh(out) && out.Length == p.ValueSizeInBytes()
      invariant BytesHold(out[..], s, 8 * byteOff) && Gathered(acc, s, 8 * byteOff, held)
    {
      acc, held, byteOff := UnpackNext(p, cells, ci, out, acc, held, byteOff);
    }
    FinishBytes(out, s, acc, held, byteOff, vb);
  }

  /** Read value cell `ci` and emit the bytes it completes. */
  method UnpackNext(p: CuckooParams, cells: array<nat>, ci: nat, out: array<Byte>, acc0: nat, held0: nat, byteOff0: nat)
      returns (acc: nat, held: nat, byteOff: nat)
    requires p.ValidSlots() && ci < p.ValueSizeInCells() && out.Length == p.ValueSizeInBytes()
    requires p.fingerprintBits + p.valueBits <= |Flat(cells[..], p.plaintextBits)| && Fit(cells[..], p.plaintextBits)
    requires held0 < 8 && acc0 < Pow2(64) && 8 * byteOff0 + held0 == Min(p.valueBits, Base(ci, p.plaintextBits))
    requires BytesHold(out[..], ValueOf(cells[..], p), 8 * byteOff0)
         && Gathered(acc0, ValueOf(cells[..], p), 8 * byteOff0, held0)
    modifies out
    ensures cells[..] == old(cells[..])
    ensures held < 8 && acc < Pow2(64) && 8 * byteOff + held == Min(p.valueBits, Base(ci + 1, p.plaintextBits))
    ensures BytesHold(out[..], ValueOf(cells[..], p), 8 * byteOff)
         && Gathered(acc, ValueOf(cells[..], p), 8 * byteOff, held)
  {
    BytesCover(p.valueBits);
    CellsBefore(ci, p);
    WidthWithin(ci, p);
    hide *;
    var n := ValueWidth(ci, p);
    acc := TakeCell(p, cells, Base(ci, p.plaintextBits), n, acc0, held0, 8 * byteOff0);
    acc, held, byteOff := Drain(out, ValueOf(cells[..], p), acc, held0 + n, byteOff0);
  }

  /** Put the `n` value bits from `at` on above the bits held. */
  method TakeCell(p: CuckooParams, cells: array<nat>, at: nat, n: nat, acc0: nat, held: nat, ghost start: nat)
      returns (acc: nat)
    requires 1 <= p.plaintextBits <= 32 && 1 <= n <= 32 && held < 8 && Fit(cells[..], p.plaintextBits)
    requires p.fingerprintBits + p.valueBits <= |Flat(cells[..], p.plaintextBits)|
    requires at + n <= p.valueBits && start + held == at && Gathered(acc0, ValueOf(cells[..], p), start, held)
    ensures acc < Pow2(64) && Gathered(acc, ValueOf(cells[..], p), start, held + n)
  {
    hide *;
    var c := ReadBits(cells, p.plaintextBits, p.fingerprintBits + at, n);
    ValueSlice(cells[..], p, at, n);
    HoldMore(acc0, ValueOf(cells[..], p), start, held, n, c);
    OpBounds(acc0, Shl(c, held, 64), 64);
    acc := Or(acc0, Shl(c, held, 64), 64);
  }

  lemma {:induction false} WidthWithin(i: nat, p: CuckooParams)
    requires p.ValidSlots() && i < p.ValueSizeInCells()
    ensures 1 <= ValueWidth(i, p) <= p.plaintextBits && Base(i, p.plaintextBits) + ValueWidth(i, p) <= p.valueBits
    ensures Base(i, p.plaintextBits) + ValueWidth(i, p) == Min(p.valueBits, Base(i + 1, p.plaintextBits))
  {
    ValueWidthBounds(i, p);
  }

  lemma {:induction false} ValueSlice(cells: seq<nat>, p: CuckooParams, at: nat, n: nat)
    requires p.fingerprintBits + p.valueBits <= |Flat(cells, p.plaintextBits)| && at + n <= p.valueBits
    ensures Flat(cells, p.plaintextBits)[p.fingerprintBits + at..p.fingerprintBits + at + n]
         == ValueOf(cells, p)[at..at + n]
  {
    SliceOfSlice(Flat(cells, p.plaintextBits), p.fingerprintBits, p.fingerprintBits + p.valueBits, at, n);
  }

  lemma {:induction false} SliceOfSlice(s: seq<bool>, from: nat, to: nat, at: nat, n: nat)
    requires from <= to <= |s| && from + at + n <= to
    ensures s[from..to][at..at + n] == s[from + at..from + at + n]
  {
    var part := s[from..to];
    var a, b := part[at..at + n], s[from + at..from + at + n];
    forall i | 0 <= i < n ensures a[i] == b[i] { assert a[i] == part[at + i]; }
  }

  lemma {:induction false} BytesCover(vb: nat)
    ensures vb <= 8 * DivCeil(vb, 8) < vb + 8
  {
    DivCeilBounds(vb, 8);
  }

  lemma {:induction false} NothingHeld(s: seq<bool>)
    ensures Gathered(0, s, 0, 0) && 0 < Pow2(64)
  {
    forall i | 0 <= i < 64 ensures !BitOf(0, i) { BitOfZero(i); }
  }

  /** Flush a partial last byte and clear its unused bits. */
  method FinishBytes(out: array<Byte>, ghost s: seq<bool>, acc: nat, held: nat, byteOff: nat, vb: nat)
    requires held < 8 && 8 * byteOff + held == vb == |s| >= 1 && out.Length == DivCeil(vb, 8)
    requires BytesHold(out[..], s, 8 * byteOff) && Gathered(acc, s, 8 * byteOff, held)
    modifies out
    ensures AreValueBytes(out[..], s)
  {
    BytesCover(vb);
    if held > 0 {
      NextByte(out[..], s, byteOff, acc, held);
      ghost var next: seq<Byte> := out[..][byteOff := acc % 256];
      out[byteOff] := acc % 256;
      assert out[..] == next;
    }
    assert BytesHold(out[..], s, vb);
    if vb % 8 != 0 {
      var last := out.Length - 1;
      ClearTail(out[..], s, vb % 8);
      ghost var next: seq<Byte> := out[..][last := And(out[last], Pow2(vb % 8) - 1, 8)];
      out[last] := And(out[last], Pow2(vb % 8) - 1, 8);
      assert out[..] == next;
    }
  }

  lemma {:induction false} ClearTail(out: seq<Byte>, s: seq<bool>, r: nat)
    requires 0 < r < 8 && |out| > 0 && |s| == 8 * (|out| - 1) + r && BytesHold(out, s, |s|)
    ensures And(out[|out| - 1], Pow2(r) - 1, 8) < 256
    ensures AreValueBytes(out[|out| - 1 := And(out[|out| - 1], Pow2(r) - 1, 8)], s)
  {
    BytesCover(|s|);
    var last := |out| - 1;
    var b := And(out[last], Pow2(r) - 1, 8);
    assert Pow2(8) == 256;
    OpBounds(out[last], Pow2(r) - 1, 8);
    var out': seq<Byte> := out[last := b];
    forall i | 0 <= i < 8 * |out| ensures Stream(out')[i] == (i < |s| && s[i]) {
      if i >= 8 * last {
        var k := i - 8 * last;
        assert i / 8 == last && i % 8 == k;
        OpBits(out[last], Pow2(r) - 1, 8, k);
        MaskBit(r, k);
        if k < r { assert Stream(out)[i] == s[i]; }
      }
    }
  }
}
