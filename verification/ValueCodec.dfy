/** Packing the bytes of a value into plaintext cells, and the way back through a packed slot. */
module ValueCodec {
  import opened Words
  import opened Geometry
  import opened Window
  import opened Fields
  import opened CellBits
  import opened SlotCodec
  import opened CellTable

  /** The bits of a value given as bytes: the stream cut to the value's width. */
  ghost function ValueBitsOf(bytes: seq<Byte>, p: CuckooParams): (r: seq<bool>)
    requires |bytes| == p.ValueSizeInBytes()
    ensures |r| == p.valueBits
  {
    BytesCover(p.valueBits);
    Stream(bytes)[..p.valueBits]
  }

  /** The accumulator holds the stream bits after position `at`, and `read` bytes were consumed. */
  ghost predicate Pending(acc: nat, held: nat, read: nat, bytes: seq<Byte>, at: nat) {
    read <= |bytes| && held <= 40 && acc < Pow2(64) && at + held == 8 * read && Gathered(acc, Stream(bytes), at, held)
  }

  lemma {:induction false} TakeByte(acc: nat, held: nat, read: nat, bytes: seq<Byte>, at: nat)
    requires Pending(acc, held, read, bytes, at) && held <= 32 && read < |bytes|
    ensures Pending(Or(acc, Shl(bytes[read], held, 64), 64), held + 8, read + 1, bytes, at)
  {
    var s := Stream(bytes);
    var next := s[at + held..at + held + 8];
    assert Pow2(8) == 256;
    forall i | 0 <= i < 8 ensures next[i] == BitOf(bytes[read], i) {
      assert (8 * read + i) / 8 == read && (8 * read + i) % 8 == i;
    }
    ByteOfBits(bytes[read], next);
    HoldMore(acc, s, at, held, 8, bytes[read]);
    OpBounds(acc, Shl(bytes[read], held, 64), 64);
  }

  lemma {:induction false} ByteOfBits(b: Byte, bits: seq<bool>)
    requires |bits| == 8 && forall i :: 0 <= i < 8 ==> bits[i] == BitOf(b, i)
    ensures b == Val(bits)
  {
    assert Pow2(8) == 256;
    ValBound(bits);
    forall i | 0 <= i < 8 ensures BitOf(b, i) == BitOf(Val(bits), i) { BitOfVal(bits, i); }
    SameBits(b, Val(bits), 8);
  }

  /** Emit the next `n` bits of the accumulator as a cell. */
  lemma {:induction false} EmitCell(acc: nat, held: nat, read: nat, bytes: seq<Byte>, at: nat, n: nat)
    requires Pending(acc, held, read, bytes, at) && n <= held && n <= 32
    ensures at + n <= |Stream(bytes)|
    ensures Mask(n, 64) >= 0 && And(acc, Mask(n, 64), 64) == Val(Stream(bytes)[at..at + n])
    ensures Pending(Shr(acc, n), held - n, read, bytes, at + n)
  {
    MaskValue(n, 64);
    LowField(acc, Stream(bytes)[at..at + n]);
    HoldLess(acc, Stream(bytes), at, held, n);
  }

  /** Read bytes until `pb` bits are held or the bytes run out. */
  method Fill(bytes: seq<Byte>, pb: nat, acc0: nat, held0: nat, read0: nat, ghost at: nat)
      returns (acc: nat, held: nat, read: nat)
    requires pb <= 32 && Pending(acc0, held0, read0, bytes, at)
    ensures Pending(acc, held, read, bytes, at) && (held >= pb || read == |bytes|)
  {
    acc, held, read := acc0, held0, read0;
    while held < pb && read < |bytes|
      invariant Pending(acc, held, read, bytes, at)
    {
      TakeByte(acc, held, read, bytes, at);
      acc := Or(acc, Shl(bytes[read], held, 64), 64);
      held := held + 8;
      read := read + 1;
    }
  }

  /** The cells hold exactly the value's bits, with clear high bits. */
  method PackValueBytes(p: CuckooParams, bytes: seq<Byte>, cells: array<nat>)
    requires p.ValidSlots() && |bytes| == p.ValueSizeInBytes() && cells.Length == p.ValueSizeInCells()
    modifies cells
    ensures AreValueCells(cells[..], ValueBitsOf(bytes, p), p.plaintextBits)
    ensures ValueOfCells(cells[..], p) == ValueBitsOf(bytes, p)
  {
    if p.plaintextBits == 8 && p.valueBits % 8 == 0 {
      for i := 0 to cells.Length
        invariant forall k :: 0 <= k < i ==> cells[k] == bytes[k]
      {
        cells[i] := bytes[i];
      }
      WholeBytes(cells[..], bytes, p);
    } else {
      PackGeneral(p, bytes, cells);
    }
    CellsHoldValue(cells[..], ValueBitsOf(bytes, p), p);
  }

  /** When cells are bytes, copying is packing. */
  lemma {:induction false} WholeBytes(cells: seq<nat>, bytes: seq<Byte>, p: CuckooParams)
    requires p.ValidSlots() && p.plaintextBits == 8 && p.valueBits % 8 == 0
    requires |bytes| == p.ValueSizeInBytes() == |cells| && forall k :: 0 <= k < |cells| ==> cells[k] == bytes[k]
    ensures AreValueCells(cells, ValueBitsOf(bytes, p), 8)
  {
    assert Pow2(8) == 256;
    PayloadLength(cells, 8);
    BytesCover(p.valueBits);
    var flat := Flat(cells, 8);
    forall i | 0 <= i < |flat| ensures flat[i] == Stream(bytes)[i] {
      CellBit(cells, 8, i / 8, i % 8);
      assert Base(i / 8, 8) + i % 8 == i;
    }
  }

  lemma {:induction false} CellsHoldValue(cells: seq<nat>, value: seq<bool>, p: CuckooParams)
    requires p.ValidSlots() && |cells| == p.ValueSizeInCells() && |value| == p.valueBits
         && AreValueCells(cells, value, p.plaintextBits)
    ensures ValueOfCells(cells, p) == value
  {
    var v := ValueOfCells(cells, p);
    FlatLength(cells, p.plaintextBits);
    CellsCover(p.valueBits, p.plaintextBits);
    forall i | 0 <= i < p.valueBits ensures v[i] == value[i] { assert v[i] == Flat(cells, p.plaintextBits)[i]; }
  }

  method PackGeneral(p: CuckooParams, bytes: seq<Byte>, cells: array<nat>)
    requires p.ValidSlots() && |bytes| == p.ValueSizeInBytes() && cells.Length == p.ValueSizeInCells()
    modifies cells
    ensures AreValueCells(cells[..], ValueBitsOf(bytes, p), p.plaintextBits)
  {
    ghost var value := ValueBitsOf(bytes, p);
    var acc: nat, held: nat, read: nat := 0, 0, 0;
    ValueSpan(p);
    NothingHeld(Stream(bytes));
    hide Base, Min, DivCeil, ValueWidth;
    for i := 0 to cells.Length
      invariant Pending(acc, held, read, bytes, Min(p.valueBits, Base(i, p.plaintextBits)))
      invariant forall k :: 0 <= k < i ==> ChunkOf(cells[k], value, k, p)
    {
      acc, held, read := PackCell(p, bytes, cells, i, acc, held, read);
    }
    ChunksAreValue(cells[..], value, p);
  }

  method PackCell(p: CuckooParams, bytes: seq<Byte>, cells: array<nat>, i: nat, acc0: nat, held0: nat, read0: nat)
      returns (acc: nat, held: nat, read: nat)
    requires p.ValidSlots() && |bytes| == p.ValueSizeInBytes() && i < cells.Length == p.ValueSizeInCells()
    requires Pending(acc0, held0, read0, bytes, Min(p.valueBits, Base(i, p.plaintextBits)))
    modifies cells
    ensures Pending(acc, held, read, bytes, Min(p.valueBits, Base(i + 1, p.plaintextBits)))
    ensures ChunkOf(cells[i], ValueBitsOf(bytes, p), i, p)
    ensures forall k :: 0 <= k < cells.Length && k != i ==> cells[k] == old(cells[k])
  {
    ghost var at := Base(i, p.plaintextBits);
    CellsBefore(i, p);
    ValueWidthBounds(i, p);
    BytesCover(p.valueBits);
    WidthWithin(i, p);
    acc, held, read := Fill(bytes, p.plaintextBits, acc0, held0, read0, at);
    var n := ValueWidth(i, p);
    EnoughHeld(acc, held, read, bytes, at, n, p);
    hide *;
    EmitCell(acc, held, read, bytes, at, n);
    cells[i] := And(acc, Mask(n, 64), 64);
    acc := Shr(acc, n);
    held := held - n;
    MakeChunk(cells[i], bytes, i, p);
  }

  /** After filling, the accumulator holds the whole next cell. */
  lemma {:induction false} EnoughHeld(acc: nat, held: nat, read: nat, bytes: seq<Byte>, at: nat, n: nat,
                                      p: CuckooParams)
    requires p.ValidSlots() && |bytes| == p.ValueSizeInBytes() && Pending(acc, held, read, bytes, at)
    requires held >= p.plaintextBits || read == |bytes|
    requires n <= p.plaintextBits && at + n <= p.valueBits
    ensures n <= held
  {
    BytesCover(p.valueBits);
  }

  lemma {:induction false} MakeChunk(cell: nat, bytes: seq<Byte>, i: nat, p: CuckooParams)
    requires p.ValidSlots() && |bytes| == p.ValueSizeInBytes() && i < p.ValueSizeInCells()
    requires 0 <= ValueWidth(i, p) && Base(i, p.plaintextBits) + ValueWidth(i, p) <= |Stream(bytes)|
    requires cell == Val(Stream(bytes)[Base(i, p.plaintextBits)..Base(i, p.plaintextBits) + ValueWidth(i, p)])
    ensures ChunkOf(cell, ValueBitsOf(bytes, p), i, p)
  {
    WidthWithin(i, p);
    var at, n := Base(i, p.plaintextBits), ValueWidth(i, p);
    assert ValueBitsOf(bytes, p)[at..at + n] == Stream(bytes)[at..at + n];
  }

  // ---------- round trip ----------

  /** Bytes with no stray bits after the value. */
  ghost predicate CleanBytes(bytes: seq<Byte>, p: CuckooParams) {
    && |bytes| == p.ValueSizeInBytes()
    && forall i :: p.valueBits <= i < 8 * |bytes| ==> !Stream(bytes)[i]
  }

  /** Value bytes are determined by the bits they hold: clean bytes come back unchanged. */
  lemma {:induction false} ValueBytesUnique(bytes: seq<Byte>, out: seq<Byte>, p: CuckooParams)
    requires CleanBytes(bytes, p) && AreValueBytes(out, ValueBitsOf(bytes, p))
    ensures out == bytes
  {
    assert |out| == |bytes|;
    forall i | 0 <= i < 8 * |bytes| ensures Stream(out)[i] == Stream(bytes)[i] {
      if i < p.valueBits { assert ValueBitsOf(bytes, p)[i] == Stream(bytes)[i]; }
    }
    assert Stream(out) == Stream(bytes);
    StreamInjective(out, bytes);
  }

  /** Storing an entry and unpacking its slot returns the fingerprint and the very bytes stored. */
  method StoreAndRead(p: CuckooParams, fp: nat, bytes: seq<Byte>) returns (fp': nat, bytes': array<Byte>)
    requires p.ValidSlots() && fp < Pow2(p.fingerprintBits) && CleanBytes(bytes, p)
    ensures fp' == fp && bytes'[..] == bytes
  {
    var valueCells := new nat[p.ValueSizeInCells()](_ => 0);
    PackValueBytes(p, bytes, valueCells);
    var slot := new nat[p.CellsPerSlot()](_ => 0);
    PackSlotCells(p, fp, valueCells[..], slot);
    PackRoundTrip(fp, ValueBitsOf(bytes, p), p);
    fp', bytes' := UnpackSlotCells(p, slot);
    ValueBytesUnique(bytes, bytes'[..], p);
  }
}
