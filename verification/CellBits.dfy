/** Bit fields over arrays of cells that carry `pb` payload bits each.

    The payload of a cell array is the bit string `Flat(cells, pb)`.  Fields may straddle any number
    of cells. */
module CellBits {
  import opened Words
  import opened Geometry
  import opened Hash
  import opened Window
  import opened Fields

  /** Payload position of cell `k`. */
  function Base(k: nat, pb: nat): nat { k * pb }

  /** Payload bit `i` of cell `k`. */
  lemma {:induction false} CellBit(cells: seq<nat>, pb: nat, k: nat, i: nat)
    requires k < |cells| && i < pb
    ensures Base(k, pb) + pb <= |Flat(cells, pb)|
    ensures Flat(cells, pb)[Base(k, pb) + i] == BitOf(cells[k], i)
  {
    FieldAt(cells, pb, k, []);
    assert Flat(cells, pb) + [] == Flat(cells, pb);
    BitsAt(cells[k], pb, i);
    assert Flat(cells, pb)[k * pb + i] == Flat(cells, pb)[k * pb..k * pb + pb][i];
  }

  lemma {:induction false} NoHighBit(v: nat, w: nat, i: nat)
    requires v < Pow2(w) && w <= i
    ensures !BitOf(v, i)
    decreases w
  {
    if w == 0 { BitOfZero(i); } else { NoHighBit(v / 2, w - 1, i - 1); }
  }

  /** The low `n` bits of a word whose low bits are known. */
  lemma {:induction false} LowField(acc: nat, bits: seq<bool>)
    requires |bits| <= 64 && forall i :: 0 <= i < |bits| ==> BitOf(acc, i) == bits[i]
    ensures And(acc, Pow2(|bits|) - 1, 64) == Val(bits)
  {
    var n := |bits|;
    MaskBound(acc, 64, n);
    ValBound(bits);
    forall i | 0 <= i < n ensures BitOf(And(acc, Pow2(n) - 1, 64), i) == BitOf(Val(bits), i) {
      OpBits(acc, Pow2(n) - 1, 64, i);
      MaskBit(n, i);
      BitOfVal(bits, i);
    }
    SameBits(And(acc, Pow2(n) - 1, 64), Val(bits), n);
  }

  /** `u64::MAX >> (64 - n)`. */
  function LowMask(n: nat): nat
    requires n <= 64
  {
    Shr(U64 - 1, 64 - n)
  }

  lemma {:induction false} LowMaskValue(n: nat)
    requires n <= 64
    ensures LowMask(n) == Pow2(n) - 1
  {
    PowersOfTwo();
    ShrOnes(64, 64 - n);
  }

  lemma {:induction false} ShrOnes(w: nat, s: nat)
    requires s <= w
    ensures Shr(Pow2(w) - 1, s) == Pow2(w - s) - 1
    decreases s
  {
    if s > 0 {
      assert (Pow2(w) - 1) / 2 == Pow2(w - 1) - 1;
      ShrOnes(w - 1, s - 1);
    }
  }

  /** `acc` holds the bits of `s` from `off` on, `filled` of them, as far as a u64 reaches. */
  ghost predicate Gathered(acc: nat, s: seq<bool>, off: nat, filled: nat) {
    && off + filled <= |s|
    && forall i :: 0 <= i < 64 ==> BitOf(acc, i) == (i < filled && s[off + i])
  }

  lemma {:induction false} GatherFirst(cells: seq<nat>, pb: nat, k: nat, intra: nat)
    requires k < |cells| && intra < pb && Fit(cells, pb)
    ensures Gathered(Shr(cells[k], intra), Flat(cells, pb), Base(k, pb) + intra, pb - intra)
  {
    CellBit(cells, pb, k, 0);
    forall i | 0 <= i < 64
      ensures BitOf(Shr(cells[k], intra), i) == (i < pb - intra && Flat(cells, pb)[Base(k, pb) + intra + i])
    {
      ShrBits(cells[k], intra, i);
      if i < pb - intra { CellBit(cells, pb, k, intra + i); } else { NoHighBit(cells[k], pb, intra + i); }
    }
  }

  lemma {:induction false} GatherNext(cells: seq<nat>, pb: nat, k: nat, acc: nat, off: nat, filled: nat)
    requires k < |cells| && Fit(cells, pb) && off + filled == Base(k, pb) && filled < 64 && pb > 0
    requires Gathered(acc, Flat(cells, pb), off, filled)
    ensures Gathered(Or(acc, Shl(cells[k], filled, 64), 64), Flat(cells, pb), off, filled + pb)
  {
    CellBit(cells, pb, k, 0);
    var v := Shl(cells[k], filled, 64);
    forall i | 0 <= i < 64
      ensures BitOf(Or(acc, v, 64), i) == (i < filled + pb && Flat(cells, pb)[off + i])
    {
      OpBits(acc, v, 64, i);
      ShlBits(cells[k], filled, 64, i);
      if i >= filled {
        if i < filled + pb { CellBit(cells, pb, k, i - filled); } else { NoHighBit(cells[k], pb, i - filled); }
      }
    }
  }

  lemma {:induction false} BaseNext(k: nat, pb: nat)
    ensures Base(k + 1, pb) == Base(k, pb) + pb
  {
  }

  lemma {:induction false} DivBase(off: nat, pb: nat)
    requires pb > 0
    ensures 0 <= off / pb && off == Base(off / pb, pb) + off % pb && 0 <= off % pb < pb
  {
  }

  lemma {:induction false} PayloadLength(cells: seq<nat>, pb: nat)
    ensures |Flat(cells, pb)| == Base(|cells|, pb)
  {
    FlatLength(cells, pb);
  }

  /** Read the `n`-bit field at payload position `off`. */
  method ReadBits(cells: array<nat>, pb: nat, off: nat, n: nat) returns (r: nat)
    requires 1 <= pb <= 32 && 1 <= n <= 64 && Fit(cells[..], pb)
    requires off + n <= |Flat(cells[..], pb)|
    ensures r == Val(Flat(cells[..], pb)[off..off + n])
  {
    ghost var s := Flat(cells[..], pb);
    hide Base;
    PayloadLength(cells[..], pb);
    DivBase(off, pb);
    var cellIdx := off / pb;
    var intra := off % pb;
    CellExists(cellIdx, off, pb, cells.Length);
    GatherFirst(cells[..], pb, cellIdx, intra);
    var acc := Shr(cells[cellIdx], intra);
    var filled := pb - intra;
    BaseNext(cellIdx, pb);
    cellIdx := cellIdx + 1;
    while filled < n
      invariant off + filled == Base(cellIdx, pb)
      invariant Gathered(acc, s, off, filled)
    {
      CellExists(cellIdx, off + filled, pb, cells.Length);
      GatherNext(cells[..], pb, cellIdx, acc, off, filled);
      acc := Or(acc, Shl(cells[cellIdx], filled, 64), 64);
      filled := filled + pb;
      BaseNext(cellIdx, pb);
      cellIdx := cellIdx + 1;
    }
    LowMaskValue(n);
    LowField(acc, s[off..off + n]);
    r := And(acc, LowMask(n), 64);
  }

  lemma {:induction false} CellExists(k: nat, pos: nat, pb: nat, length: nat)
    requires pb > 0 && Base(k, pb) <= pos < Base(length, pb)
    ensures k < length
  {
    if k >= length { MulMonotone(pb, length, k); }
  }

  // ---------- writing ----------

  /** A cell with bits `lo` to `lo + n` replaced by the low bits of `field`. */
  function PlaceInCell(cell: nat, field: nat, lo: nat, n: nat): nat
    requires Mask(n, 64) >= 0
  {
    var mask := Mask(n, 64);
    var placed := Shl(And(field, mask, 32), lo, 32);
    var cellMask := Shl(mask, lo, 32);
    Or(And(cell, Not(cellMask, 32), 32), placed, 32)
  }

  lemma {:induction false} PlaceBits(cell: nat, field: nat, lo: nat, n: nat, i: nat)
    requires lo + n <= 32 && i < 32
    ensures Mask(n, 64) >= 0
    ensures BitOf(PlaceInCell(cell, field, lo, n), i)
         == (if lo <= i < lo + n then BitOf(field, i - lo) else BitOf(cell, i))
  {
    MaskValue(n, 64);
    ClearedBit(cell, lo, n, i);
    ShiftedBit(field, lo, n, i);
    var m := Pow2(n) - 1;
    OpBits(And(cell, Not(Shl(m, lo, 32), 32), 32), Shl(And(field, m, 32), lo, 32), 32, i);
  }

  lemma {:induction false} ClearedBit(cell: nat, lo: nat, n: nat, i: nat)
    requires i < 32
    ensures BitOf(And(cell, Not(Shl(Pow2(n) - 1, lo, 32), 32), 32), i) == (BitOf(cell, i) && !(lo <= i < lo + n))
  {
    var cellMask := Shl(Pow2(n) - 1, lo, 32);
    OpBits(cell, Not(cellMask, 32), 32, i);
    OpBits(cellMask, 0, 32, i);
    ShlBits(Pow2(n) - 1, lo, 32, i);
    if lo <= i { MaskBit(n, i - lo); }
  }

  lemma {:induction false} ShiftedBit(field: nat, lo: nat, n: nat, i: nat)
    requires i < 32
    ensures BitOf(Shl(And(field, Pow2(n) - 1, 32), lo, 32), i) == (lo <= i < lo + n && BitOf(field, i - lo))
  {
    ShlBits(And(field, Pow2(n) - 1, 32), lo, 32, i);
    if lo <= i {
      MaskBit(n, i - lo);
      OpBits(field, Pow2(n) - 1, 32, i - lo);
    }
  }

  lemma {:induction false} PlaceFits(cell: nat, field: nat, lo: nat, n: nat, pb: nat)
    requires lo + n <= pb <= 32 && cell < Pow2(pb)
    ensures Mask(n, 64) >= 0
    ensures PlaceInCell(cell, field, lo, n) < Pow2(pb)
  {
    MaskValue(n, 64);
    var c := PlaceInCell(cell, field, lo, n);
    OpBounds(And(cell, Not(Shl(Pow2(n) - 1, lo, 32), 32), 32), Shl(And(field, Pow2(n) - 1, 32), lo, 32), 32);
    forall i | pb <= i < 32 ensures !BitOf(c, i) {
      PlaceBits(cell, field, lo, n, i);
      NoHighBit(cell, pb, i);
    }
    HighBitsClear(c, 32, pb);
  }

  /** `before` with the first `j` bits of `value` written at `off`. */
  ghost function Written(before: seq<bool>, value: nat, n: nat, off: nat, j: nat): (r: seq<bool>)
    requires j <= n && off + n <= |before|
    ensures |r| == |before|
  {
    before[..off] + Bits(value, n)[..j] + before[off + j..]
  }

  /** Replacing bits `lo` to `lo + n'` of cell `k` writes the next `n'` bits of the value. */
  lemma {:induction false} WriteNext(cells: seq<nat>, pb: nat, k: nat, before: seq<bool>, value: nat, n: nat, off: nat,
                                     j: nat, lo: nat, m: nat)
    requires 1 <= pb <= 32 && k < |cells| && Fit(cells, pb) && off + n <= |before|
    requires j + m <= n && lo + m <= pb && off + j == Base(k, pb) + lo
    requires Flat(cells, pb) == Written(before, value, n, off, j)
    ensures Mask(m, 64) >= 0
    ensures var cells': seq<nat> := cells[k := PlaceInCell(cells[k], Shr(value, j), lo, m)];
            Fit(cells', pb) && Flat(cells', pb) == Written(before, value, n, off, j + m)
  {
    PlaceFits(cells[k], Shr(value, j), lo, m, pb);
    var c: nat := PlaceInCell(cells[k], Shr(value, j), lo, m);
    var now := Flat(cells[k := c], pb);
    CellReplaced(cells, pb, k, c);
    hide *;
    assert |now| == |before|;
    forall i | 0 <= i < |before| ensures now[i] == Written(before, value, n, off, j + m)[i] {
      WriteNextBit(cells, pb, k, before, value, n, off, j, lo, m, c, i);
    }
  }

  lemma {:induction false} WriteNextBit(cells: seq<nat>, pb: nat, k: nat, before: seq<bool>, value: nat, n: nat,
                                        off: nat, j: nat, lo: nat, m: nat, c: nat, i: nat)
    requires 1 <= pb <= 32 && k < |cells| && off + n <= |before| && i < |before|
    requires j + m <= n && lo + m <= pb && off + j == Base(k, pb) + lo
    requires Mask(m, 64) >= 0 && c == PlaceInCell(cells[k], Shr(value, j), lo, m)
    requires Flat(cells, pb) == Written(before, value, n, off, j)
    ensures |Flat(cells[k := c], pb)| == |before|
    ensures Flat(cells[k := c], pb)[i] == Written(before, value, n, off, j + m)[i]
  {
    CellReplaced(cells, pb, k, c);
    hide *;
    if Base(k, pb) <= i < Base(k, pb) + pb {
      BitInCell(cells, pb, k, before, value, n, off, j, lo, m, c, i);
    } else {
      BitOutsideCell(cells, pb, k, before, value, n, off, j, lo, m, c, i);
    }
  }

  lemma {:induction false} BitInCell(cells: seq<nat>, pb: nat, k: nat, before: seq<bool>, value: nat, n: nat,
                                     off: nat, j: nat, lo: nat, m: nat, c: nat, i: nat)
    requires 1 <= pb <= 32 && k < |cells| && off + n <= |before| && i < |before|
    requires j + m <= n && lo + m <= pb && off + j == Base(k, pb) + lo
    requires Mask(m, 64) >= 0 && c == PlaceInCell(cells[k], Shr(value, j), lo, m)
    requires Flat(cells, pb) == Written(before, value, n, off, j)
    requires Base(k, pb) <= i < Base(k, pb) + pb
    ensures |Flat(cells[k := c], pb)| == |before|
    ensures Flat(cells[k := c], pb)[i] == Written(before, value, n, off, j + m)[i]
  {
    var at: nat := Base(k, pb);
    hide *;
    CellReplaced(cells, pb, k, c);
    WrittenBit(before, value, n, off, j, i);
    WrittenBit(before, value, n, off, j + m, i);
    ReplacedInside(cells, pb, k, c, i);
    PlacedBit(cells[k], value, j, lo, m, at, off, before[i], i);
  }

  lemma {:induction false} BitOutsideCell(cells: seq<nat>, pb: nat, k: nat, before: seq<bool>, value: nat, n: nat,
                                          off: nat, j: nat, lo: nat, m: nat, c: nat, i: nat)
    requires 1 <= pb <= 32 && k < |cells| && off + n <= |before| && i < |before|
    requires j + m <= n && lo + m <= pb && off + j == Base(k, pb) + lo
    requires Mask(m, 64) >= 0 && c == PlaceInCell(cells[k], Shr(value, j), lo, m)
    requires Flat(cells, pb) == Written(before, value, n, off, j)
    requires !(Base(k, pb) <= i < Base(k, pb) + pb)
    ensures |Flat(cells[k := c], pb)| == |before|
    ensures Flat(cells[k := c], pb)[i] == Written(before, value, n, off, j + m)[i]
  {
    var at: nat := Base(k, pb);
    hide *;
    CellReplaced(cells, pb, k, c);
    WrittenBit(before, value, n, off, j, i);
    WrittenBit(before, value, n, off, j + m, i);
    ReplacedOutside(Flat(cells, pb), Flat(cells[k := c], pb), at, pb, c, i);
  }

  /** Replacing a cell replaces its stretch of the payload. */
  lemma {:induction false} CellReplaced(cells: seq<nat>, pb: nat, k: nat, c: nat)
    requires k < |cells|
    ensures var was, now, at := Flat(cells, pb), Flat(cells[k := c], pb), Base(k, pb);
            at + pb <= |was| && now == was[..at] + Bits(c, pb) + was[at + pb..]
  {
    var cells': seq<nat> := cells[k := c];
    SetField(cells, pb, k, c, []);
    assert Flat(cells, pb) + [] == Flat(cells, pb) && Flat(cells', pb) + [] == Flat(cells', pb);
  }

  lemma {:induction false} ReplacedInside(cells: seq<nat>, pb: nat, k: nat, c: nat, i: nat)
    requires k < |cells| && Base(k, pb) <= i < Base(k, pb) + pb
    ensures i < |Flat(cells, pb)| && i < |Flat(cells[k := c], pb)|
    ensures Flat(cells, pb)[i] == BitOf(cells[k], i - Base(k, pb))
    ensures Flat(cells[k := c], pb)[i] == BitOf(c, i - Base(k, pb))
  {
    CellBit(cells, pb, k, i - Base(k, pb));
    CellBit(cells[k := c], pb, k, i - Base(k, pb));
  }

  lemma {:induction false} ReplacedOutside(was: seq<bool>, now: seq<bool>, at: nat, pb: nat, c: nat, i: nat)
    requires at + pb <= |was| && now == was[..at] + Bits(c, pb) + was[at + pb..]
    requires i < |was| && !(at <= i < at + pb)
    ensures now[i] == was[i]
  {
  }

  lemma {:induction false} PlacedBit(cell: nat, value: nat, j: nat, lo: nat, m: nat, at: nat, off: nat, was: bool,
                                     i: nat)
    requires lo + m <= 32 && off + j == at + lo && at <= i < at + 32
    requires BitOf(cell, i - at) == (if off <= i < off + j then BitOf(value, i - off) else was)
    ensures Mask(m, 64) >= 0
    ensures BitOf(PlaceInCell(cell, Shr(value, j), lo, m), i - at)
         == (if off <= i < off + j + m then BitOf(value, i - off) else was)
  {
    PlaceBits(cell, Shr(value, j), lo, m, i - at);
    if lo <= i - at < lo + m { ShrBits(value, j, i - at - lo); }
  }

  lemma {:induction false} WrittenBit(before: seq<bool>, value: nat, n: nat, off: nat, j: nat, i: nat)
    requires j <= n && off + n <= |before| && i < |before|
    ensures Written(before, value, n, off, j)[i] == (if off <= i < off + j then BitOf(value, i - off) else before[i])
  {
    if off <= i < off + j { BitsAt(value, n, i - off); }
  }

  function Min(a: int, b: int): int { if a < b then a else b }

  /** Replace the `n`-bit field at payload position `off`, and nothing else. */
  method WriteBits(cells: array<nat>, pb: nat, off: nat, n: nat, value: nat)
    requires 1 <= pb <= 32 && 1 <= n <= 64 && Fit(cells[..], pb)
    requires off + n <= |Flat(cells[..], pb)|
    modifies cells
    ensures Fit(cells[..], pb)
    ensures Spliced(old(Flat(cells[..], pb)), Flat(cells[..], pb), off, Bits(value, n))
  {
    hide Base, DivCeil;
    ghost var before := Flat(cells[..], pb);
    PayloadLength(cells[..], pb);
    DivBase(off, pb);
    var firstCell: nat, lastCell: nat := off / pb, DivCeil(off + n, pb);
    CellSpan(off, n, pb, cells.Length);
    var pos: nat := 0;
    for cellIdx := firstCell to lastCell
      invariant pos <= n && pos == (if cellIdx == firstCell then 0 else Min(off + n, Base(cellIdx, pb)) - off)
      invariant Fit(cells[..], pb) && Flat(cells[..], pb) == Written(before, value, n, off, pos)
    {
      SpanAt(off, n, pb, cellIdx);
      pos := WriteCell(cells, pb, off, n, value, cellIdx, pos, before);
    }
    assert Bits(value, n)[..n] == Bits(value, n);
  }

  /** The part of the field that lies in one cell. */
  method WriteCell(cells: array<nat>, pb: nat, off: nat, n: nat, value: nat, cellIdx: nat, pos: nat,
                   ghost before: seq<bool>)
      returns (next: nat)
    requires 1 <= pb <= 32 && pos < n <= 64 && Fit(cells[..], pb)
    requires cellIdx < cells.Length && Base(cellIdx, pb) < off + n && off < Base(cellIdx, pb) + pb
    requires pos == (if off > Base(cellIdx, pb) then 0 else Base(cellIdx, pb) - off)
    requires off + n <= |before| && Flat(cells[..], pb) == Written(before, value, n, off, pos)
    modifies cells
    ensures Fit(cells[..], pb) && next <= n && next == Min(off + n, Base(cellIdx + 1, pb)) - off
    ensures Flat(cells[..], pb) == Written(before, value, n, off, next)
  {
    BaseNext(cellIdx, pb);
    var base: nat := Base(cellIdx, pb);
    hide Base, PlaceInCell, Mask, Flat, Written, Fit;
    var lo := if off > base then off - base else 0;
    var hi := Min(off + n, base + pb) - base;
    var m := hi - lo;
    WriteNext(cells[..], pb, cellIdx, before, value, n, off, pos, lo, m);
    ghost var updated: seq<nat> := cells[..][cellIdx := PlaceInCell(cells[cellIdx], Shr(value, pos), lo, m)];
    cells[cellIdx] := PlaceInCell(cells[cellIdx], Shr(value, pos), lo, m);
    assert cells[..] == updated;
    next := pos + m;
  }

  /** The cells a field touches exist. */
  lemma {:induction false} CellSpan(off: nat, n: nat, pb: nat, length: nat)
    requires pb > 0 && n > 0 && off + n <= Base(length, pb)
    ensures off / pb < DivCeil(off + n, pb) <= length
    ensures off + n <= Base(DivCeil(off + n, pb), pb)
  {
    var f, l := off / pb, DivCeil(off + n, pb);
    assert off == pb * f + off % pb;
    DivCeilBounds(off + n, pb);
    if l > length { MulMonotone(pb, length + 1, l); }
    if f >= l { MulMonotone(pb, l, f); }
  }

  /** Cell `k` of the span overlaps the field. */
  lemma {:induction false} SpanAt(off: nat, n: nat, pb: nat, k: nat)
    requires pb > 0 && n > 0 && off / pb <= k < DivCeil(off + n, pb)
    ensures Base(k, pb) < off + n && off < Base(k, pb) + pb
    ensures k > off / pb ==> off < Base(k, pb)
    ensures k == off / pb ==> Base(k, pb) <= off
  {
    var f, l := off / pb, DivCeil(off + n, pb);
    assert off == pb * f + off % pb;
    DivCeilBounds(off + n, pb);
    MulMonotone(pb, k + 1, l);
    MulMonotone(pb, f, k);
    if k > f { MulMonotone(pb, f + 1, k); }
  }
}
