/** Rewriting the fingerprint and value of a packed slot.

    A write leaves the fill bits after the value alone.  A log of writes instead packs both entries
    with clear fill bits; the two agree on every cell exactly when the old entry was logged right. */
module SlotEdit {
  import opened Words
  import opened Geometry
  import opened Fields
  import opened CellBits
  import opened SlotCodec

  /** The stored bits of an entry. */
  function EntryBits(fp: nat, value: seq<bool>, p: CuckooParams): (r: seq<bool>)
    requires |value| == p.valueBits
    ensures |r| == p.fingerprintBits + p.valueBits
  {
    Bits(fp, p.fingerprintBits) + value
  }

  /** The cells of a slot hold this entry, whatever the fill bits are. */
  ghost predicate HoldsEntry(cells: seq<nat>, fp: nat, value: seq<bool>, p: CuckooParams)
    requires p.ValidSlots() && |cells| == p.CellsPerSlot() && |value| == p.valueBits
  {
    SlotHolds(cells, p);
    Flat(cells, p.plaintextBits)[..p.fingerprintBits + p.valueBits] == EntryBits(fp, value, p)
  }

  /** The bits of a slot after its entry. */
  function FillBits(cells: seq<nat>, p: CuckooParams): (r: seq<bool>)
    requires p.ValidSlots() && |cells| == p.CellsPerSlot()
    ensures |r| == Base(p.CellsPerSlot(), p.plaintextBits) - p.fingerprintBits - p.valueBits
  {
    SlotHolds(cells, p);
    Flat(cells, p.plaintextBits)[p.fingerprintBits + p.valueBits..]
  }

  /** The cells of a slot after writing an entry into it. */
  function Rewritten(cells: seq<nat>, fp: nat, value: seq<bool>, p: CuckooParams): (r: seq<nat>)
    requires p.ValidSlots() && |cells| == p.CellsPerSlot() && |value| == p.valueBits
    ensures |r| == p.CellsPerSlot() && Fit(r, p.plaintextBits)
    ensures Flat(r, p.plaintextBits) == EntryBits(fp, value, p) + FillBits(cells, p)
  {
    SlotHolds(cells, p);
    CellsRoundTrip(EntryBits(fp, value, p) + FillBits(cells, p), p.plaintextBits, p.CellsPerSlot());
    CellsOf(EntryBits(fp, value, p) + FillBits(cells, p), p.plaintextBits)
  }

  /** Cell `c` is the number its stretch of bits denotes. */
  lemma {:induction false} CellAt(bits: seq<bool>, pb: nat, n: nat, c: nat)
    requires pb > 0 && |bits| == Base(n, pb) && c < n
    ensures |CellsOf(bits, pb)| == n && Base(c, pb) + pb <= |bits|
    ensures CellsOf(bits, pb)[c] == Val(bits[Base(c, pb)..Base(c, pb) + pb])
  {
    CellsRoundTrip(bits, pb, n);
    var cells := CellsOf(bits, pb);
    FieldAt(cells, pb, c, []);
    assert Flat(cells, pb) + [] == bits;
    ValOfBits(cells[c], pb);
  }

  /** An entry and a fill contribute to each cell separately. */
  lemma {:induction false} FillAdds(entry: seq<bool>, fill: seq<bool>, pb: nat, n: nat, c: nat)
    requires pb > 0 && |entry| + |fill| == Base(n, pb) && c < n
    ensures var whole := CellsOf(entry + fill, pb);
            var e, f := CellsOf(entry + Clear(|fill|), pb), CellsOf(Clear(|entry|) + fill, pb);
            |whole| == |e| == |f| == n && whole[c] == e[c] + f[c]
  {
    var x, y, z := entry + Clear(|fill|), Clear(|entry|) + fill, entry + fill;
    CellAt(x, pb, n, c);
    CellAt(y, pb, n, c);
    CellAt(z, pb, n, c);
    var at: nat := Base(c, pb);
    hide Base, CellsOf, Val;
    var a, b, d := x[at..at + pb], y[at..at + pb], z[at..at + pb];
    forall i | 0 <= i < pb ensures d[i] == (a[i] || b[i]) && !(a[i] && b[i]) {
      assert a[i] == x[at + i] && b[i] == y[at + i] && d[i] == z[at + i];
    }
    ValDisjoint(a, b, d);
  }

  /** What the packed form of an entry and the fill bits make of each cell. */
  lemma {:induction false} EntryPlusFill(cells: seq<nat>, fp: nat, value: seq<bool>, p: CuckooParams, c: nat)
    requires p.ValidSlots() && |cells| == p.CellsPerSlot() && |value| == p.valueBits && c < p.CellsPerSlot()
    ensures |PackedCells(fp, value, p)| == p.CellsPerSlot()
    ensures Rewritten(cells, fp, value, p)[c] == PackedCells(fp, value, p)[c] + FillCell(cells, p, c)
  {
    var fill := FillBits(cells, p);
    FillAdds(EntryBits(fp, value, p), fill, p.plaintextBits, p.CellsPerSlot(), c);
    assert SlotPayload(fp, value, p) == EntryBits(fp, value, p) + Clear(|fill|);
  }

  /** What the fill bits of a slot contribute to cell `c`. */
  ghost function FillCell(cells: seq<nat>, p: CuckooParams, c: nat): nat
    requires p.ValidSlots() && |cells| == p.CellsPerSlot() && c < p.CellsPerSlot()
  {
    var bits := Clear(p.fingerprintBits + p.valueBits) + FillBits(cells, p);
    CellAt(bits, p.plaintextBits, p.CellsPerSlot(), c);
    CellsOf(bits, p.plaintextBits)[c]
  }

  /** A slot that holds an entry is the rewriting of itself with that entry, and conversely. */
  lemma {:induction false} HoldsIffRewritten(cells: seq<nat>, fp: nat, value: seq<bool>, p: CuckooParams)
    requires p.ValidSlots() && |cells| == p.CellsPerSlot() && Fit(cells, p.plaintextBits) && |value| == p.valueBits
    ensures HoldsEntry(cells, fp, value, p) <==> Rewritten(cells, fp, value, p) == cells
  {
    SlotHolds(cells, p);
    var n, flat, same := p.fingerprintBits + p.valueBits, Flat(cells, p.plaintextBits), Rewritten(cells, fp, value, p);
    assert flat == flat[..n] + flat[n..];
    if HoldsEntry(cells, fp, value, p) { FlatInjective(same, cells, p.plaintextBits); }
    if same == cells { assert flat[..n] == EntryBits(fp, value, p); }
  }

  /** Replacing an entry changes every cell by the difference of the packed entries if and only if
      the slot held the old one. */
  lemma {:induction false} ChangeIffHeld(cells: seq<nat>, fp0: nat, v0: seq<bool>, fp1: nat, v1: seq<bool>,
                                         p: CuckooParams)
    requires p.ValidSlots() && |cells| == p.CellsPerSlot() && Fit(cells, p.plaintextBits)
    requires |v0| == |v1| == p.valueBits
    ensures |PackedCells(fp0, v0, p)| == |PackedCells(fp1, v1, p)| == p.CellsPerSlot()
    ensures HoldsEntry(cells, fp0, v0, p)
       <==> forall c :: 0 <= c < p.CellsPerSlot() ==> ChangesBy(cells, fp0, v0, fp1, v1, p, c)
  {
    PackedLength(fp0, v0, p);
    PackedLength(fp1, v1, p);
    HoldsIffRewritten(cells, fp0, v0, p);
    var same := Rewritten(cells, fp0, v0, p);
    forall c | 0 <= c < p.CellsPerSlot() ensures ChangesBy(cells, fp0, v0, fp1, v1, p, c) <==> cells[c] == same[c] {
      EntryPlusFill(cells, fp0, v0, p, c);
      EntryPlusFill(cells, fp1, v1, p, c);
    }
    if forall c :: 0 <= c < p.CellsPerSlot() ==> ChangesBy(cells, fp0, v0, fp1, v1, p, c) {
      assert forall c :: 0 <= c < p.CellsPerSlot() ==> cells[c] == same[c];
      assert cells == same;
    }
  }

  lemma {:induction false} PackedLength(fp: nat, value: seq<bool>, p: CuckooParams)
    requires p.ValidSlots() && |value| == p.valueBits
    ensures |PackedCells(fp, value, p)| == p.CellsPerSlot() && Fit(PackedCells(fp, value, p), p.plaintextBits)
  {
    CellsRoundTrip(SlotPayload(fp, value, p), p.plaintextBits, p.CellsPerSlot());
  }

  /** Cell `c` changes by what the packed entries differ by. */
  ghost predicate ChangesBy(cells: seq<nat>, fp0: nat, v0: seq<bool>, fp1: nat, v1: seq<bool>, p: CuckooParams, c: nat)
    requires p.ValidSlots() && |cells| == p.CellsPerSlot() && c < p.CellsPerSlot()
    requires |v0| == |v1| == p.valueBits
  {
    PackedLength(fp0, v0, p);
    PackedLength(fp1, v1, p);
    Rewritten(cells, fp1, v1, p)[c] + PackedCells(fp0, v0, p)[c] == cells[c] + PackedCells(fp1, v1, p)[c]
  }
}
