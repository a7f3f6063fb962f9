/** Scanning recovered rows for a fingerprint: what a client makes of the cells it decoded. */
module Lookup {
  import opened Words
  import opened Geometry
  import opened Hash
  import opened Fields
  import opened CellBits
  import opened SlotCodec

  // ---------- equality mask ----------

  /** `0 - x` on a u64. */
  function WrappingNeg(x: nat): nat
    requires x < U64
  {
    if x == 0 then 0 else U64 - x
  }

  /** All ones if the arguments are equal, else zero, without a branch on them. */
  function CtEqMask(a: nat, b: nat): (r: nat)
    requires a < U64 && b < U64
    ensures r == if a == b then U64 - 1 else 0
  {
    CtEqCorrect(a, b);
    var x := Xor(a, b, 64);
    (Shr(Or(x, WrappingNeg(x), 64), 63) + (U64 - 1)) % U64
  }

  lemma {:induction false} TopBit(v: nat)
    requires v < U64
    ensures Shr(v, 63) == (if v >= 0x8000_0000_0000_0000 then 1 else 0)
    ensures BitOf(v, 63) == (v >= 0x8000_0000_0000_0000)
  {
    PowersOfTwo();
    assert Pow2(64) == 2 * Pow2(63);
    ShrIsDiv(v, 63);
    ShrBit(v, 63);
    if v >= Pow2(63) { DivModUnique(v, Pow2(63), 1, v - Pow2(63)); } else { DivModUnique(v, Pow2(63), 0, v); }
  }

  lemma {:induction false} CtEqCorrect(a: nat, b: nat)
    requires a < U64 && b < U64
    ensures Xor(a, b, 64) < U64
    ensures var x := Xor(a, b, 64);
            (Shr(Or(x, WrappingNeg(x), 64), 63) + (U64 - 1)) % U64 == if a == b then U64 - 1 else 0
  {
    PowersOfTwo();
    OpBounds(a, b, 64);
    var x := Xor(a, b, 64);
    var y := Or(x, WrappingNeg(x), 64);
    OpBounds(x, WrappingNeg(x), 64);
    XorIsZero(a, b);
    OpBits(x, WrappingNeg(x), 64, 63);
    TopBit(x);
    TopBit(WrappingNeg(x));
    TopBit(y);
  }

  lemma {:induction false} XorIsZero(a: nat, b: nat)
    requires a < U64 && b < U64
    ensures Xor(a, b, 64) == 0 <==> a == b
  {
    PowersOfTwo();
    var x := Xor(a, b, 64);
    OpBounds(a, b, 64);
    if x == 0 {
      forall i | 0 <= i < 64 ensures BitOf(a, i) == BitOf(b, i) { OpBits(a, b, 64, i); BitOfZero(i); }
      SameBits(a, b, 64);
    }
    if a == b {
      forall i | 0 <= i < 64 ensures BitOf(x, i) == BitOf(0, i) { OpBits(a, b, 64, i); BitOfZero(i); }
      SameBits(x, 0, 64);
    }
  }

  // ---------- what a scan finds ----------

  /** The cells of slot `s` of a row. */
  function SlotCells(row: seq<nat>, s: nat, p: CuckooParams): (r: seq<nat>)
    requires p.Legal() && |row| == p.RowWidth() && s < p.bucketSize
    ensures |r| == p.CellsPerSlot()
  {
    MulMonotone(p.CellsPerSlot(), s + 1, p.bucketSize);
    row[Base(s, p.CellsPerSlot())..Base(s, p.CellsPerSlot()) + p.CellsPerSlot()]
  }

  /** Rows as the scan sees them: full width, cells in range. */
  ghost predicate RowsOk(rows: seq<seq<nat>>, p: CuckooParams)
    requires p.Legal()
  {
    forall j :: 0 <= j < |rows| ==> |rows[j]| == p.RowWidth() && Fit(rows[j], p.plaintextBits)
  }

  function SlotFingerprint(row: seq<nat>, s: nat, p: CuckooParams): nat
    requires p.Legal() && |row| == p.RowWidth() && s < p.bucketSize
  {
    SlotHolds(SlotCells(row, s, p), p);
    FingerprintOf(SlotCells(row, s, p), p)
  }

  function SlotValue(row: seq<nat>, s: nat, p: CuckooParams): (r: seq<bool>)
    requires p.Legal() && |row| == p.RowWidth() && s < p.bucketSize
    ensures |r| == p.valueBits
  {
    SlotHolds(SlotCells(row, s, p), p);
    ValueOf(SlotCells(row, s, p), p)
  }

  /** Slot `s` of row `j` holds the fingerprint. */
  ghost predicate Matches(rows: seq<seq<nat>>, j: nat, s: nat, fp: nat, p: CuckooParams)
    requires p.Legal() && RowsOk(rows, p)
  {
    j < |rows| && s < p.bucketSize && SlotFingerprint(rows[j], s, p) == fp
  }

  /** A matching slot whose value bit `i` is set. */
  ghost predicate HasBit(rows: seq<seq<nat>>, j: nat, s: nat, fp: nat, p: CuckooParams, i: nat)
    requires p.Legal() && RowsOk(rows, p)
  {
    Matches(rows, j, s, fp, p) && i < p.valueBits && SlotValue(rows[j], s, p)[i]
  }

  /** Value bit `i` of some matching slot is set. */
  ghost predicate SomeMatchHasBit(rows: seq<seq<nat>>, fp: nat, p: CuckooParams, i: nat)
    requires p.Legal() && RowsOk(rows, p)
  {
    exists j, s :: HasBit(rows, j, s, fp, p, i)
  }

  /** The result of a look-up: nothing if no slot matches, else the OR of the matching values. */
  ghost predicate IsLookup(res: Option<seq<Byte>>, rows: seq<seq<nat>>, fp: nat, p: CuckooParams)
    requires p.Legal() && RowsOk(rows, p)
  {
    && (res.Some? <==> exists j, s :: Matches(rows, j, s, fp, p))
    && (res.Some? ==> IsOrOfMatches(res.value, rows, fp, p))
  }

  ghost predicate IsOrOfMatches(bytes: seq<Byte>, rows: seq<seq<nat>>, fp: nat, p: CuckooParams)
    requires p.Legal() && RowsOk(rows, p)
  {
    && |bytes| == p.ValueSizeInBytes()
    && forall i :: 0 <= i < 8 * |bytes| ==> Stream(bytes)[i] == SomeMatchHasBit(rows, fp, p, i)
  }

  /** There is one result: any two scans of the same rows agree. */
  lemma {:induction false} LookupUnique(a: Option<seq<Byte>>, b: Option<seq<Byte>>, rows: seq<seq<nat>>, fp: nat,
                                        p: CuckooParams)
    requires p.Legal() && RowsOk(rows, p) && IsLookup(a, rows, fp, p) && IsLookup(b, rows, fp, p)
    ensures a == b
  {
    if a.Some? {
      assert Stream(a.value) == Stream(b.value);
      StreamInjective(a.value, b.value);
    }
  }

  /** With a single matching slot the result is that slot's value. */
  lemma {:induction false} SingleMatch(res: Option<seq<Byte>>, rows: seq<seq<nat>>, j: nat, s: nat, fp: nat,
                                       p: CuckooParams)
    requires p.Legal() && RowsOk(rows, p) && IsLookup(res, rows, fp, p) && Matches(rows, j, s, fp, p)
    requires forall j', s' :: Matches(rows, j', s', fp, p) ==> j' == j && s' == s
    ensures res.Some? && AreValueBytes(res.value, SlotValue(rows[j], s, p))
  {
    var bytes, value := res.value, SlotValue(rows[j], s, p);
    hide SlotValue, RowsOk, SlotFingerprint, DivCeil;
    forall i | 0 <= i < 8 * |bytes| ensures Stream(bytes)[i] == (i < |value| && value[i]) {
      OnlyMatch(rows, j, s, fp, p, i);
    }
  }

  lemma {:induction false} OnlyMatch(rows: seq<seq<nat>>, j: nat, s: nat, fp: nat, p: CuckooParams, i: nat)
    requires p.Legal() && RowsOk(rows, p) && Matches(rows, j, s, fp, p)
    requires forall j', s' :: Matches(rows, j', s', fp, p) ==> j' == j && s' == s
    ensures SomeMatchHasBit(rows, fp, p, i) == (i < p.valueBits && SlotValue(rows[j], s, p)[i])
  {
    assert HasBit(rows, j, s, fp, p, i) == (i < p.valueBits && SlotValue(rows[j], s, p)[i]);
  }

  // ---------- the scan ----------

  /** Progress of a scan: everything before slot `s` of row `j` has been taken into account. */
  ghost predicate Seen(j': nat, s': nat, j: nat, s: nat) { j' < j || (j' == j && s' < s) }

  ghost predicate Scanned(acc: seq<Byte>, found: nat, rows: seq<seq<nat>>, fp: nat, p: CuckooParams, j: nat, s: nat)
    requires p.Legal() && RowsOk(rows, p)
  {
    && |acc| == p.ValueSizeInBytes()
    && found < U64
    && (found != 0 <==> exists j', s' :: Matches(rows, j', s', fp, p) && Seen(j', s', j, s))
    && forall i :: 0 <= i < 8 * |acc| ==> (Stream(acc)[i] <==>
         exists j', s' :: HasBit(rows, j', s', fp, p, i) && Seen(j', s', j, s))
  }

  /** `*a |= mask & *v` over the value bytes. */
  method OrMasked(acc: array<Byte>, mask: nat, value: seq<Byte>)
    requires acc.Length == |value| && (mask == 0 || mask == 255)
    modifies acc
    ensures forall i :: 0 <= i < 8 * acc.Length ==>
              Stream(acc[..])[i] == (old(Stream(acc[..])[i]) || (mask == 255 && Stream(value)[i]))
  {
    for k := 0 to acc.Length
      invariant forall i :: 0 <= i < 8 * k ==>
                  Stream(acc[..])[i] == (old(Stream(acc[..])[i]) || (mask == 255 && Stream(value)[i]))
      invariant forall m :: k <= m < acc.Length ==> acc[m] == old(acc[m])
    {
      var b := Or(acc[k], And(mask, value[k], 8), 8);
      ghost var before, was := acc[..], acc[k];
      OpBounds(acc[k], And(mask, value[k], 8), 8);
      assert Pow2(8) == 256;
      acc[k] := b;
      forall i | 0 <= i < 8 * (k + 1)
        ensures Stream(acc[..])[i] == (old(Stream(acc[..])[i]) || (mask == 255 && Stream(value)[i]))
      {
        if i < 8 * k {
          assert Stream(acc[..])[i] == Stream(before)[i];
        } else {
          assert i / 8 == k;
          OrMaskedBit(was, mask, value[k], i % 8);
        }
      }
    }
  }

  lemma {:induction false} OrMaskedBit(a: Byte, mask: nat, v: Byte, k: nat)
    requires k < 8 && (mask == 0 || mask == 255)
    ensures BitOf(Or(a, And(mask, v, 8), 8), k) == (BitOf(a, k) || (mask == 255 && BitOf(v, k)))
  {
    OpBits(a, And(mask, v, 8), 8, k);
    OpBits(mask, v, 8, k);
    assert Pow2(8) == 256;
    if mask == 255 { MaskBit(8, k); } else { BitOfZero(k); }
  }

  /** The masked OR of one slot extends the scan by that slot. */
  lemma {:induction false} ScanStep(acc: seq<Byte>, acc': seq<Byte>, found: nat, mask: nat, value: seq<Byte>,
                                    rows: seq<seq<nat>>, fp: nat, p: CuckooParams, j: nat, s: nat)
    requires p.Legal() && RowsOk(rows, p) && j < |rows| && s < p.bucketSize
    requires Scanned(acc, found, rows, fp, p, j, s)
    requires mask == if Matches(rows, j, s, fp, p) then U64 - 1 else 0
    requires AreValueBytes(value, SlotValue(rows[j], s, p))
    requires |acc'| == |acc| == |value|
    requires forall i :: 0 <= i < 8 * |acc| ==> Stream(acc')[i] == (Stream(acc)[i] || (mask != 0 && Stream(value)[i]))
    ensures Scanned(acc', Or(found, mask, 64), rows, fp, p, j, s + 1)
  {
    OrNonZero(found, mask);
    var found' := Or(found, mask, 64);
    hide Scanned;
    assert FoundSlot(rows, fp, p, j, s) == (mask != 0);
    FoundStep(rows, fp, p, j, s, found, found', acc);
    forall i | 0 <= i < 8 * |acc'|
      ensures Stream(acc')[i] <==> exists j', s' :: HasBit(rows, j', s', fp, p, i) && Seen(j', s', j, s + 1)
    {
      BitStep(acc, found, rows, fp, p, j, s, i);
      assert Stream(value)[i] == (i < p.valueBits && SlotValue(rows[j], s, p)[i]);
    }
    MakeScanned(acc', found', rows, fp, p, j, s + 1);
  }

  ghost predicate FoundSlot(rows: seq<seq<nat>>, fp: nat, p: CuckooParams, j: nat, s: nat)
    requires p.Legal() && RowsOk(rows, p)
  {
    Matches(rows, j, s, fp, p)
  }

  lemma {:induction false} MakeScanned(acc: seq<Byte>, found: nat, rows: seq<seq<nat>>, fp: nat, p: CuckooParams,
                                       j: nat, s: nat)
    requires p.Legal() && RowsOk(rows, p) && |acc| == p.ValueSizeInBytes() && found < U64
    requires found != 0 <==> exists j', s' :: Matches(rows, j', s', fp, p) && Seen(j', s', j, s)
    requires forall i :: 0 <= i < 8 * |acc| ==>
               (Stream(acc)[i] <==> exists j', s' :: HasBit(rows, j', s', fp, p, i) && Seen(j', s', j, s))
    ensures Scanned(acc, found, rows, fp, p, j, s)
  {
  }

  lemma {:induction false} FoundStep(rows: seq<seq<nat>>, fp: nat, p: CuckooParams, j: nat, s: nat, found: nat,
                                     found': nat, acc: seq<Byte>)
    requires p.Legal() && RowsOk(rows, p) && Scanned(acc, found, rows, fp, p, j, s)
    requires found' != 0 <==> found != 0 || FoundSlot(rows, fp, p, j, s)
    ensures found' != 0 <==> exists j', s' :: Matches(rows, j', s', fp, p) && Seen(j', s', j, s + 1)
  {
    if j', s' :| Matches(rows, j', s', fp, p) && Seen(j', s', j, s + 1) {
      assert Seen(j', s', j, s) || (j' == j && s' == s);
    }
    if found != 0 {
      var j', s' :| Matches(rows, j', s', fp, p) && Seen(j', s', j, s);
      assert Seen(j', s', j, s + 1);
    }
    if FoundSlot(rows, fp, p, j, s) { assert Seen(j, s, j, s + 1); }
  }

  lemma {:induction false} BitStep(acc: seq<Byte>, found: nat, rows: seq<seq<nat>>, fp: nat, p: CuckooParams, j: nat,
                                   s: nat, i: nat)
    requires p.Legal() && RowsOk(rows, p) && Scanned(acc, found, rows, fp, p, j, s) && i < 8 * |acc|
    ensures (Stream(acc)[i] || HasBit(rows, j, s, fp, p, i))
       <==> exists j', s' :: HasBit(rows, j', s', fp, p, i) && Seen(j', s', j, s + 1)
  {
    if j', s' :| HasBit(rows, j', s', fp, p, i) && Seen(j', s', j, s + 1) {
      assert Seen(j', s', j, s) || (j' == j && s' == s);
    }
    if Stream(acc)[i] {
      var j', s' :| HasBit(rows, j', s', fp, p, i) && Seen(j', s', j, s);
      assert Seen(j', s', j, s + 1);
    }
    if HasBit(rows, j, s, fp, p, i) { assert Seen(j, s, j, s + 1); }
  }

  lemma {:induction false} OrNonZero(a: nat, b: nat)
    requires a < U64 && (b == 0 || b == U64 - 1)
    ensures Or(a, b, 64) < U64
    ensures Or(a, b, 64) != 0 <==> a != 0 || b != 0
  {
    PowersOfTwo();
    OpBounds(a, b, 64);
    if b == 0 {
      forall i | 0 <= i < 64 ensures BitOf(Or(a, 0, 64), i) == BitOf(a, i) { OpBits(a, 0, 64, i); BitOfZero(i); }
      SameBits(Or(a, b, 64), a, 64);
    } else {
      OpBits(a, b, 64, 0);
      MaskBit(64, 0);
      BitOfZero(0);
    }
  }

  /** A whole row has been taken into account. */
  lemma {:induction false} NextRow(acc: seq<Byte>, found: nat, rows: seq<seq<nat>>, fp: nat, p: CuckooParams, j: nat)
    requires p.Legal() && RowsOk(rows, p) && Scanned(acc, found, rows, fp, p, j, p.bucketSize)
    ensures Scanned(acc, found, rows, fp, p, j + 1, 0)
  {
    forall j', s' | Matches(rows, j', s', fp, p) ensures Seen(j', s', j, p.bucketSize) == Seen(j', s', j + 1, 0) {
    }
  }

  lemma {:induction false} NothingScanned(acc: seq<Byte>, rows: seq<seq<nat>>, fp: nat, p: CuckooParams)
    requires p.Legal() && RowsOk(rows, p) && |acc| == p.ValueSizeInBytes() && forall k :: 0 <= k < |acc| ==> acc[k] == 0
    ensures Scanned(acc, 0, rows, fp, p, 0, 0)
  {
    forall i | 0 <= i < 8 * |acc| ensures !Stream(acc)[i] { BitOfZero(i % 8); }
  }

  /** A scan of all rows is the look-up. */
  lemma {:induction false} AllScanned(acc: seq<Byte>, found: nat, rows: seq<seq<nat>>, fp: nat, p: CuckooParams)
    requires p.Legal() && RowsOk(rows, p) && Scanned(acc, found, rows, fp, p, |rows|, 0)
    ensures IsLookup(if found != 0 then Some(acc) else None, rows, fp, p)
  {
    forall j', s' | Matches(rows, j', s', fp, p) ensures Seen(j', s', |rows|, 0) {
    }
    forall i | 0 <= i < 8 * |acc| ensures Stream(acc)[i] == SomeMatchHasBit(rows, fp, p, i) {
      if j', s' :| HasBit(rows, j', s', fp, p, i) { assert Seen(j', s', |rows|, 0); }
    }
  }

  /** Scan the slots of one row. */
  method ScanRow(p: CuckooParams, fp: nat, cells: seq<nat>, acc: array<Byte>, found0: nat, ghost rows: seq<seq<nat>>,
                 ghost j: nat)
      returns (found: nat)
    requires p.Legal() && RowsOk(rows, p) && j < |rows| && rows[j] == cells && fp < U64
    requires Scanned(acc[..], found0, rows, fp, p, j, 0)
    modifies acc
    ensures Scanned(acc[..], found, rows, fp, p, j + 1, 0)
  {
    found := found0;
    for s := 0 to p.bucketSize
      invariant Scanned(acc[..], found, rows, fp, p, j, s)
    {
      found := ScanSlot(p, fp, cells, acc, found, rows, j, s);
    }
    NextRow(acc[..], found, rows, fp, p, j);
  }

  method ScanSlot(p: CuckooParams, fp: nat, cells: seq<nat>, acc: array<Byte>, found0: nat, ghost rows: seq<seq<nat>>,
                  ghost j: nat, s: nat)
      returns (found: nat)
    requires p.Legal() && RowsOk(rows, p) && j < |rows| && rows[j] == cells && fp < U64 && s < p.bucketSize
    requires Scanned(acc[..], found0, rows, fp, p, j, s)
    modifies acc
    ensures Scanned(acc[..], found, rows, fp, p, j, s + 1)
  {
    var slot := SlotCells(cells, s, p);
    var buf := new nat[|slot|](i requires 0 <= i < |slot| => slot[i]);
    assert buf[..] == slot;
    SlotCellsFit(rows, j, s, p);
    var decodedFp, value := UnpackSlotCells(p, buf);
    FingerprintFits(slot, p);
    var mask64 := CtEqMask(decodedFp, fp);
    MaskLow(mask64);
    ghost var before := acc[..];
    OrMasked(acc, And(mask64, 255, 64), value[..]);
    found := Or(found0, mask64, 64);
    ScanStep(before, acc[..], found0, mask64, value[..], rows, fp, p, j, s);
  }

  lemma {:induction false} MaskLow(mask: nat)
    requires mask == 0 || mask == U64 - 1
    ensures And(mask, 255, 64) == if mask == 0 then 0 else 255
  {
    PowersOfTwo();
    assert Pow2(8) == 256;
    Pow2Monotone(8, 64);
    OpBounds(mask, 255, 64);
    var want := if mask == 0 then 0 else 255;
    forall i | 0 <= i < 64 ensures BitOf(And(mask, 255, 64), i) == BitOf(want, i) {
      OpBits(mask, 255, 64, i);
      BitOfZero(i);
      if mask != 0 { MaskBit(64, i); }
    }
    SameBits(And(mask, 255, 64), want, 64);
  }

  lemma {:induction false} SlotCellsFit(rows: seq<seq<nat>>, j: nat, s: nat, p: CuckooParams)
    requires p.Legal() && RowsOk(rows, p) && j < |rows| && s < p.bucketSize
    ensures Fit(SlotCells(rows[j], s, p), p.plaintextBits)
  {
    MulMonotone(p.CellsPerSlot(), s + 1, p.bucketSize);
    var row, at := rows[j], Base(s, p.CellsPerSlot());
    forall k | 0 <= k < p.CellsPerSlot() ensures SlotCells(row, s, p)[k] < Pow2(p.plaintextBits) {
      assert SlotCells(row, s, p)[k] == row[at + k];
    }
  }

  lemma {:induction false} FingerprintFits(slot: seq<nat>, p: CuckooParams)
    requires p.Legal() && p.fingerprintBits <= |Flat(slot, p.plaintextBits)|
    ensures FingerprintOf(slot, p) < U64
  {
    ValBound(Flat(slot, p.plaintextBits)[..p.fingerprintBits]);
    Pow2Monotone(p.fingerprintBits, 64);
    PowersOfTwo();
  }
}
