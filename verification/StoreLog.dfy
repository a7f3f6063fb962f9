/** The slots of a value table and the rows the server serves are the same cells: what a log of slot
    mutations does to one, it does to the other. */
module StoreLog {
  import opened Words
  import opened Geometry
  import opened WireFormat
  import opened LinearAlgebra
  import opened Lwe
  import opened Fields
  import opened CellBits
  import opened SlotCodec
  import opened SlotEdit
  import opened CellTable
  import opened HintFold

  // ---------- logs over slots ----------

  /** A mutation whose fingerprints fit their field. */
  ghost predicate MutationFits(m: SlotMutation, p: CuckooParams)
    requires p.Legal()
  {
    MutationOk(m, p) && m.oldFingerprint < Pow2(p.fingerprintBits) && m.newFingerprint < Pow2(p.fingerprintBits)
  }

  ghost predicate LogFits(muts: seq<SlotMutation>, p: CuckooParams)
    requires p.Legal()
  {
    forall i :: 0 <= i < |muts| ==> MutationFits(muts[i], p)
  }

  ghost function ApplyTo(v: View, m: SlotMutation, p: CuckooParams): (r: View)
    requires p.Legal() && ViewOk(v, p) && MutationFits(m, p)
    ensures ViewOk(r, p)
  {
    SetSlot(v, m.bucket, m.slot, WithEntry(v[m.bucket][m.slot], m.newFingerprint, ValueOfCells(m.newValueCells, p)))
  }

  /** The mutation's old entry is the slot's. */
  ghost predicate RecordsIn(v: View, m: SlotMutation, p: CuckooParams)
    requires p.Legal() && ViewOk(v, p) && MutationFits(m, p)
  {
    && v[m.bucket][m.slot].fingerprint == m.oldFingerprint
    && v[m.bucket][m.slot].value == ValueOfCells(m.oldValueCells, p)
  }

  ghost function ReplayIn(v: View, muts: seq<SlotMutation>, p: CuckooParams): (r: View)
    requires p.Legal() && ViewOk(v, p) && LogFits(muts, p)
    ensures ViewOk(r, p)
  {
    if muts == [] then v else ApplyTo(ReplayIn(v, muts[..|muts| - 1], p), muts[|muts| - 1], p)
  }

  ghost predicate ConsistentIn(v: View, muts: seq<SlotMutation>, p: CuckooParams)
    requires p.Legal() && ViewOk(v, p) && LogFits(muts, p)
  {
    muts == []
    || (ConsistentIn(v, muts[..|muts| - 1], p) && RecordsIn(ReplayIn(v, muts[..|muts| - 1], p), muts[|muts| - 1], p))
  }

  // ---------- slots and rows ----------

  /** The bits of a slot record. */
  ghost function SlotBits(slot: Slot, p: CuckooParams): seq<bool> {
    Bits(slot.fingerprint, p.fingerprintBits) + slot.value + slot.fill
  }

  /** The rows hold exactly the slots. */
  ghost predicate Mirrors(db: Database, v: View, p: CuckooParams)
    requires p.Legal()
  {
    && DatabaseOk(db, p) && ViewOk(v, p)
    && forall b, s :: 0 <= b < p.numBuckets && 0 <= s < p.bucketSize ==>
         Flat(SlotCellsOf(db, b, s, p), p.plaintextBits) == SlotBits(v[b][s], p)
  }

  /** A slot's bits determine its entry. */
  lemma {:induction false} SlotBitsParts(slot: Slot, p: CuckooParams)
    requires p.ValidSlots() && SlotOk(slot, p)
    ensures var bits, f, n := SlotBits(slot, p), p.fingerprintBits, p.fingerprintBits + p.valueBits;
            && n <= |bits| == SlotWidth(p)
            && bits[..f] == Bits(slot.fingerprint, f) && Val(bits[..f]) == slot.fingerprint
            && bits[f..n] == slot.value && bits[n..] == slot.fill
            && bits[..n] == Bits(slot.fingerprint, f) + slot.value
  {
    ValOfBits(slot.fingerprint, p.fingerprintBits);
    var bits, f, n := SlotBits(slot, p), p.fingerprintBits, p.fingerprintBits + p.valueBits;
    assert bits[..f] == Bits(slot.fingerprint, f);
  }

  lemma {:induction false} MirrorsRecords(db: Database, v: View, m: SlotMutation, p: CuckooParams)
    requires p.Legal() && Mirrors(db, v, p) && MutationFits(m, p)
    ensures Records(db, m, p) <==> RecordsIn(v, m, p)
  {
    var slot, cells, value := v[m.bucket][m.slot], SlotCellsOf(db, m.bucket, m.slot, p),
        ValueOfCells(m.oldValueCells, p);
    SlotBitsParts(slot, p);
    var other := Slot(m.oldFingerprint, value, slot.fill);
    SlotBitsParts(other, p);
    var n, f := p.fingerprintBits + p.valueBits, p.fingerprintBits;
    assert Flat(cells, p.plaintextBits)[..n] == SlotBits(slot, p)[..n];
    assert EntryBits(m.oldFingerprint, value, p) == SlotBits(other, p)[..n];
    if SlotBits(slot, p)[..n] == SlotBits(other, p)[..n] {
      assert SlotBits(slot, p)[..n][..f] == SlotBits(slot, p)[..f]
           && SlotBits(other, p)[..n][..f] == SlotBits(other, p)[..f];
      assert SlotBits(slot, p)[..n][f..] == slot.value && SlotBits(other, p)[..n][f..] == value;
    }
  }

  lemma {:induction false} MirrorsApply(db: Database, v: View, m: SlotMutation, p: CuckooParams)
    requires p.Legal() && Mirrors(db, v, p) && MutationFits(m, p)
    ensures Mirrors(Apply(db, m, p), ApplyTo(v, m, p), p)
  {
    var after, v' := Apply(db, m, p), ApplyTo(v, m, p);
    forall b, s | 0 <= b < p.numBuckets && 0 <= s < p.bucketSize
      ensures Flat(SlotCellsOf(after, b, s, p), p.plaintextBits) == SlotBits(v'[b][s], p)
    {
      SlotAfterApply(db, m, p, b, s);
      if b == m.bucket && s == m.slot { RewrittenBits(db, v, m, p); }
      assert Flat(SlotCellsOf(db, b, s, p), p.plaintextBits) == SlotBits(v[b][s], p);
    }
  }

  lemma {:induction false} RewrittenBits(db: Database, v: View, m: SlotMutation, p: CuckooParams)
    requires p.Legal() && Mirrors(db, v, p) && MutationFits(m, p)
    ensures Flat(Rewritten(SlotCellsOf(db, m.bucket, m.slot, p), m.newFingerprint, ValueOfCells(m.newValueCells, p), p),
                 p.plaintextBits)
         == SlotBits(WithEntry(v[m.bucket][m.slot], m.newFingerprint, ValueOfCells(m.newValueCells, p)), p)
  {
    SlotBitsParts(v[m.bucket][m.slot], p);
    assert Flat(SlotCellsOf(db, m.bucket, m.slot, p), p.plaintextBits) == SlotBits(v[m.bucket][m.slot], p);
  }

  /** Applying a mutation rewrites its slot and no other. */
  lemma {:induction false} SlotAfterApply(db: Database, m: SlotMutation, p: CuckooParams, b: nat, s: nat)
    requires p.Legal() && DatabaseOk(db, p) && MutationOk(m, p) && b < p.numBuckets && s < p.bucketSize
    ensures SlotCellsOf(Apply(db, m, p), b, s, p)
         == if b == m.bucket && s == m.slot
            then Rewritten(SlotCellsOf(db, b, s, p), m.newFingerprint, ValueOfCells(m.newValueCells, p), p)
            else SlotCellsOf(db, b, s, p)
  {
    SlotInRange(b, s, p);
    SlotInRange(m.bucket, m.slot, p);
    var row, start, at := db[SegmentOf(m.bucket, p)][RowOf(m.bucket, p)], SlotStart(m.slot, p), SlotStart(s, p);
    var slot := Rewritten(SlotCellsOf(db, m.bucket, m.slot, p), m.newFingerprint, ValueOfCells(m.newValueCells, p), p);
    hide SegmentOf, RowOf, SlotStart, Rewritten, Shape, CellsFit;
    if SegmentOf(b, p) == SegmentOf(m.bucket, p) && RowOf(b, p) == RowOf(m.bucket, p) {
      BucketFromRow(b, m.bucket, p);
      SlotsApart(s, m.slot, p);
      CellsAround(row, start, slot, at);
    }
  }

  lemma {:induction false} CellsAround(row: seq<nat>, start: nat, cells: seq<nat>, at: nat)
    requires start + |cells| <= |row| && at + |cells| <= |row|
    requires at == start || at + |cells| <= start || start + |cells| <= at
    ensures SetSlotCells(row, start, cells)[at..at + |cells|] == if at == start then cells else row[at..at + |cells|]
  {
  }

  lemma {:induction false} SlotsApart(s: nat, s': nat, p: CuckooParams)
    requires p.Legal()
    ensures p.CellsPerSlot() > 0
    ensures s < s' ==> SlotStart(s, p) + p.CellsPerSlot() <= SlotStart(s', p)
    ensures s' < s ==> SlotStart(s', p) + p.CellsPerSlot() <= SlotStart(s, p)
  {
    LegalPositive(p);
    if s < s' { SlotInside(s, p.CellsPerSlot(), s'); }
    if s' < s { SlotInside(s', p.CellsPerSlot(), s); }
  }

  /** Segment and row determine the bucket. */
  lemma {:induction false} BucketFromRow(b: nat, b': nat, p: CuckooParams)
    requires p.Legal() && SegmentOf(b, p) == SegmentOf(b', p) && RowOf(b, p) == RowOf(b', p)
    ensures b == b'
  {
    LegalPositive(p);
    var n := p.SegmentSize();
    assert b == n * (b / n) + b % n && b' == n * (b' / n) + b' % n;
  }

  /** A log does to the rows what it does to the slots, and is consistent over both or neither. */
  lemma {:induction false} MirrorsReplay(db: Database, v: View, muts: seq<SlotMutation>, p: CuckooParams)
    requires p.Legal() && Mirrors(db, v, p) && LogFits(muts, p)
    ensures LogOk(muts, p)
    ensures Mirrors(Replay(db, muts, p), ReplayIn(v, muts, p), p)
    ensures Consistent(db, muts, p) <==> ConsistentIn(v, muts, p)
  {
    if muts != [] {
      var n := |muts| - 1;
      MirrorsReplay(db, v, muts[..n], p);
      hide Mirrors, Records, RecordsIn, Apply, ApplyTo;
      MirrorsRecords(Replay(db, muts[..n], p), ReplayIn(v, muts[..n], p), muts[n], p);
      MirrorsApply(Replay(db, muts[..n], p), ReplayIn(v, muts[..n], p), muts[n], p);
    }
  }

  /** The slots determine the rows. */
  lemma {:induction false} MirrorsUnique(a: Database, c: Database, v: View, p: CuckooParams)
    requires p.Legal() && Mirrors(a, v, p) && Mirrors(c, v, p)
    ensures a == c
  {
    LegalPositive(p);
    forall j | 0 <= j < p.Arity() ensures a[j] == c[j] {
      forall r | 0 <= r < p.SegmentSize() ensures a[j][r] == c[j][r] {
        RowsAgree(a, c, v, p, j, r);
      }
    }
  }

  lemma {:induction false} RowsAgree(a: Database, c: Database, v: View, p: CuckooParams, j: nat, r: nat)
    requires p.Legal() && Mirrors(a, v, p) && Mirrors(c, v, p) && j < p.Arity() && r < p.SegmentSize()
    ensures a[j][r] == c[j][r]
  {
    var b := BucketAt(j, r, p);
    forall o | 0 <= o < p.RowWidth() ensures a[j][r][o] == c[j][r][o] {
      var s, i := SlotAt(o, p);
      SlotsAgree(a, c, v, p, b, s);
      CellOfSlot(a, p, b, s, i);
      CellOfSlot(c, p, b, s, i);
      hide *;
    }
  }

  lemma {:induction false} SlotsAgree(a: Database, c: Database, v: View, p: CuckooParams, b: nat, s: nat)
    requires p.Legal() && Mirrors(a, v, p) && Mirrors(c, v, p) && b < p.numBuckets && s < p.bucketSize
    ensures SlotCellsOf(a, b, s, p) == SlotCellsOf(c, b, s, p)
  {
    var x, y := SlotCellsOf(a, b, s, p), SlotCellsOf(c, b, s, p);
    assert Flat(x, p.plaintextBits) == SlotBits(v[b][s], p) == Flat(y, p.plaintextBits);
    assert Fit(x, p.plaintextBits) && Fit(y, p.plaintextBits) && |x| == |y|;
    hide *;
    FlatInjective(x, y, p.plaintextBits);
  }

  /** Cell `i` of a slot, found in its row. */
  lemma {:induction false} CellOfSlot(db: Database, p: CuckooParams, b: nat, s: nat, i: nat)
    requires p.Legal() && DatabaseOk(db, p) && b < p.numBuckets && s < p.bucketSize && i < p.CellsPerSlot()
    ensures SegmentOf(b, p) < |db| && RowOf(b, p) < |db[SegmentOf(b, p)]|
    ensures SlotStart(s, p) + i < |db[SegmentOf(b, p)][RowOf(b, p)]|
    ensures SlotCellsOf(db, b, s, p)[i] == db[SegmentOf(b, p)][RowOf(b, p)][SlotStart(s, p) + i]
  {
    SlotInRange(b, s, p);
    hide SegmentOf, RowOf, SlotStart;
  }

  /** Row `r` of segment `j` is a bucket. */
  lemma {:induction false} BucketAt(j: nat, r: nat, p: CuckooParams) returns (b: nat)
    requires p.Legal() && j < p.Arity() && r < p.SegmentSize()
    ensures b == j * p.SegmentSize() + r < p.numBuckets && SegmentOf(b, p) == j && RowOf(b, p) == r
  {
    LayoutSegments(p);
    b := j * p.SegmentSize() + r;
    RowBelow(j, p.Arity(), r, p.SegmentSize());
    DivModUnique(b, p.SegmentSize(), j, r);
  }

  lemma {:induction false} RowBelow(j: nat, k: nat, r: nat, n: nat)
    requires j < k && r < n
    ensures 0 <= j * n + r < k * n
  {
    MulMonotone(n, j + 1, k);
    assert n * (j + 1) == j * n + n;
  }

  /** Every cell of a row belongs to a slot. */
  lemma {:induction false} SlotAt(o: nat, p: CuckooParams) returns (s: nat, i: nat)
    requires p.Legal() && o < p.RowWidth()
    ensures s < p.bucketSize && i < p.CellsPerSlot() && o == SlotStart(s, p) + i
  {
    LegalPositive(p);
    var cps := p.CellsPerSlot();
    s, i := o / cps, o % cps;
    assert o == cps * s + i;
    if s >= p.bucketSize { MulMonotone(cps, p.bucketSize, s); }
  }

  // ---------- flat cells ----------

  /** The cells of row `r` of segment `j`. */
  function RowCells(cells: seq<nat>, p: CuckooParams, j: nat, r: nat): (row: seq<nat>)
    requires p.Legal() && |cells| == TotalCells(p) && j < p.Arity() && r < p.SegmentSize()
    ensures |row| == p.RowWidth()
  {
    RowInside(p, j, r);
    cells[RowStart(p, j, r)..RowStart(p, j, r) + p.RowWidth()]
  }

  function RowStart(p: CuckooParams, j: nat, r: nat): nat
    requires p.Legal()
  {
    Base(j * p.SegmentSize() + r, p.RowWidth())
  }

  lemma {:induction false} RowInside(p: CuckooParams, j: nat, r: nat)
    requires p.Legal() && j < p.Arity() && r < p.SegmentSize()
    ensures RowStart(p, j, r) + p.RowWidth() <= TotalCells(p)
  {
    var b := BucketAt(j, r, p);
    SlotInside(b, p.RowWidth(), p.numBuckets);
    AllRows(p);
    BaseIs(p.numBuckets, p.RowWidth());
  }

  /** The flat cells, by segment and row. */
  function DatabaseOf(cells: seq<nat>, p: CuckooParams): (db: Database)
    requires p.Legal() && |cells| == TotalCells(p)
    ensures |db| == p.Arity()
    ensures forall j :: 0 <= j < |db| ==> |db[j]| == p.SegmentSize()
    ensures forall j, r :: 0 <= j < |db| && 0 <= r < p.SegmentSize() ==> db[j][r] == RowCells(cells, p, j, r)
  {
    seq(p.Arity(), j requires 0 <= j < p.Arity() =>
      seq(p.SegmentSize(), r requires 0 <= r < p.SegmentSize() => RowCells(cells, p, j, r)))
  }

  lemma {:induction false} DatabaseOfOk(cells: seq<nat>, p: CuckooParams)
    requires p.Legal() && |cells| == TotalCells(p) && Fit(cells, p.plaintextBits)
    ensures DatabaseOk(DatabaseOf(cells, p), p)
  {
    var db := DatabaseOf(cells, p);
    forall j, r, o | 0 <= j < p.Arity() && 0 <= r < p.SegmentSize() && 0 <= o < p.RowWidth()
      ensures db[j][r][o] < Pow2(p.plaintextBits)
    {
      RowInside(p, j, r);
      assert db[j][r][o] == cells[RowStart(p, j, r) + o];
    }
  }

  /** The served rows are the table's slots. */
  lemma {:induction false} TableMirrors(cells: seq<nat>, p: CuckooParams)
    requires p.Legal() && |cells| == TotalCells(p) && Fit(cells, p.plaintextBits)
    ensures PayloadOk(Flat(cells, p.plaintextBits), p)
    ensures Mirrors(DatabaseOf(cells, p), ViewOf(Flat(cells, p.plaintextBits), p), p)
  {
    PayloadOfTotal(cells, p);
    DatabaseOfOk(cells, p);
    var payload, db := Flat(cells, p.plaintextBits), DatabaseOf(cells, p);
    ViewIsOk(payload, p);
    forall b, s | 0 <= b < p.numBuckets && 0 <= s < p.bucketSize
      ensures Flat(SlotCellsOf(db, b, s, p), p.plaintextBits) == SlotBits(ViewOf(payload, p)[b][s], p)
    {
      SlotCellsFlat(cells, p, b, s);
      RecordBits(SlotIn(payload, p, b, s), p);
    }
  }

  /** A record's bits are those it was read from. */
  lemma {:induction false} RecordBits(bits: seq<bool>, p: CuckooParams)
    requires p.ValidSlots() && |bits| == SlotWidth(p)
    ensures SlotBits(RecordOf(bits, p), p) == bits
  {
    EntryFits(p);
    var f, n := p.fingerprintBits, p.fingerprintBits + p.valueBits;
    BitsOfVal(bits[..f]);
    assert bits == bits[..f] + bits[f..n] + bits[n..];
  }

  /** The cells of a slot in its row are those at its number in the flat array. */
  lemma {:induction false} SlotCellsAt(cells: seq<nat>, p: CuckooParams, b: nat, s: nat)
    requires p.Legal() && |cells| == TotalCells(p) && b < p.numBuckets && s < p.bucketSize
    requires DatabaseOk(DatabaseOf(cells, p), p)
    ensures Base(SlotNumber(p, b, s), p.CellsPerSlot()) + p.CellsPerSlot() <= |cells|
    ensures SlotCellsOf(DatabaseOf(cells, p), b, s, p)
         == cells[Base(SlotNumber(p, b, s), p.CellsPerSlot())..Base(SlotNumber(p, b, s), p.CellsPerSlot())
                  + p.CellsPerSlot()]
  {
    SlotInRange(b, s, p);
    var j, r, w, cps := SegmentOf(b, p), RowOf(b, p), p.RowWidth(), p.CellsPerSlot();
    RowInside(p, j, r);
    StartOfSlot(p, b, s);
    var start, at := RowStart(p, j, r), SlotStart(s, p);
    var row: seq<nat> := DatabaseOf(cells, p)[j][r];
    assert row == cells[start..start + w];
    assert SlotCellsOf(DatabaseOf(cells, p), b, s, p) == row[at..at + cps];
    hide *;
    SliceOfCells(cells, start, start + w, at, cps);
  }

  lemma {:induction false} SlotCellsFlat(cells: seq<nat>, p: CuckooParams, b: nat, s: nat)
    requires p.Legal() && |cells| == TotalCells(p) && b < p.numBuckets && s < p.bucketSize
    requires DatabaseOk(DatabaseOf(cells, p), p) && PayloadOk(Flat(cells, p.plaintextBits), p)
    ensures Flat(SlotCellsOf(DatabaseOf(cells, p), b, s, p), p.plaintextBits)
         == SlotIn(Flat(cells, p.plaintextBits), p, b, s)
  {
    SlotCellsAt(cells, p, b, s);
    SlotExists(p, b, s);
    SlotInside(SlotNumber(p, b, s), SlotWidth(p), SlotCount(p));
    var k, cps, pb := SlotNumber(p, b, s), p.CellsPerSlot(), p.plaintextBits;
    FlatSlice(cells, pb, Base(k, cps), cps);
    BaseOfBase(k, cps, pb);
    assert SlotIn(Flat(cells, pb), p, b, s)
         == Flat(cells, pb)[Base(k, SlotWidth(p))..Base(k, SlotWidth(p)) + SlotWidth(p)];
    assert SlotWidth(p) == Base(cps, pb);
    hide *;
  }

  lemma {:induction false} BaseOfBase(k: nat, cps: nat, pb: nat)
    ensures Base(Base(k, cps), pb) == Base(k, Base(cps, pb))
  {
    assert k * cps * pb == k * (cps * pb);
  }

  lemma {:induction false} SliceOfCells(s: seq<nat>, from: nat, to: nat, at: nat, n: nat)
    requires from <= to <= |s| && from + at + n <= to
    ensures s[from..to][at..at + n] == s[from + at..from + at + n]
  {
    var part := s[from..to];
    var a, b := part[at..at + n], s[from + at..from + at + n];
    forall i | 0 <= i < n ensures a[i] == b[i] { assert a[i] == part[at + i]; }
  }

  lemma {:induction false} StartOfSlot(p: CuckooParams, b: nat, s: nat)
    requires p.Legal()
    ensures RowStart(p, SegmentOf(b, p), RowOf(b, p)) + SlotStart(s, p) == Base(SlotNumber(p, b, s), p.CellsPerSlot())
  {
    LegalPositive(p);
    QuotientParts(b, p.SegmentSize());
    ProductOfRows(b, p.bucketSize, p.CellsPerSlot(), s);
  }

  lemma {:induction false} QuotientParts(b: nat, n: nat)
    requires n > 0
    ensures b == (b / n) * n + b % n
  {
  }

  lemma {:induction false} ProductOfRows(b: nat, bs: nat, cps: nat, s: nat)
    ensures Base(b, bs * cps) + Base(s, cps) == Base(Base(b, bs) + s, cps)
  {
    assert b * (bs * cps) + s * cps == (b * bs + s) * cps;
  }

  /** The payload of consecutive cells is a stretch of the whole payload. */
  lemma {:induction false} FlatSlice(cells: seq<nat>, pb: nat, from: nat, n: nat)
    requires from + n <= |cells|
    ensures Base(from, pb) + Base(n, pb) <= |Flat(cells, pb)|
    ensures Flat(cells[from..from + n], pb) == Flat(cells, pb)[Base(from, pb)..Base(from, pb) + Base(n, pb)]
  {
    var a, b, c := cells[..from], cells[from..from + n], cells[from + n..];
    assert cells == a + (b + c);
    FlatConcat(a, b + c, pb);
    FlatConcat(b, c, pb);
    FlatLength(a, pb);
    FlatLength(b, pb);
    assert |a| == from && |b| == n;
    hide *;
  }

  /** Tables with the same slots have the same cells. */
  lemma {:induction false} SlotsDetermineCells(a: seq<nat>, c: seq<nat>, p: CuckooParams)
    requires p.Legal() && |a| == |c| == TotalCells(p) && Fit(a, p.plaintextBits) && Fit(c, p.plaintextBits)
    requires PayloadOk(Flat(a, p.plaintextBits), p) && PayloadOk(Flat(c, p.plaintextBits), p)
    requires ViewOf(Flat(a, p.plaintextBits), p) == ViewOf(Flat(c, p.plaintextBits), p)
    ensures a == c
  {
    TableMirrors(a, p);
    TableMirrors(c, p);
    MirrorsUnique(DatabaseOf(a, p), DatabaseOf(c, p), ViewOf(Flat(a, p.plaintextBits), p), p);
    forall i | 0 <= i < |a| ensures a[i] == c[i] {
      var j, r, o := CellAtIndex(p, i);
      RowInside(p, j, r);
      assert a[i] == DatabaseOf(a, p)[j][r][o] && c[i] == DatabaseOf(c, p)[j][r][o];
    }
  }

  /** Every flat index lies in some row. */
  lemma {:induction false} CellAtIndex(p: CuckooParams, i: nat) returns (j: nat, r: nat, o: nat)
    requires p.Legal() && i < TotalCells(p)
    ensures j < p.Arity() && r < p.SegmentSize() && o < p.RowWidth() && i == RowStart(p, j, r) + o
  {
    LegalPositive(p);
    AllRows(p);
    var b: nat;
    b, o := Quotient(i, p.numBuckets, p.RowWidth());
    SlotInRange(b, 0, p);
    j, r := SegmentOf(b, p), RowOf(b, p);
    QuotientParts(b, p.SegmentSize());
    assert RowStart(p, j, r) == Base(b, p.RowWidth());
    hide *;
  }

  lemma {:induction false} Quotient(i: nat, n: nat, w: nat) returns (b: nat, o: nat)
    requires w > 0 && i < n * w
    ensures b < n && o < w && i == Base(b, w) + o
  {
    b, o := i / w, i % w;
    QuotientParts(i, w);
    QuotientBelow(i, n, w);
  }

  lemma {:induction false} BaseIs(b: nat, w: nat)
    ensures Base(b, w) == b * w
  {
  }

  lemma {:induction false} AllRows(p: CuckooParams)
    requires p.Legal()
    ensures TotalCells(p) == p.numBuckets * p.RowWidth()
  {
    assert p.numBuckets * (p.bucketSize * p.CellsPerSlot()) == p.numBuckets * p.bucketSize * p.CellsPerSlot();
  }
}
