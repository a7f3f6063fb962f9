/** What the operations of a key-value store do to its slots and to its log of mutations. */
module StoreSpec {
  import opened Words
  import opened Geometry
  import opened Fields
  import opened SlotCodec
  import opened Scheme
  import Digits
  import opened FilterClasses
  import opened CellTable
  import opened HintFold
  import opened StoreLog

  // ---------- what a store holds ----------

  /** Whether a value is one of those asked for; `None` asks for any. */
  ghost predicate Wanted(value: seq<bool>, want: Option<seq<bool>>) { want.None? || want.value == value }

  /** A slot's fingerprint if its value is wanted, else 0. */
  ghost function PrintOf(slot: Slot, want: Option<seq<bool>>): nat {
    if Wanted(slot.value, want) then slot.fingerprint else 0
  }

  ghost function Prints(v: View, want: Option<seq<bool>>): (r: seq<seq<nat>>)
    ensures |r| == |v| && forall b :: 0 <= b < |v| ==> |r[b]| == |v[b]|
    ensures forall b, s :: 0 <= b < |v| && 0 <= s < |v[b]| ==> r[b][s] == PrintOf(v[b][s], want)
  {
    seq(|v|, b requires 0 <= b < |v| => seq(|v[b]|, s requires 0 <= s < |v[b]| => PrintOf(v[b][s], want)))
  }

  /** The classes stored with a wanted value. */
  ghost function Holding(sc: Scheme, v: View, want: Option<seq<bool>>): multiset<Class>
    requires |v| <= sc.NumBuckets()
  {
    Classes(sc, Prints(v, want))
  }

  /** One entry, as far as it is wanted. */
  ghost function One(c: Class, value: seq<bool>, want: Option<seq<bool>>): multiset<Class> {
    if Wanted(value, want) then multiset{c} else multiset{}
  }

  /** `v` and the entry in hand are `v0` and the entry it began with. */
  ghost predicate Carries(sc: Scheme, v0: View, c0: Class, value0: seq<bool>, v: View, c: Class, value: seq<bool>)
    requires |v0| <= sc.NumBuckets() && |v| <= sc.NumBuckets()
  {
    forall want :: Holding(sc, v, want) + One(c, value, want) == Holding(sc, v0, want) + One(c0, value0, want)
  }

  /** Exactly one entry more. */
  ghost predicate Adds(sc: Scheme, v0: View, v: View, c: Class, value: seq<bool>)
    requires |v0| <= sc.NumBuckets() && |v| <= sc.NumBuckets()
  {
    forall want :: Holding(sc, v, want) == Holding(sc, v0, want) + One(c, value, want)
  }

  lemma {:induction false} PrintsSet(v: View, b: nat, k: nat, slot: Slot, want: Option<seq<bool>>)
    requires b < |v| && k < |v[b]|
    ensures Prints(SetSlot(v, b, k, slot), want) == SetSlot(Prints(v, want), b, k, PrintOf(slot, want))
  {
    var x, y := Prints(SetSlot(v, b, k, slot), want), SetSlot(Prints(v, want), b, k, PrintOf(slot, want));
    forall i | 0 <= i < |v| ensures x[i] == y[i] {
      forall j | 0 <= j < |v[i]| ensures x[i][j] == y[i][j] {
      }
    }
  }

  lemma {:induction false} HoldingUpdate(sc: Scheme, v: View, b: nat, k: nat, slot: Slot, want: Option<seq<bool>>)
    requires b < |v| <= sc.NumBuckets() && k < |v[b]|
    ensures Holding(sc, SetSlot(v, b, k, slot), want) + SlotClass(sc, b, PrintOf(v[b][k], want))
         == Holding(sc, v, want) + SlotClass(sc, b, PrintOf(slot, want))
  {
    PrintsSet(v, b, k, slot, want);
    ClassesUpdate(sc, Prints(v, want), b, k, PrintOf(slot, want));
  }

  lemma {:induction false} OneOfSlot(sc: Scheme, b: nat, slot: Slot, want: Option<seq<bool>>)
    requires b < sc.NumBuckets()
    ensures SlotClass(sc, b, PrintOf(slot, want))
         == if slot.fingerprint == 0 then multiset{} else One(ClassAt(sc, b, slot.fingerprint), slot.value, want)
  {
  }

  lemma {:induction false} EmptyHolding(sc: Scheme, v: View, bucketSize: nat)
    requires |v| <= sc.NumBuckets() && forall b :: 0 <= b < |v| ==> |v[b]| == bucketSize
    requires forall b, s :: 0 <= b < |v| && 0 <= s < |v[b]| ==> v[b][s].fingerprint == 0
    ensures Holding(sc, v, None) == multiset{}
  {
    var prints := Prints(v, None);
    forall b | 0 <= b < |v| ensures prints[b] == Zeros(bucketSize) {
      assert forall s :: 0 <= s < bucketSize ==> prints[b][s] == 0;
    }
    EmptyClasses(sc, prints, bucketSize, 0);
  }

  /** Writing an entry into an empty slot adds it. */
  lemma {:induction false} FillAddsEntry(sc: Scheme, v: View, b: nat, k: nat, slot: Slot)
    requires b < |v| <= sc.NumBuckets() && k < |v[b]| && v[b][k].fingerprint == 0 && slot.fingerprint != 0
    ensures Adds(sc, v, SetSlot(v, b, k, slot), ClassAt(sc, b, slot.fingerprint), slot.value)
  {
    forall want
      ensures Holding(sc, SetSlot(v, b, k, slot), want)
           == Holding(sc, v, want) + One(ClassAt(sc, b, slot.fingerprint), slot.value, want)
    {
      HoldingUpdate(sc, v, b, k, slot, want);
      OneOfSlot(sc, b, v[b][k], want);
      OneOfSlot(sc, b, slot, want);
    }
  }

  /** Clearing an occupied slot removes its entry. */
  lemma {:induction false} ClearRemovesEntry(sc: Scheme, v: View, b: nat, k: nat, slot: Slot)
    requires b < |v| <= sc.NumBuckets() && k < |v[b]| && v[b][k].fingerprint != 0 && slot.fingerprint == 0
    ensures Adds(sc, SetSlot(v, b, k, slot), v, ClassAt(sc, b, v[b][k].fingerprint), v[b][k].value)
  {
    forall want
      ensures Holding(sc, v, want)
           == Holding(sc, SetSlot(v, b, k, slot), want) + One(ClassAt(sc, b, v[b][k].fingerprint), v[b][k].value, want)
    {
      HoldingUpdate(sc, v, b, k, slot, want);
      OneOfSlot(sc, b, v[b][k], want);
      OneOfSlot(sc, b, slot, want);
    }
  }

  /** Replacing an entry takes the old one in hand. */
  lemma {:induction false} SwapCarriesEntry(sc: Scheme, v: View, b: nat, k: nat, slot: Slot)
    requires b < |v| <= sc.NumBuckets() && k < |v[b]| && v[b][k].fingerprint != 0 && slot.fingerprint != 0
    ensures Carries(sc, v, ClassAt(sc, b, slot.fingerprint), slot.value,
                    SetSlot(v, b, k, slot), ClassAt(sc, b, v[b][k].fingerprint), v[b][k].value)
  {
    forall want
      ensures Holding(sc, SetSlot(v, b, k, slot), want) + One(ClassAt(sc, b, v[b][k].fingerprint), v[b][k].value, want)
           == Holding(sc, v, want) + One(ClassAt(sc, b, slot.fingerprint), slot.value, want)
    {
      HoldingUpdate(sc, v, b, k, slot, want);
      OneOfSlot(sc, b, v[b][k], want);
      OneOfSlot(sc, b, slot, want);
    }
  }

  // ---------- empty slots ----------

  /** Every empty slot has a zero value. */
  ghost predicate ZeroEmpty(v: View, p: CuckooParams) {
    forall b, s :: 0 <= b < |v| && 0 <= s < |v[b]| && v[b][s].fingerprint == 0 ==> v[b][s].value == Clear(p.valueBits)
  }

  /** The same slots are empty, with the same contents. */
  ghost predicate SameEmpties(v0: View, v: View) {
    && |v0| == |v| && (forall b :: 0 <= b < |v| ==> |v0[b]| == |v[b]|)
    && forall b, s :: 0 <= b < |v| && 0 <= s < |v[b]| && (v0[b][s].fingerprint == 0 || v[b][s].fingerprint == 0) ==>
         v0[b][s] == v[b][s]
  }

  /** No slot of the bucket is empty. */
  ghost predicate Full(v: View, b: nat)
    requires b < |v|
  {
    forall s :: 0 <= s < |v[b]| ==> v[b][s].fingerprint != 0
  }

  // ---------- the kick chain ----------

  /** The mutation of placing an entry in an empty slot, as it is logged. */
  ghost predicate IsPlacement(m: SlotMutation, p: CuckooParams)
    requires p.Legal()
  {
    && MutationFits(m, p) && m.oldFingerprint == 0 && m.newFingerprint != 0
    && forall i :: 0 <= i < |m.oldValueCells| ==> m.oldValueCells[i] == 0
  }

  /** A replacement of one entry by another that records the old one. */
  ghost predicate IsKick(m: SlotMutation, v: View, p: CuckooParams)
    requires p.Legal() && ViewOk(v, p)
  {
    MutationFits(m, p) && RecordsIn(v, m, p) && m.oldFingerprint != 0 && m.newFingerprint != 0
  }

  /** The class a mutation puts into its bucket, and the class it takes out. */
  ghost function ClassIn(m: SlotMutation, p: CuckooParams): Class
    requires p.Legal() && MutationFits(m, p)
  {
    ClassAt(SchemeOf(p), m.bucket, m.newFingerprint)
  }

  ghost function ClassOut(m: SlotMutation, p: CuckooParams): Class
    requires p.Legal() && MutationFits(m, p)
  {
    ClassAt(SchemeOf(p), m.bucket, m.oldFingerprint)
  }

  /** After the kicks `muts` from `v0`, the slots are `v` and the entry (`c`, `value`) is in hand. */
  ghost predicate Kicked(v0: View, c0: Class, value0: seq<bool>, muts: seq<SlotMutation>, v: View, c: Class,
                         value: seq<bool>,
                         p: CuckooParams)
    requires p.Legal()
  {
    && ViewOk(v0, p) && ViewOk(v, p) && LogFits(muts, p)
    && ConsistentIn(v0, muts, p) && ReplayIn(v0, muts, p) == v
    && SameEmpties(v0, v)
    && Carries(SchemeOf(p), v0, c0, value0, v, c, value)
  }

  lemma {:induction false} NothingKicked(v: View, c: Class, value: seq<bool>, p: CuckooParams)
    requires p.Legal() && ViewOk(v, p)
    ensures Kicked(v, c, value, [], v, c, value, p)
  {
  }

  /** One kick: the entry in hand goes into an occupied slot, and what it held is in hand. */
  lemma {:induction false} KickMore(v0: View, c0: Class, value0: seq<bool>, muts: seq<SlotMutation>, v: View,
                                    m: SlotMutation,
                                    p: CuckooParams)
    requires p.Legal() && ViewOk(v, p) && IsKick(m, v, p)
    requires Kicked(v0, c0, value0, muts, v, ClassIn(m, p), ValueOfCells(m.newValueCells, p), p)
    ensures Kicked(v0, c0, value0, muts + [m], ApplyTo(v, m, p), ClassOut(m, p), ValueOfCells(m.oldValueCells, p), p)
  {
    LogMore(v0, muts, m, p);
    var was, v' := v[m.bucket][m.slot], ApplyTo(v, m, p);
    var now := WithEntry(was, m.newFingerprint, ValueOfCells(m.newValueCells, p));
    SwapCarriesEntry(SchemeOf(p), v, m.bucket, m.slot, now);
    EmptiesKept(v0, v, m.bucket, m.slot, now);
    CarriesOn(SchemeOf(p), v0, c0, value0, v, ClassIn(m, p), now.value, v', ClassOut(m, p), was.value);
  }

  lemma {:induction false} CarriesOn(sc: Scheme, v0: View, c0: Class, value0: seq<bool>, v1: View, c1: Class,
                                     value1: seq<bool>,
                                     v2: View, c2: Class, value2: seq<bool>)
    requires |v0| <= sc.NumBuckets() && |v1| <= sc.NumBuckets() && |v2| <= sc.NumBuckets()
    requires Carries(sc, v0, c0, value0, v1, c1, value1) && Carries(sc, v1, c1, value1, v2, c2, value2)
    ensures Carries(sc, v0, c0, value0, v2, c2, value2)
  {
    hide Holding, One;
  }

  lemma {:induction false} LogMore(v0: View, muts: seq<SlotMutation>, m: SlotMutation, p: CuckooParams)
    requires p.Legal() && ViewOk(v0, p) && LogFits(muts, p) && MutationFits(m, p)
    ensures LogFits(muts + [m], p)
    ensures ReplayIn(v0, muts + [m], p) == ApplyTo(ReplayIn(v0, muts, p), m, p)
    ensures ConsistentIn(v0, muts + [m], p) <==> ConsistentIn(v0, muts, p) && RecordsIn(ReplayIn(v0, muts, p), m, p)
  {
    var more := muts + [m];
    assert more[..|more| - 1] == muts;
  }

  lemma {:induction false} EmptiesKept(v0: View, v: View, b: nat, k: nat, slot: Slot)
    requires SameEmpties(v0, v) && b < |v| && k < |v[b]| && v[b][k].fingerprint != 0 && slot.fingerprint != 0
    ensures SameEmpties(v0, SetSlot(v, b, k, slot))
  {
  }

  /** What a successful insert logged: how the slots changed, which entry came, and when the log is
      consistent. */
  ghost predicate Inserted(v0: View, muts: seq<SlotMutation>, v: View, c: Class, value: seq<bool>, p: CuckooParams)
    requires p.Legal()
  {
    && ViewOk(v0, p) && ViewOk(v, p) && LogFits(muts, p) && muts != []
    && ReplayIn(v0, muts, p) == v
    && Adds(SchemeOf(p), v0, v, c, value)
    && (ZeroEmpty(v0, p) ==> ZeroEmpty(v, p))
    && var last := muts[|muts| - 1];
       && v0[last.bucket][last.slot].fingerprint == 0
       && (ConsistentIn(v0, muts, p) <==> v0[last.bucket][last.slot].value == Clear(p.valueBits))
  }

  /** Placing the entry in hand ends the chain.  The log is consistent if and only if the slot it was
      placed in had a zero value. */
  lemma {:induction false} PlaceEnds(v0: View, c0: Class, value0: seq<bool>, muts: seq<SlotMutation>, v: View,
                                     m: SlotMutation,
                                     p: CuckooParams)
    requires p.Legal() && ViewOk(v, p) && IsPlacement(m, p) && v[m.bucket][m.slot].fingerprint == 0
    requires Kicked(v0, c0, value0, muts, v, ClassIn(m, p), ValueOfCells(m.newValueCells, p), p)
    ensures Inserted(v0, muts + [m], ApplyTo(v, m, p), c0, value0, p)
  {
    LogMore(v0, muts, m, p);
    ZeroValue(m.oldValueCells, p);
    var was, v' := v[m.bucket][m.slot], ApplyTo(v, m, p);
    var now := WithEntry(was, m.newFingerprint, ValueOfCells(m.newValueCells, p));
    FillAddsEntry(SchemeOf(p), v, m.bucket, m.slot, now);
    AddsInHand(SchemeOf(p), v0, c0, value0, v, ClassIn(m, p), now.value, v');
  }

  lemma {:induction false} AddsInHand(sc: Scheme, v0: View, c0: Class, value0: seq<bool>, v1: View, c1: Class,
                                      value1: seq<bool>, v2: View)
    requires |v0| <= sc.NumBuckets() && |v1| <= sc.NumBuckets() && |v2| <= sc.NumBuckets()
    requires Carries(sc, v0, c0, value0, v1, c1, value1) && Adds(sc, v1, v2, c1, value1)
    ensures Adds(sc, v0, v2, c0, value0)
  {
    hide Holding, One;
  }

  /** Restoring the old entry of the last mutation of a consistent log takes it back. */
  lemma {:induction false} UndoLast(v0: View, muts: seq<SlotMutation>, p: CuckooParams)
    requires p.Legal() && ViewOk(v0, p) && LogFits(muts, p) && muts != [] && ConsistentIn(v0, muts, p)
    ensures var v, m := ReplayIn(v0, muts, p), muts[|muts| - 1];
            SetSlot(v, m.bucket, m.slot,
                    WithEntry(v[m.bucket][m.slot], m.oldFingerprint, ValueOfCells(m.oldValueCells, p)))
            == ReplayIn(v0, muts[..|muts| - 1], p)
  {
    var before, m := ReplayIn(v0, muts[..|muts| - 1], p), muts[|muts| - 1];
    var was := before[m.bucket][m.slot];
    var now := WithEntry(was, m.newFingerprint, ValueOfCells(m.newValueCells, p));
    SetTwice(before, m.bucket, m.slot, now, was);
    assert before[m.bucket][m.slot := was] == before[m.bucket];
  }

  /** The log is consistent with what it did to the slots. */
  ghost predicate Logged(v0: View, muts: seq<SlotMutation>, v: View, p: CuckooParams)
    requires p.Legal()
  {
    && ViewOk(v0, p) && ViewOk(v, p) && LogFits(muts, p)
    && ReplayIn(v0, muts, p) == v && ConsistentIn(v0, muts, p)
    && (ZeroEmpty(v0, p) ==> ZeroEmpty(v, p))
  }

  lemma {:induction false} EmptiesStayZero(v0: View, muts: seq<SlotMutation>, v: View, p: CuckooParams)
    requires p.Legal() && Logged(v0, muts, v, p)
    ensures ZeroEmpty(v0, p) ==> ZeroEmpty(v, p)
  {
  }

  lemma {:induction false} NothingLogged(v: View, p: CuckooParams)
    requires p.Legal() && ViewOk(v, p)
    ensures Logged(v, [], v, p)
  {
  }

  /** A mutation of an occupied slot that records its old entry. */
  lemma {:induction false} OneLogged(v: View, m: SlotMutation, p: CuckooParams)
    requires p.Legal() && ViewOk(v, p) && MutationFits(m, p) && RecordsIn(v, m, p) && m.oldFingerprint != 0
    requires m.newFingerprint == 0 ==> ValueOfCells(m.newValueCells, p) == Clear(p.valueBits)
    ensures Logged(v, [m], ApplyTo(v, m, p), p)
  {
    LogMore(v, [], m, p);
    assert [] + [m] == [m];
  }

  // ---------- finding ----------

  /** The first candidate slot holding the fingerprint: buckets in candidate order, slots in order. */
  ghost predicate IsFirstMatch(v: View, indices: seq<nat>, arity: nat, fp: nat, r: Option<(nat, nat)>)
    requires arity <= |indices| && forall k :: 0 <= k < arity ==> indices[k] < |v|
  {
    match r
    case Some((k, s)) => k < arity && IsFirst(v[indices[k]], fp, Some(s)) && forall i :: 0 <= i < k ==>
         IsFirst(v[indices[i]], fp, None)
    case None => forall i :: 0 <= i < arity ==> IsFirst(v[indices[i]], fp, None)
  }

  /** An item's class is held iff a candidate slot has its fingerprint. */
  lemma {:induction false} HeldIffFound(v: View, digest: nat, r: Option<(nat, nat)>, p: CuckooParams)
    requires p.Legal() && SchemeOf(p).Valid() && ViewOk(v, p)
    requires var (fp, indices) := SchemeOf(p).HashItem(digest, p.fingerprintBits);
             && (forall k :: 0 <= k < p.Arity() ==> indices[k] < |v|)
             && IsFirstMatch(v, indices, p.Arity(), fp, r)
    ensures ItemClass(SchemeOf(p), p.fingerprintBits, digest) in Holding(SchemeOf(p), v, None) <==> r.Some?
  {
    var (fp, indices) := SchemeOf(p).HashItem(digest, p.fingerprintBits);
    var prints := Prints(v, None);
    ItemMember(SchemeOf(p), prints, p.fingerprintBits, digest);
    hide Scheme.HashItem, ItemClass, SchemeOf, Classes, Prints;
    forall k | 0 <= k < p.Arity() ensures fp in prints[indices[k]] <==> !IsFirst(v[indices[k]], fp, None) {
      PrintsOfBucket(v, indices[k], fp);
    }
  }

  lemma {:induction false} PrintsOfBucket(v: View, b: nat, fp: nat)
    requires b < |v|
    ensures fp in Prints(v, None)[b] <==> !IsFirst(v[b], fp, None)
  {
    var row := Prints(v, None)[b];
    assert forall s :: 0 <= s < |row| ==> row[s] == v[b][s].fingerprint;
  }

  // ---------- when logs follow the cells ----------

  /** The log of an insert is consistent when every empty slot has a zero value. */
  lemma {:induction false} InsertedLogged(v0: View, muts: seq<SlotMutation>, v: View, c: Class, value: seq<bool>,
                                          p: CuckooParams)
    requires p.Legal() && Inserted(v0, muts, v, c, value, p) && ZeroEmpty(v0, p)
    ensures Logged(v0, muts, v, p)
  {
  }

  lemma {:induction false} InsertedAdds(v0: View, muts: seq<SlotMutation>, v: View, c: Class, value: seq<bool>,
                                        p: CuckooParams)
    requires p.Legal() && Inserted(v0, muts, v, c, value, p)
    ensures Adds(SchemeOf(p), v0, v, c, value)
  {
  }

  /** The rows of a store follow its log. */
  lemma {:induction false} RowsFollow(db0: Database, v0: View, muts: seq<SlotMutation>, db: Database, v: View,
                                      p: CuckooParams)
    requires p.Legal() && Logged(v0, muts, v, p) && Mirrors(db0, v0, p) && Mirrors(db, v, p)
    ensures LogOk(muts, p) && Consistent(db0, muts, p) && Replay(db0, muts, p) == db
  {
    MirrorsReplay(db0, v0, muts, p);
    MirrorsUnique(Replay(db0, muts, p), db, v, p);
  }

  const RESIDUE: CuckooParams := CuckooParams(SchemeKind.Segmented2ary, 2, 1, 8, 8, 8)

  /** Restored cells may hold an empty slot with a value left in it: these pass every check, and slot 0
      has fingerprint 0 and value 1. */
  lemma {:induction false} ResidueIsAccepted()
    ensures var cells, p := [0, 1, 0, 0], RESIDUE;
            && p.Legal() && SchemeOf(p).Valid()
            && 1 <= p.fingerprintBits <= 64 && |cells| == TotalCells(p) && Fit(cells, p.plaintextBits)
            && PayloadOk(Flat(cells, p.plaintextBits), p)
            && !ZeroEmpty(ViewOf(Flat(cells, p.plaintextBits), p), p)
  {
    var cells: seq<nat> := [0, 1, 0, 0];
    ResidueShape(cells);
    FieldAt(cells, 8, 0, []);
    FieldAt(cells, 8, 1, []);
    ValOfBits(0, 8);
    var payload: seq<bool> := Flat(cells, 8);
    assert payload + [] == payload;
    ResidueSlot(payload);
  }

  lemma {:induction false} ResidueShape(cells: seq<nat>)
    requires cells == [0, 1, 0, 0]
    ensures RESIDUE.Legal() && SchemeOf(RESIDUE).Valid() && TotalCells(RESIDUE) == 4 && Fit(cells, 8)
    ensures PayloadOk(Flat(cells, 8), RESIDUE) && |Flat(cells, 8)| == 32
  {
    assert RESIDUE.CellsPerSlot() == 2 && Pow2(8) == 256;
    PayloadOfTotal(cells, RESIDUE);
    FlatLength(cells, 8);
    assert Digits.Pow(2, 0) == 1;
  }

  lemma {:induction false} ResidueSlot(payload: seq<bool>)
    requires PayloadOk(payload, RESIDUE) && |payload| == 32
    requires Val(payload[0..8]) == 0 && payload[8..16] == Bits(1, 8)
    ensures !ZeroEmpty(ViewOf(payload, RESIDUE), RESIDUE)
  {
    var v: View, bits := ViewOf(payload, RESIDUE), SlotIn(payload, RESIDUE, 0, 0);
    assert SlotWidth(RESIDUE) == 16;
    assert bits == payload[0..16];
    assert bits[..8] == payload[0..8] && bits[8..16] == payload[8..16];
    assert v[0][0] == RecordOf(bits, RESIDUE);
    assert v[0][0].value[0] && !Clear(8)[0];
  }

  /** The mutation that fills an empty slot, as it is logged. */
  ghost function Filling(b: nat, s: nat, fp: nat, cells: seq<nat>, p: CuckooParams): SlotMutation
    requires p.plaintextBits > 0
  {
    SlotMutation(b, s, 0, Zeros(p.ValueSizeInCells()), fp, cells)
  }

  /** What filling empty slots logs is right on every cell of the served rows if and only if every
      empty slot has a zero value. */
  lemma {:induction false} FillsTrackIffZeroEmpty(db: Database, v: View, fp: nat, cells: seq<nat>, p: CuckooParams)
    requires p.Legal() && Mirrors(db, v, p)
    requires 0 < fp < Pow2(p.fingerprintBits) && |cells| == p.ValueSizeInCells()
    ensures ZeroEmpty(v, p)
       <==> forall b, s :: 0 <= b < p.numBuckets && 0 <= s < p.bucketSize && v[b][s].fingerprint == 0 ==>
              Tracked(db, Filling(b, s, fp, cells, p), p)
  {
    forall b, s | 0 <= b < p.numBuckets && 0 <= s < p.bucketSize && v[b][s].fingerprint == 0
      ensures Tracked(db, Filling(b, s, fp, cells, p), p) <==> v[b][s].value == Clear(p.valueBits)
    {
      FillTracked(db, v, b, s, fp, cells, p);
    }
  }

  /** The mutation changes every cell by what it adds to it. */
  ghost predicate Tracked(db: Database, m: SlotMutation, p: CuckooParams)
    requires p.Legal() && DatabaseOk(db, p)
  {
    && MutationOk(m, p)
    && forall seg, row, off :: 0 <= seg < p.Arity() && 0 <= row < p.SegmentSize() && 0 <= off < p.RowWidth() ==>
         TracksCell(db, m, p, seg, row, off)
  }

  lemma {:induction false} FillTracked(db: Database, v: View, b: nat, s: nat, fp: nat, cells: seq<nat>, p: CuckooParams)
    requires p.Legal() && Mirrors(db, v, p) && fp < Pow2(p.fingerprintBits) && |cells| == p.ValueSizeInCells()
    requires b < p.numBuckets && s < p.bucketSize && v[b][s].fingerprint == 0
    ensures Tracked(db, Filling(b, s, fp, cells, p), p) <==> v[b][s].value == Clear(p.valueBits)
  {
    var m := Filling(b, s, fp, cells, p);
    TracksIffRecords(db, m, p);
    MirrorsRecords(db, v, m, p);
    ZeroValue(m.oldValueCells, p);
  }
}
