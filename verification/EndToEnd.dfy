/** From the store to the clients: what decoding returns is what the store holds for the key. */
module EndToEnd {
  import opened Words
  import opened Geometry
  import opened Lwe
  import opened Fields
  import opened SlotCodec
  import opened ValueCodec
  import opened Scheme
  import opened FilterClasses
  import opened CellTable
  import opened HintFold
  import opened StoreLog
  import opened StoreSpec
  import opened Lookup
  import opened Messages
  import opened ClientSpec
  import opened ClientSync
  import opened Protocol
  import Store

  /** The class of a key. */
  ghost function KeyClass(p: CuckooParams, digest: nat): Class
    requires p.Legal() && SchemeOf(p).Valid()
  {
    ItemClass(SchemeOf(p), p.fingerprintBits, digest)
  }

  /** The key's candidate bucket in segment `j`. */
  function KeyBucket(p: CuckooParams, digest: nat, j: nat): nat
    requires p.Legal() && j < 4
  {
    SchemeOf(p).HashItem(digest, p.fingerprintBits).1[j]
  }

  /** The queried row of segment `j` is that bucket. */
  lemma {:induction false} KeyBucketRow(p: CuckooParams, digest: nat, j: nat)
    requires p.Legal() && SchemeOf(p).Valid() && j < p.Arity()
    ensures KeyBucket(p, digest, j) < p.numBuckets
    ensures SegmentOf(KeyBucket(p, digest, j), p) == j && RowOf(KeyBucket(p, digest, j), p) == KeyRow(p, digest, j)
    ensures ClassAt(SchemeOf(p), KeyBucket(p, digest, j), KeyFingerprint(p, digest)) == KeyClass(p, digest)
  {
    KeyRowIsCandidate(p, digest, j);
    ItemCandidates(SchemeOf(p), digest, p.fingerprintBits);
    hide KeyRow, Scheme.HashItem, Scheme.AllIndices, ItemClass, ClassAt, Scheme.Valid;
    DivModUnique(KeyBucket(p, digest, j), p.SegmentSize(), j, KeyRow(p, digest, j));
  }

  /** A slot seen in its row and in the table. */
  lemma {:induction false} SlotAgrees(db: Database, v: View, p: CuckooParams, b: nat, s: nat)
    requires p.Legal() && Mirrors(db, v, p) && b < p.numBuckets && s < p.bucketSize
    ensures SegmentOf(b, p) < |db| && RowOf(b, p) < |db[SegmentOf(b, p)]|
    ensures var row := db[SegmentOf(b, p)][RowOf(b, p)];
            && |row| == p.RowWidth()
            && SlotFingerprint(row, s, p) == v[b][s].fingerprint && SlotValue(row, s, p) == v[b][s].value
  {
    SlotInRange(b, s, p);
    var row := db[SegmentOf(b, p)][RowOf(b, p)];
    assert SlotCells(row, s, p) == SlotCellsOf(db, b, s, p);
    SlotHolds(SlotCells(row, s, p), p);
    SlotBitsParts(v[b][s], p);
    assert Flat(SlotCellsOf(db, b, s, p), p.plaintextBits) == SlotBits(v[b][s], p);
  }

  /** The rows a look-up scans match where the candidate buckets hold the fingerprint. */
  lemma {:induction false} MatchIff(ver: Version, v: View, digest: nat, j: nat, s: nat, p: CuckooParams, dim: nat)
    requires p.Legal() && SchemeOf(p).Valid() && VersionOk(ver, p, dim) && Mirrors(ver.db, v, p)
    requires RowsOk(CandidateRows(ver, digest, p, dim), p) && j < p.Arity() && s < p.bucketSize
    ensures KeyBucket(p, digest, j) < |v| && s < |v[KeyBucket(p, digest, j)]|
    ensures var rows, slot := CandidateRows(ver, digest, p, dim), v[KeyBucket(p, digest, j)][s];
            && (Matches(rows, j, s, KeyFingerprint(p, digest), p) <==> slot.fingerprint == KeyFingerprint(p, digest))
            && SlotValue(rows[j], s, p) == slot.value
  {
    KeyBucketRow(p, digest, j);
    SlotAgrees(ver.db, v, p, KeyBucket(p, digest, j), s);
  }

  /** The class is held with a wanted value iff some candidate slot has the fingerprint and such a value. */
  lemma {:induction false} HeldIffSlot(v: View, digest: nat, want: Option<seq<bool>>, p: CuckooParams)
    requires p.Legal() && SchemeOf(p).Valid() && ViewOk(v, p)
    ensures KeyClass(p, digest) in Holding(SchemeOf(p), v, want)
       <==> exists j: nat, s: nat :: InSlot(v, digest, want, j, s, p)
  {
    var sc, prints := SchemeOf(p), Prints(v, want);
    ItemMember(sc, prints, p.fingerprintBits, digest);
    KeyBucketRow(p, digest, 0);
    var fp, indices := KeyFingerprint(p, digest), sc.HashItem(digest, p.fingerprintBits).1;
    ItemCandidates(sc, digest, p.fingerprintBits);
    assert fp > 0 && sc.HashItem(digest, p.fingerprintBits).0 == fp;
    hide Scheme.HashItem, Scheme.AllIndices, Scheme.Valid, ItemClass, Classes, KeyFingerprint, Prints;
    forall k | 0 <= k < p.Arity()
      ensures fp in prints[indices[k]] <==> exists s: nat :: InSlot(v, digest, want, k, s, p)
    {
      assert indices[k] == KeyBucket(p, digest, k);
      BucketHas(v, digest, want, k, p);
    }
    if j: nat, s: nat :| InSlot(v, digest, want, j, s, p) { assert fp in prints[indices[j]]; }
  }

  /** Slot `s` of candidate bucket `j` holds the key's fingerprint with a wanted value. */
  ghost predicate InSlot(v: View, digest: nat, want: Option<seq<bool>>, j: nat, s: nat, p: CuckooParams)
    requires p.Legal()
  {
    && j < p.Arity() && s < p.bucketSize && KeyBucket(p, digest, j) < |v| && s < |v[KeyBucket(p, digest, j)]|
    && v[KeyBucket(p, digest, j)][s].fingerprint == KeyFingerprint(p, digest)
    && Wanted(v[KeyBucket(p, digest, j)][s].value, want)
  }

  lemma {:induction false} BucketHas(v: View, digest: nat, want: Option<seq<bool>>, j: nat, p: CuckooParams)
    requires p.Legal() && ViewOk(v, p) && j < p.Arity() && KeyBucket(p, digest, j) < |v|
         && KeyFingerprint(p, digest) > 0
    ensures KeyFingerprint(p, digest) in Prints(v, want)[KeyBucket(p, digest, j)]
         <==> exists s: nat :: InSlot(v, digest, want, j, s, p)
  {
    hide KeyFingerprint, KeyBucket;
    var row, b, fp := Prints(v, want)[KeyBucket(p, digest, j)], KeyBucket(p, digest, j), KeyFingerprint(p, digest);
    forall s: nat | s < p.bucketSize ensures row[s] == fp <==> InSlot(v, digest, want, j, s, p) {
      assert row[s] == PrintOf(v[b][s], want);
    }
    if fp in row {
      var s :| 0 <= s < |row| && row[s] == fp;
      assert InSlot(v, digest, want, j, s, p);
    }
    if s: nat :| InSlot(v, digest, want, j, s, p) { assert row[s] == fp; }
  }

  /** Two candidate slots with the fingerprint make two entries of the class. */
  lemma {:induction false} TwoSlotsTwoEntries(v: View, digest: nat, j: nat, s: nat, j': nat, s': nat, p: CuckooParams)
    requires p.Legal() && SchemeOf(p).Valid() && ViewOk(v, p) && KeyFingerprint(p, digest) != 0
    requires InSlot(v, digest, None, j, s, p) && InSlot(v, digest, None, j', s', p) && (j != j' || s != s')
    ensures Holding(SchemeOf(p), v, None)[KeyClass(p, digest)] >= 2
  {
    KeyBucketRow(p, digest, j);
    KeyBucketRow(p, digest, j');
    var sc, b, empty := SchemeOf(p), KeyBucket(p, digest, j), Slot(0, [], []);
    var c, slot := KeyClass(p, digest), v[b][s];
    hide KeyBucket, KeyFingerprint, KeyRow, KeyClass, Holding, ClassAt;
    var cleared := SetSlot(v, b, s, slot.(fingerprint := 0));
    ClearRemovesEntry(sc, v, b, s, slot.(fingerprint := 0));
    assert InSlot(cleared, digest, None, j', s', p);
    HeldIffSlot(cleared, digest, None, p);
    assert Holding(sc, v, None) == Holding(sc, cleared, None) + One(c, slot.value, None);
  }

  /** What decoding returns for a key: nothing iff no entry of its class is stored; and if exactly one
      is, the bytes of that entry's value. */
  lemma {:induction false} LookupIsStored(res: Option<seq<Byte>>, ver: Version, v: View, digest: nat, p: CuckooParams,
                                          dim: nat)
    requires Served(p) && SchemeOf(p).Valid() && VersionOk(ver, p, dim) && Mirrors(ver.db, v, p)
    requires RowsOk(CandidateRows(ver, digest, p, dim), p)
    requires IsLookup(res, CandidateRows(ver, digest, p, dim), KeyFingerprint(p, digest), p)
    ensures res.Some? <==> KeyClass(p, digest) in Holding(SchemeOf(p), v, None)
    ensures forall value :: Holding(SchemeOf(p), v, None)[KeyClass(p, digest)] == 1
                            && KeyClass(p, digest) in Holding(SchemeOf(p), v, Some(value)) ==>
              res.Some? && AreValueBytes(res.value, value)
  {
    MatchesAreSlots(ver, v, digest, p, dim);
    HeldIffSlot(v, digest, None, p);
    KeyRowIsCandidate(p, digest, 0);
    var rows, fp, c := CandidateRows(ver, digest, p, dim), KeyFingerprint(p, digest), KeyClass(p, digest);
    forall value | Holding(SchemeOf(p), v, None)[c] == 1 && c in Holding(SchemeOf(p), v, Some(value))
      ensures res.Some? && AreValueBytes(res.value, value)
    {
      HeldIffSlot(v, digest, Some(value), p);
      var j: nat, s: nat :| InSlot(v, digest, Some(value), j, s, p);
      MatchIff(ver, v, digest, j, s, p, dim);
      forall j': nat, s': nat | Matches(rows, j', s', fp, p) ensures j' == j && s' == s {
        if j' != j || s' != s { TwoSlotsTwoEntries(v, digest, j, s, j', s', p); }
      }
      SingleMatch(res, rows, j, s, fp, p);
    }
  }

  lemma {:induction false} MatchesAreSlots(ver: Version, v: View, digest: nat, p: CuckooParams, dim: nat)
    requires p.Legal() && SchemeOf(p).Valid() && VersionOk(ver, p, dim) && Mirrors(ver.db, v, p)
    requires RowsOk(CandidateRows(ver, digest, p, dim), p)
    ensures forall j: nat, s: nat :: Matches(CandidateRows(ver, digest, p, dim), j, s, KeyFingerprint(p, digest), p)
                                <==> InSlot(v, digest, None, j, s, p)
  {
    forall j: nat, s: nat
      ensures Matches(CandidateRows(ver, digest, p, dim), j, s, KeyFingerprint(p, digest), p)
           <==> InSlot(v, digest, None, j, s, p)
    {
      if j < p.Arity() && s < p.bucketSize { MatchIff(ver, v, digest, j, s, p, dim); }
    }
  }

  /** What one insert of an absent class put in is what decoding brings back, byte for byte. */
  lemma {:induction false} InsertedIsRead(v0: View, v: View, ver: Version, digest: nat, bytes: seq<Byte>,
                                          res: Option<seq<Byte>>,
                                          p: CuckooParams, dim: nat)
    requires Served(p) && SchemeOf(p).Valid() && ViewOk(v0, p) && VersionOk(ver, p, dim) && Mirrors(ver.db, v, p)
    requires CleanBytes(bytes, p) && Adds(SchemeOf(p), v0, v, KeyClass(p, digest), ValueBitsOf(bytes, p))
    requires KeyClass(p, digest) !in Holding(SchemeOf(p), v0, None)
    requires RowsOk(CandidateRows(ver, digest, p, dim), p)
    requires IsLookup(res, CandidateRows(ver, digest, p, dim), KeyFingerprint(p, digest), p)
    ensures res == Some(bytes)
  {
    var sc, c, value := SchemeOf(p), KeyClass(p, digest), ValueBitsOf(bytes, p);
    LookupIsStored(res, ver, v, digest, p, dim);
    assert Holding(sc, v, None) == Holding(sc, v0, None) + One(c, value, None);
    assert Holding(sc, v, Some(value)) == Holding(sc, v0, Some(value)) + One(c, value, Some(value));
    ValueBytesUnique(bytes, res.value, p);
  }

  /** After an update of a class held exactly once, decoding brings back the new bytes. */
  lemma {:induction false} UpdatedIsRead(store: Store.Store, v0: View, v: View, ver: Version, digest: nat,
                                         bytes: seq<Byte>, res: Option<seq<Byte>>, dim: nat)
    requires Served(store.p) && SchemeOf(store.p).Valid() && ViewOk(v0, store.p) && VersionOk(ver, store.p, dim)
    requires Mirrors(ver.db, v, store.p)
    requires CleanBytes(bytes, store.p) && store.Updated(v0, digest, bytes, v)
    requires Holding(SchemeOf(store.p), v0, None)[KeyClass(store.p, digest)] == 1
    requires RowsOk(CandidateRows(ver, digest, store.p, dim), store.p)
    requires IsLookup(res, CandidateRows(ver, digest, store.p, dim), KeyFingerprint(store.p, digest), store.p)
    ensures res == Some(bytes)
  {
    var p := store.p;
    var sc, c, value := SchemeOf(p), KeyClass(p, digest), ValueBitsOf(bytes, p);
    LookupIsStored(res, ver, v, digest, p, dim);
    HeldWithNewValue(store, v0, v, digest, bytes);
    ValueBytesUnique(bytes, res.value, p);
  }

  lemma {:induction false} HeldWithNewValue(store: Store.Store, v0: View, v: View, digest: nat, bytes: seq<Byte>)
    requires store.p.Legal() && SchemeOf(store.p).Valid() && ViewOk(v0, store.p) && ViewOk(v, store.p)
    requires |bytes| == store.p.ValueSizeInBytes() && store.Updated(v0, digest, bytes, v)
    ensures Holding(SchemeOf(store.p), v, None) == Holding(SchemeOf(store.p), v0, None)
    ensures KeyClass(store.p, digest) in Holding(SchemeOf(store.p), v, Some(ValueBitsOf(bytes, store.p)))
  {
    var p := store.p;
    var sc, c, value := SchemeOf(p), KeyClass(p, digest), ValueBitsOf(bytes, p);
    hide KeyBucket, KeyFingerprint, Holding, ItemClass, InSlot, SetSlot, Store.Store.FoundAt, Scheme.Valid, ValueBitsOf;
    var fp: nat, b: nat, s: nat :|
      && store.FoundAt(v0, digest, fp, b, s) && v == SetSlot(v0, b, s, v0[b][s].(value := value))
      && Carries(sc, v0, c, value, v, c, v0[b][s].value);
    CarriedOver(sc, v0, v, c, value, v0[b][s].value);
    FoundInSlot(store, v0, digest, fp, b, s);
    var j: nat :| InSlot(v0, digest, None, j, s, p) && KeyBucket(p, digest, j) == b;
    InNewSlot(v0, v, digest, value, j, s, p);
    HeldIffSlot(v, digest, Some(value), p);
  }

  lemma {:induction false} CarriedOver(sc: Scheme, v0: View, v: View, c: Class, value0: seq<bool>, value: seq<bool>)
    requires |v0| <= sc.NumBuckets() && |v| <= sc.NumBuckets() && Carries(sc, v0, c, value0, v, c, value)
    ensures Holding(sc, v, None) == Holding(sc, v0, None)
  {
    hide Holding;
    var before, after := Holding(sc, v0, None), Holding(sc, v, None);
    assert after + One(c, value, None) == before + One(c, value0, None);
    assert (after + multiset{c}) - multiset{c} == after && (before + multiset{c}) - multiset{c} == before;
  }

  lemma {:induction false} InNewSlot(v0: View, v: View, digest: nat, value: seq<bool>, j: nat, s: nat, p: CuckooParams)
    requires p.Legal() && InSlot(v0, digest, None, j, s, p)
    requires var b := KeyBucket(p, digest, j); v == SetSlot(v0, b, s, v0[b][s].(value := value))
    ensures InSlot(v, digest, Some(value), j, s, p)
  {
    hide KeyBucket, KeyFingerprint;
  }

  lemma {:induction false} FoundInSlot(store: Store.Store, v: View, digest: nat, fp: nat, b: nat, s: nat)
    requires store.p.Legal() && SchemeOf(store.p).Valid() && ViewOk(v, store.p)
    requires store.FoundAt(v, digest, fp, b, s)
    ensures exists j: nat :: InSlot(v, digest, None, j, s, store.p) && KeyBucket(store.p, digest, j) == b
  {
    hide Scheme.HashItem, ClassAt, ItemClass, Scheme.Valid;
    var indices := SchemeOf(store.p).HashItem(digest, store.p.fingerprintBits).1;
    var j: nat :| j < store.p.Arity() && indices[j] == b;
    assert KeyBucket(store.p, digest, j) == b && KeyFingerprint(store.p, digest) == fp;
    assert InSlot(v, digest, None, j, s, store.p);
  }

  /** After a delete, decoding finds something iff the class was held more than once. */
  lemma {:induction false} DeletedIsGone(store: Store.Store, v0: View, v: View, ver: Version, digest: nat,
                                         res: Option<seq<Byte>>, dim: nat)
    requires Served(store.p) && SchemeOf(store.p).Valid() && ViewOk(v0, store.p) && VersionOk(ver, store.p, dim)
    requires Mirrors(ver.db, v, store.p) && store.Removed(v0, digest, v)
    requires RowsOk(CandidateRows(ver, digest, store.p, dim), store.p)
    requires IsLookup(res, CandidateRows(ver, digest, store.p, dim), KeyFingerprint(store.p, digest), store.p)
    ensures res.Some? <==> Holding(SchemeOf(store.p), v0, None)[KeyClass(store.p, digest)] > 1
  {
    var p := store.p;
    var sc, c := SchemeOf(p), KeyClass(p, digest);
    LookupIsStored(res, ver, v, digest, p, dim);
    hide IsLookup, RowsOk, Holding, Mirrors;
    var fp: nat, b: nat, s: nat :|
      && store.FoundAt(v0, digest, fp, b, s) && v == SetSlot(v0, b, s, WithEntry(v0[b][s], 0, Clear(p.valueBits)))
      && Adds(sc, v, v0, c, v0[b][s].value);
    assert Holding(sc, v0, None) == Holding(sc, v, None) + One(c, v0[b][s].value, None);
  }

  /** The outcome for a key, in terms of the slots of the version decoded. */
  ghost predicate ReadsStored(r: Outcome<Option<seq<Byte>>>, v: View, digest: nat, p: CuckooParams)
    requires p.Legal() && SchemeOf(p).Valid() && ViewOk(v, p)
  {
    && r.Done?
    && (r.value.Some? <==> KeyClass(p, digest) in Holding(SchemeOf(p), v, None))
    && forall value :: Holding(SchemeOf(p), v, None)[KeyClass(p, digest)] == 1
                       && KeyClass(p, digest) in Holding(SchemeOf(p), v, Some(value)) ==>
         r.value.Some? && AreValueBytes(r.value.value, value)
  }

  /** In every run, the rewind client reads what the store held at the epoch of its query. */
  lemma {:induction false} RewindReadsStored(worlds: seq<World>, events: seq<Event>, p: CuckooParams, dim: nat, i: nat,
                                             r: Outcome<Option<seq<Byte>>>, v: View)
    requires Served(p) && SchemeOf(p).Valid() && Protocol.Run(worlds, events, p, dim) && i < |worlds|
    requires NoiseBounded(p.SegmentSize(), p.plaintextBits)
    requires worlds[i].rewindAsk.Some? && RewindMayReturn(worlds[i], worlds[i].rewind, r, p, dim)
    requires var w, e := worlds[i], worlds[i].rewind.epoch;
             w.rewindAsk.value.query.epoch == e < |w.h| && Mirrors(w.h[e].db, v, p)
    ensures ReadsStored(r, v, worlds[i].rewindAsk.value.digest, p)
  {
    var w := worlds[i];
    RewindEndToEnd(worlds, events, p, dim, i, r);
    hide KeyFingerprint, KeyClass, Holding, Protocol.Run, Mirrors, RewindMayReturn;
    LookupIsStored(r.value, w.h[w.rewind.epoch], v, w.rewindAsk.value.digest, p, dim);
  }

  /** And so does the hint-patching client. */
  lemma {:induction false} PatchReadsStored(worlds: seq<World>, events: seq<Event>, p: CuckooParams, dim: nat, i: nat,
                                            r: Outcome<Option<seq<Byte>>>, v: View)
    requires Served(p) && SchemeOf(p).Valid() && Protocol.Run(worlds, events, p, dim) && i < |worlds|
    requires NoiseBounded(p.SegmentSize(), p.plaintextBits)
    requires worlds[i].patchAsk.Some? && PatchMayReturn(worlds[i], r, p, dim)
    requires var w, e := worlds[i], worlds[i].patch.epoch;
             w.patchAsk.value.query.epoch == e < |w.h| && Mirrors(w.h[e].db, v, p)
    ensures ReadsStored(r, v, worlds[i].patchAsk.value.digest, p)
  {
    var w := worlds[i];
    PatchEndToEnd(worlds, events, p, dim, i, r);
    hide KeyFingerprint, KeyClass, Holding, Protocol.Run, Mirrors, PatchMayReturn;
    LookupIsStored(r.value, w.h[w.patch.epoch], v, w.patchAsk.value.digest, p, dim);
  }
}
