/** The key-value store: a cuckoo table of fingerprints and values that logs every slot it rewrites.

    Random choices are arbitrary, and an item is given by its 128-bit digest. */
module Store {
  import opened Words
  import opened Geometry
  import opened Fields
  import opened SlotCodec
  import opened Scheme
  import opened FilterClasses
  import opened CellTable
  import opened ValueCodec
  import opened HintFold
  import opened StoreLog
  import opened StoreSpec
  import opened CuckooFilter
  import opened KickChains

  /** What one kick displaced. */
  datatype Displaced = Displaced(bucket: nat, slot: nat, fingerprint: nat, value: seq<nat>)

  /** What a mutation displaced. */
  ghost function DisplacedBy(m: SlotMutation): Displaced {
    Displaced(m.bucket, m.slot, m.oldFingerprint, m.oldValueCells)
  }

  /** The kicks of a chain, values aside. */
  ghost function KicksOf(chain: seq<Displaced>): (r: seq<Kick>)
    ensures |r| == |chain|
    ensures forall i :: 0 <= i < |r| ==> r[i] == Kick(chain[i].bucket, chain[i].slot, chain[i].fingerprint)
  {
    seq(|chain|, i requires 0 <= i < |chain| => Kick(chain[i].bucket, chain[i].slot, chain[i].fingerprint))
  }

  lemma {:induction false} KicksMore(chain: seq<Displaced>, d: Displaced)
    ensures KicksOf(chain + [d]) == KicksOf(chain) + [Kick(d.bucket, d.slot, d.fingerprint)]
  {
  }

  ghost predicate ChainOf(chain: seq<Displaced>, muts: seq<SlotMutation>) {
    |chain| == |muts| && forall i :: 0 <= i < |chain| ==> chain[i] == DisplacedBy(muts[i])
  }

  /** The first `i` mutations of a consistent log are still in force. */
  ghost predicate Unrolled(v0: View, muts: seq<SlotMutation>, i: nat, v: View, p: CuckooParams)
    requires p.Legal()
  {
    && i <= |muts| && ViewOk(v0, p) && LogFits(muts[..i], p)
    && ConsistentIn(v0, muts[..i], p) && ReplayIn(v0, muts[..i], p) == v
  }

  lemma {:induction false} UndoNext(v0: View, muts: seq<SlotMutation>, i: nat, v: View, p: CuckooParams)
    requires p.Legal() && i > 0 && ViewOk(v, p) && Unrolled(v0, muts, i, v, p)
    ensures i <= |muts| && MutationFits(muts[i - 1], p)
    ensures var m := muts[i - 1];
            Unrolled(v0, muts, i - 1,
                     SetSlot(v, m.bucket, m.slot,
                             WithEntry(v[m.bucket][m.slot], m.oldFingerprint, ValueOfCells(m.oldValueCells, p))), p)
  {
    UndoLast(v0, muts[..i], p);
    assert muts[..i][..i - 1] == muts[..i - 1] && muts[..i][i - 1] == muts[i - 1];
  }

  lemma {:induction false} AllInForce(v0: View, c0: Class, value0: seq<bool>, muts: seq<SlotMutation>, v: View,
                                      c: Class, value: seq<bool>,
                                      p: CuckooParams)
    requires p.Legal() && Kicked(v0, c0, value0, muts, v, c, value, p)
    ensures Unrolled(v0, muts, |muts|, v, p)
  {
    assert muts[..|muts|] == muts;
  }

  lemma {:induction false} NothingLeft(v0: View, muts: seq<SlotMutation>, v: View, p: CuckooParams)
    requires p.Legal() && Unrolled(v0, muts, 0, v, p)
    ensures v == v0
  {
  }

  class Store {
    const p: CuckooParams
    const table: Table
    var numItems: nat
    var maxKicks: nat
    var log: seq<SlotMutation>
    var curValue: seq<nat>
    var chain: seq<Displaced>
    var pending: seq<SlotMutation>

    ghost predicate Shape()
      reads table.cells
    {
      && p.Legal() && table.p == p && table.Valid() && table.cells.Length == TotalCells(p)
      && SchemeOf(p).Valid()
    }

    ghost predicate Valid()
      reads this`numItems, table.cells
    {
      && Shape()
      && numItems == |Holding(SchemeOf(p), Slots(), None)|
    }

    ghost function Slots(): (v: View)
      reads table.cells
      requires Shape()
      ensures ViewOk(v, p)
    {
      ViewIsOk(table.Payload(), p);
      table.Slots()
    }

    /** Some entry of the item's class is stored. */
    ghost predicate Has(digest: nat)
      reads table.cells
      requires Shape()
    {
      ClassOf(digest) in Holding(SchemeOf(p), Slots(), None)
    }

    /** The class of an item. */
    ghost function ClassOf(digest: nat): Class
      requires p.Legal() && SchemeOf(p).Valid()
    {
      ItemClass(SchemeOf(p), p.fingerprintBits, digest)
    }

    /** The rows a server serves from this store. */
    ghost function Rows(): (db: Database)
      reads table.cells
      requires Shape()
      ensures DatabaseOk(db, p) && Mirrors(db, Slots(), p)
    {
      TableMirrors(table.cells[..], p);
      DatabaseOf(table.cells[..], p)
    }

    /** An empty store. */
    constructor New(p: CuckooParams)
      requires p.Legal() && SchemeOf(p).Valid()
      ensures Valid() && fresh(table) && fresh(table.cells) && this.p == p
      ensures numItems == 0 && maxKicks == 500 && log == [] && ZeroEmpty(Slots(), p)
    {
      this.p := p;
      table := new Table.New(p);
      numItems, maxKicks, log, curValue, chain, pending := 0, MAX_KICKS_DEFAULT, [], [], [], [];
      new;
      EmptyHolding(SchemeOf(p), Slots(), p.bucketSize);
    }

    /** A store over restored cells; the caller vouches for the number of items. */
    constructor Restore(table: Table, numItems: nat)
      requires table.p.Legal() && SchemeOf(table.p).Valid() && table.Valid()
           && table.cells.Length == TotalCells(table.p)
      requires numItems == |Holding(SchemeOf(table.p), table.Slots(), None)|
      ensures Valid() && this.p == table.p && this.table == table && this.numItems == numItems && log == []
           && maxKicks == 500
    {
      this.p, this.table, this.numItems := table.p, table, numItems;
      maxKicks, log, curValue, chain, pending := MAX_KICKS_DEFAULT, [], [], [], [];
    }

    method SetMaxKicks(n: nat)
      requires Valid()
      modifies this`maxKicks
      ensures Valid() && maxKicks == n && Slots() == old(Slots()) && log == old(log)
    {
      maxKicks := n;
    }

    /** Hand over the log and start an empty one. */
    method DrainMutations() returns (muts: seq<SlotMutation>)
      requires Valid()
      modifies this`log
      ensures Valid() && muts == old(log) && log == [] && Slots() == old(Slots())
    {
      muts := log;
      log := [];
    }

    /** The cells of a slot's value. */
    method ReadCells(bucket: nat, slot: nat) returns (value: seq<nat>)
      requires Shape() && bucket < p.numBuckets && slot < p.bucketSize
      ensures |value| == p.ValueSizeInCells() && ValueOfCells(value, p) == Slots()[bucket][slot].value
    {
      var buffer := new nat[p.ValueSizeInCells()];
      table.ReadValue(bucket, slot, buffer);
      CellsHoldValue(buffer[..], Slots()[bucket][slot].value, p);
      value := buffer[..];
    }

    /** Pack a value's bytes into the current value. */
    method Load(bytes: seq<Byte>)
      requires p.Legal() && |bytes| == p.ValueSizeInBytes()
      modifies this`curValue
      ensures |curValue| == p.ValueSizeInCells() && ValueOfCells(curValue, p) == ValueBitsOf(bytes, p)
    {
      var buffer := new nat[p.ValueSizeInCells()];
      PackValueBytes(p, bytes, buffer);
      curValue := buffer[..];
    }

    /** Try the candidate buckets in order, skipping position `skip`. */
    method PlaceInFirstFree(indices: seq<nat>, fingerprint: nat, skip: nat, ghost c: Class)
        returns (placed: Option<(nat, nat)>, ghost at: nat)
      requires Shape() && Candidates(SchemeOf(p), indices, fingerprint, p.fingerprintBits, c)
           && |curValue| == p.ValueSizeInCells()
      modifies table.cells
      ensures Shape()
      ensures placed.Some? ==>
                var (b, s) := placed.value;
                && b < p.numBuckets && s < p.bucketSize && ClassAt(SchemeOf(p), b, fingerprint) == c
                && old(Slots())[b][s].fingerprint == 0
                && Slots() == SetSlot(old(Slots()), b, s,
                                      WithEntry(old(Slots())[b][s], fingerprint, ValueOfCells(curValue, p)))
      ensures placed.Some? ==>
                && FirstFree(Prints(old(Slots()), None), indices, p.Arity(), skip, at, placed.value.1)
                && indices[at] == placed.value.0
      ensures placed.None? ==> table.cells[..] == old(table.cells[..])
      ensures placed.None? ==> forall k :: 0 <= k < p.Arity() && k != skip ==> Full(Slots(), indices[k])
    {
      hide SchemeOf, ClassAt, SetSlot, ValueOfCells, Prints, FirstFree;
      for pos := 0 to p.Arity()
        invariant Shape() && table.cells[..] == old(table.cells[..])
        invariant forall k :: 0 <= k < pos && k != skip ==> Full(Slots(), indices[k])
      {
        if pos != skip {
          var slot := table.Insert(indices[pos], fingerprint, curValue);
          if slot.Some? {
            FirstFreePrint(old(Slots()), indices, skip, pos, slot.value);
            return Some((indices[pos], slot.value)), pos;
          }
        }
      }
      return None, 0;
    }

    /** The first empty slot of the first bucket with room, seen in the fingerprints. */
    lemma {:induction false} FirstFreePrint(v: View, indices: seq<nat>, skip: nat, at: nat, slot: nat)
      requires p.Legal() && ViewOk(v, p) && at < p.Arity() <= |indices| && at != skip
      requires forall k :: 0 <= k < p.Arity() ==> indices[k] < |v|
      requires forall k :: 0 <= k < at && k != skip ==> Full(v, indices[k])
      requires IsFirst(v[indices[at]], 0, Some(slot))
      ensures FirstFree(Prints(v, None), indices, p.Arity(), skip, at, slot)
    {
    }

    /** A kick chain from `v0` for the entry (`c0`, `value0`) has (`fingerprint`, `curValue`) in hand at
        the full bucket `cur`. */
    ghost predicate InHand(cur: nat, fingerprint: nat, v0: View, c0: Class, value0: seq<bool>)
      reads this`curValue, this`chain, this`pending, table.cells
    {
      && Shape() && cur < p.numBuckets && Full(Slots(), cur)
      && 0 < fingerprint < Pow2(p.fingerprintBits) && |curValue| == p.ValueSizeInCells()
      && Kicked(v0, c0, value0, pending, Slots(), ClassAt(SchemeOf(p), cur, fingerprint), ValueOfCells(curValue, p), p)
      && ChainOf(chain, pending)
    }

    /** The kicks so far came to nothing, and led to these slots with this fingerprint in hand. */
    ghost predicate Trying(cur: nat, fingerprint: nat, v0: View, c0: Class)
      reads this`chain, table.cells
      requires Shape()
    {
      UnderWay(SchemeOf(p), Prints(v0, None), c0, KicksOf(chain), Prints(Slots(), None), cur, fingerprint)
    }

    /** Exchange the entry in hand for that of a random slot of the full bucket `cur`. */
    method Evict(cur: nat, fingerprint: nat, ghost v0: View, ghost c0: Class, ghost value0: seq<bool>)
        returns (evicted: nat, ghost slot: nat)
      requires InHand(cur, fingerprint, v0, c0, value0)
      modifies this`curValue, this`chain, this`pending, table.cells
      ensures InHand(cur, evicted, v0, c0, value0)
      ensures slot < p.bucketSize && evicted == old(Prints(Slots(), None))[cur][slot]
      ensures Prints(Slots(), None) == SetSlot(old(Prints(Slots(), None)), cur, slot, fingerprint)
      ensures KicksOf(chain) == old(KicksOf(chain)) + [Kick(cur, slot, evicted)]
    {
      hide SchemeOf, ClassAt, ValueOfCells, Kicked;
      var at: nat :| at < p.bucketSize;
      slot := at;
      evicted := table.ReadFingerprint(cur, at);
      var value := ReadCells(cur, at);
      KicksMore(chain, Displaced(cur, at, evicted, value));
      chain := chain + [Displaced(cur, at, evicted, value)];
      var m := SlotMutation(cur, at, evicted, value, fingerprint, curValue);
      KickMore(v0, c0, value0, pending, Slots(), m, p);
      PrintsSet(Slots(), cur, at, WithEntry(Slots()[cur][at], fingerprint, ValueOfCells(curValue, p)), None);
      table.Write(cur, at, fingerprint, curValue);
      pending := pending + [m];
      curValue := value;
    }

    /** One kick: displace a random slot of `cur`, then try the alternatives of what was displaced. */
    method KickOnce(cur: nat, fingerprint: nat, ghost v0: View, ghost c0: Class, ghost value0: seq<bool>)
        returns (placed: bool, next: nat, evicted: nat)
      requires InHand(cur, fingerprint, v0, c0, value0) && Trying(cur, fingerprint, v0, c0)
      modifies this`curValue, this`chain, this`pending, table.cells
      ensures Shape()
      ensures placed ==> Inserted(v0, pending, Slots(), c0, value0, p)
      ensures !placed ==> InHand(next, evicted, v0, c0, value0) && Trying(next, evicted, v0, c0)
                          && |chain| == |old(chain)| + 1
    {
      hide Kicked, Inserted, ClassAt, Scheme.AllIndices, SchemeOf, Scheme.Valid, ValueOfCells, ChainOf, UnderWay,
           NoRoom, Prints, SetSlot, KicksOf, Scheme.Orbit, Alternative;
      ghost var slot;
      evicted, slot := Evict(cur, fingerprint, v0, c0, value0);
      var all := SchemeOf(p).AllIndices(cur, evicted);
      ghost var c := ClassAt(SchemeOf(p), cur, evicted);
      AreCandidates(SchemeOf(p), cur, evicted, p.fingerprintBits);
      var evictedPos := Position(all, p.Arity(), cur);
      ghost var before := Slots();
      ghost var hole;
      var found;
      found, hole := PlaceInFirstFree(all, evicted, evictedPos, c);
      if found.Some? {
        LogPlacement(found.value.0, found.value.1, evicted, before, c, v0, c0, value0);
        return true, cur, evicted;
      }
      var nextPos: nat :| nextPos < p.Arity() && nextPos != evictedPos;
      next := all[nextPos];
      NoRoomLeft(Slots(), cur, evicted, evictedPos);
      OtherPosition(SchemeOf(p), cur, evicted, evictedPos, nextPos);
      KickOn(SchemeOf(p), Prints(v0, None), c0, old(KicksOf(chain)), old(Prints(Slots(), None)), cur, fingerprint,
             slot, next);
      return false, next, evicted;
    }

    /** With the bucket kicked from and all its alternatives full, the orbit is full. */
    lemma {:induction false} NoRoomLeft(v: View, cur: nat, fingerprint: nat, skip: nat)
      requires p.Legal() && SchemeOf(p).Valid() && ViewOk(v, p) && cur < p.numBuckets && Full(v, cur)
      requires var all := SchemeOf(p).AllIndices(cur, fingerprint);
               && skip < p.Arity() && (cur in all[..p.Arity()] ==> all[skip] == cur)
               && forall k :: 0 <= k < p.Arity() && k != skip ==> all[k] < p.numBuckets && Full(v, all[k])
      ensures NoRoom(SchemeOf(p), Prints(v, None), cur, fingerprint)
    {
      var sc := SchemeOf(p);
      OrbitInRange(sc, cur, fingerprint);
      hide Scheme.AllIndices, Scheme.Valid, SchemeOf;
      forall b | b in sc.Orbit(cur, fingerprint) ensures b < |v| && 0 !in Prints(v, None)[b] {
        var k := OrbitPosition(sc, cur, fingerprint, b);
        PrintsOfBucket(v, b, 0);
      }
    }

    /** Add the final placement to the pending mutations. */
    method LogPlacement(b: nat, s: nat, fingerprint: nat, ghost before: View, ghost c: Class,
                        ghost v0: View, ghost c0: Class, ghost value0: seq<bool>)
      requires Shape() && b < p.numBuckets && s < p.bucketSize && |curValue| == p.ValueSizeInCells()
      requires 0 < fingerprint < Pow2(p.fingerprintBits) && ClassAt(SchemeOf(p), b, fingerprint) == c
      requires ViewOk(before, p) && before[b][s].fingerprint == 0
      requires Slots() == SetSlot(before, b, s, WithEntry(before[b][s], fingerprint, ValueOfCells(curValue, p)))
      requires Kicked(v0, c0, value0, pending, before, c, ValueOfCells(curValue, p), p)
      modifies this`pending
      ensures Shape() && Slots() == old(Slots())
      ensures Inserted(v0, pending, Slots(), c0, value0, p)
    {
      hide ClassAt, Scheme.AllIndices, SchemeOf, Scheme.Valid, ValueOfCells, Kicked, ReplayIn, ConsistentIn, Adds,
           ZeroEmpty, SetSlot;
      var m := SlotMutation(b, s, 0, Zeros(p.ValueSizeInCells()), fingerprint, curValue);
      PlaceEnds(v0, c0, value0, pending, before, m, p);
      pending := pending + [m];
    }

    /** Restore what the chain displaced, last kick first. */
    method Rollback(ghost cur: nat, ghost fingerprint: nat, ghost v0: View, ghost c0: Class, ghost value0: seq<bool>)
      requires InHand(cur, fingerprint, v0, c0, value0)
      modifies table.cells
      ensures Shape() && Slots() == v0
    {
      hide ValueOfCells, SetSlot, Kicked, Unrolled;
      ghost var muts := pending;
      var i := |chain|;
      AllInForce(v0, c0, value0, muts, Slots(), ClassAt(SchemeOf(p), cur, fingerprint), ValueOfCells(curValue, p), p);
      while i > 0
        invariant 0 <= i <= |chain| && Shape() && ChainOf(chain, muts) && Unrolled(v0, muts, i, Slots(), p)
      {
        UndoNext(v0, muts, i, Slots(), p);
        i := i - 1;
        var d := chain[i];
        table.Write(d.bucket, d.slot, d.fingerprint, d.value);
      }
      NothingLeft(v0, muts, Slots(), p);
    }

    /** Add an entry for the item, and log every slot rewritten; or fail, with every cell as it was
        and nothing logged.  It cannot fail for want of room while a candidate bucket has an empty slot. */
    method Insert(digest: nat, value: seq<Byte>) returns (r: CuckooFilter.Result<()>, ghost added: seq<SlotMutation>)
      requires Valid()
      modifies this`numItems, this`log, this`curValue, this`chain, this`pending, table.cells
      ensures Valid()
      ensures r == Err(InvalidParams) <==> |value| != p.ValueSizeInBytes()
      ensures log == old(log) + added && (r.Err? ==> added == [] && table.cells[..] == old(table.cells[..]))
      ensures r.Err? ==> Slots() == old(Slots()) && Rows() == old(Rows())
      ensures r.Err? && r.error != InvalidParams ==>
                r.error == TableFull && forall b :: b in ClassOf(digest).orbit ==> b < p.numBuckets && Full(Slots(), b)
      ensures r.Err? && r.error != InvalidParams ==>
                GivesUp(SchemeOf(p), Prints(old(Slots()), None), ClassOf(digest), maxKicks)
      ensures |value| == p.ValueSizeInBytes() ==> TakesFirstFree(old(Slots()), digest, r.Ok?, Slots())
      ensures |value| == p.ValueSizeInBytes() && KickHelps(old(Slots()), digest, maxKicks) ==> r.Ok?
      ensures r.Ok? ==> Inserted(old(Slots()), added, Slots(), ClassOf(digest), ValueBitsOf(value, p), p)
      ensures r.Err? || old(ZeroEmpty(Slots(), p)) ==> Logged(old(Slots()), added, Slots(), p)
    {
      hide *;
      Counts();
      NothingLogged(Slots(), p);
      if |value| != p.ValueSizeInBytes() { return Err(InvalidParams), []; }
      ghost var v0, c, bits := Slots(), ClassOf(digest), ValueBitsOf(value, p);
      Load(value);
      KickHelpsIs(v0, digest, maxKicks);
      if KickHelps(v0, digest, maxKicks) { RelievedNeverGivesUp(SchemeOf(p), Prints(v0, None), c, maxKicks); }
      var placed := Place(digest, v0, c, bits);
      if !placed {
        Counts();
        return Err(TableFull), [];
      }
      if ZeroEmpty(v0, p) { InsertedLogged(v0, pending, Slots(), c, bits, p); }
      Commit(v0, c, bits);
      return Ok(()), pending;
    }

    /** Kicks are allowed, and any entry in the item's candidate buckets has room elsewhere. */
    ghost predicate KickHelps(v: View, digest: nat, kicks: nat)
      requires p.Legal() && SchemeOf(p).Valid()
    {
      kicks > 0 && Relieved(SchemeOf(p), Prints(v, None), ClassOf(digest))
    }

    lemma {:induction false} KickHelpsIs(v: View, digest: nat, kicks: nat)
      requires p.Legal() && SchemeOf(p).Valid()
      ensures KickHelps(v, digest, kicks) <==>
                kicks > 0 && Relieved(SchemeOf(p), Prints(v, None), ClassOf(digest))
    {
    }

    lemma {:induction false} Counts()
      ensures Valid() <==> Shape() && numItems == |Holding(SchemeOf(p), Slots(), None)|
      ensures Shape() ==> p.Legal() && SchemeOf(p).Valid()
    {
    }

    /** Place the loaded entry, kicking if need be, with the mutations pending; or leave every cell. */
    method Place(digest: nat, ghost v0: View, ghost c: Class, ghost value0: seq<bool>) returns (placed: bool)
      requires Shape() && v0 == Slots() && c == ClassOf(digest)
      requires |curValue| == p.ValueSizeInCells() && value0 == ValueOfCells(curValue, p)
      modifies this`curValue, this`chain, this`pending, table.cells
      ensures Shape()
      ensures placed ==> Inserted(v0, pending, Slots(), c, value0, p)
      ensures !placed ==> table.cells[..] == old(table.cells[..]) && Slots() == v0 && Rows() == old(Rows())
      ensures !placed ==> forall b :: b in c.orbit ==> b < p.numBuckets && Full(Slots(), b)
      ensures !placed ==> GivesUp(SchemeOf(p), Prints(v0, None), c, maxKicks)
      ensures TakesFirstFree(v0, digest, placed, Slots())
    {
      hide Kicked, Inserted, ClassAt, ItemClass, Scheme.HashItem, Scheme.AllIndices, SchemeOf, Scheme.Valid,
           ValueOfCells, ChainOf, TotalCells, GivesUp, Prints, FirstFree, FillsFirstFree;
      var (fingerprint, indices) := SchemeOf(p).HashItem(digest, p.fingerprintBits);
      ItemCandidates(SchemeOf(p), digest, p.fingerprintBits);
      pending := [];
      NothingKicked(v0, c, value0, p);
      ghost var at;
      var found;
      found, at := PlaceInFirstFree(indices, fingerprint, p.Arity(), c);
      if found.Some? {
        var (b, s) := found.value;
        LogPlacement(b, s, fingerprint, v0, c, v0, c, value0);
        PrintsSet(v0, b, s, WithEntry(v0[b][s], fingerprint, ValueOfCells(curValue, p)), None);
        FilledFirstFree(Prints(v0, None), indices, p.Arity(), fingerprint, Prints(Slots(), None), at, s);
        return true;
      }
      FullOrbit(digest, Slots());
      FullPrints(v0, indices);
      var start: nat :| start < p.Arity();
      placed := KickChain(indices[start], fingerprint, v0, c, value0);
      if !placed { SlotsDetermineCells(table.cells[..], old(table.cells[..]), p); }
      NoFirstFree(Prints(v0, None), indices, p.Arity(), fingerprint, placed, Prints(Slots(), None));
    }

    /** If a candidate bucket has room, the item's fingerprint goes to the first empty slot of the first
        such bucket, and every other fingerprint stays in place. */
    ghost predicate TakesFirstFree(v0: View, digest: nat, placed: bool, v: View)
      requires p.Legal() && SchemeOf(p).Valid()
    {
      var (fingerprint, indices) := SchemeOf(p).HashItem(digest, p.fingerprintBits);
      FillsFirstFree(Prints(v0, None), indices, p.Arity(), fingerprint, placed, Prints(v, None))
    }

    lemma {:induction false} FullPrints(v: View, indices: seq<nat>)
      requires p.Legal() && ViewOk(v, p) && p.Arity() <= |indices|
      requires forall k :: 0 <= k < p.Arity() ==> indices[k] < |v| && Full(v, indices[k])
      ensures forall k :: 0 <= k < p.Arity() ==> 0 !in Prints(v, None)[indices[k]]
    {
      forall k | 0 <= k < p.Arity() ensures 0 !in Prints(v, None)[indices[k]] { PrintsOfBucket(v, indices[k], 0); }
    }

    /** Kick until something is placed or the budget is spent, then roll back. */
    method KickChain(start: nat, fingerprint: nat, ghost v0: View, ghost c0: Class, ghost value0: seq<bool>)
        returns (placed: bool)
      requires Shape() && start < p.numBuckets && Full(Slots(), start) && v0 == Slots()
      requires 0 < fingerprint < Pow2(p.fingerprintBits) && |curValue| == p.ValueSizeInCells()
      requires c0 == ClassAt(SchemeOf(p), start, fingerprint) && value0 == ValueOfCells(curValue, p)
      modifies this`curValue, this`chain, this`pending, table.cells
      ensures Shape()
      ensures placed ==> Inserted(v0, pending, Slots(), c0, value0, p)
      ensures !placed ==> Slots() == v0 && GivesUp(SchemeOf(p), Prints(v0, None), c0, maxKicks)
    {
      var cur, inHand := start, fingerprint;
      chain, pending := [], [];
      StartChain(start, fingerprint, v0, c0, value0);
      hide *;
      for k := 0 to maxKicks
        invariant InHand(cur, inHand, v0, c0, value0) && Shape() && Trying(cur, inHand, v0, c0) && |chain| == k
      {
        placed, cur, inHand := KickOnce(cur, inHand, v0, c0, value0);
        ShapeInHand(cur, inHand, v0, c0, value0);
        if placed { return true; }
      }
      Spent(cur, inHand, v0, c0);
      Rollback(cur, inHand, v0, c0, value0);
      return false;
    }

    lemma {:induction false} ShapeInHand(cur: nat, fingerprint: nat, v0: View, c0: Class, value0: seq<bool>)
      ensures InHand(cur, fingerprint, v0, c0, value0) ==> Shape()
    {
    }

    lemma {:induction false} Spent(cur: nat, fingerprint: nat, v0: View, c0: Class)
      requires Shape() && Trying(cur, fingerprint, v0, c0)
      ensures GivesUp(SchemeOf(p), Prints(v0, None), c0, |chain|)
    {
      hide UnderWay, GivesUp;
      SpentBudget(SchemeOf(p), Prints(v0, None), c0, KicksOf(chain), Prints(Slots(), None), cur, fingerprint);
    }

    lemma {:induction false} StartChain(start: nat, fingerprint: nat, v0: View, c0: Class, value0: seq<bool>)
      requires Shape() && start < p.numBuckets && Full(Slots(), start) && v0 == Slots()
      requires 0 < fingerprint < Pow2(p.fingerprintBits) && |curValue| == p.ValueSizeInCells()
      requires c0 == ClassAt(SchemeOf(p), start, fingerprint) && value0 == ValueOfCells(curValue, p)
      requires chain == [] && pending == []
      ensures InHand(start, fingerprint, v0, c0, value0) && Trying(start, fingerprint, v0, c0)
    {
      hide Scheme.AllIndices, SchemeOf, Scheme.Valid, ValueOfCells, Kicked, UnderWay;
      NothingKicked(v0, c0, value0, p);
      OrbitInRange(SchemeOf(p), start, fingerprint);
      SetOut(SchemeOf(p), Prints(v0, None), c0, start);
      assert KicksOf(chain) == [];
    }

    /** Count the new entry and move the pending mutations into the log. */
    method Commit(ghost v0: View, ghost c: Class, ghost value: seq<bool>)
      requires Shape() && Inserted(v0, pending, Slots(), c, value, p) && numItems == |Holding(SchemeOf(p), v0, None)|
      modifies this`numItems, this`log
      ensures Valid() && log == old(log) + pending
    {
      assert Holding(SchemeOf(p), Slots(), None) == Holding(SchemeOf(p), v0, None) + One(c, value, None);
      numItems := numItems + 1;
      log := log + pending;
    }

    /** Full candidate buckets make a full orbit. */
    lemma {:induction false} FullOrbit(digest: nat, v: View)
      requires p.Legal() && SchemeOf(p).Valid() && |v| == p.numBuckets
      requires var indices := SchemeOf(p).HashItem(digest, p.fingerprintBits).1;
               forall k :: 0 <= k < p.Arity() ==> indices[k] < p.numBuckets && Full(v, indices[k])
      ensures forall b :: b in ClassOf(digest).orbit ==> b < p.numBuckets && Full(v, b)
    {
      var s := SchemeOf(p);
      ItemOrbit(s, digest, p.fingerprintBits);
      hide Scheme.HashItem, Scheme.AllIndices, Scheme.Valid, Full;
      var (fingerprint, indices) := s.HashItem(digest, p.fingerprintBits);
      forall b | b in ClassOf(digest).orbit ensures b < p.numBuckets && Full(v, b) {
        var k := OrbitPosition(s, indices[0], fingerprint, b);
      }
    }

    /** The first candidate slot with the item's fingerprint, as a candidate position and a slot. */
    method Locate(indices: seq<nat>, fingerprint: nat, ghost c: Class) returns (at: Option<(nat, nat)>)
      requires Shape() && Candidates(SchemeOf(p), indices, fingerprint, p.fingerprintBits, c)
      ensures IsFirstMatch(Slots(), indices, p.Arity(), fingerprint, at)
    {
      hide SchemeOf, ClassAt;
      for k := 0 to p.Arity()
        invariant forall i :: 0 <= i < k ==> IsFirst(Slots()[indices[i]], fingerprint, None)
      {
        var slot := table.Find(indices[k], fingerprint);
        if slot.Some? { return Some((k, slot.value)); }
      }
      return None;
    }

    /** Where an item is found first: a bucket of its orbit and a slot with its fingerprint. */
    method FindItem(digest: nat) returns (fingerprint: nat, at: Option<(nat, nat)>)
      requires Shape()
      ensures 0 < fingerprint < Pow2(p.fingerprintBits)
      ensures at.Some? <==> Has(digest)
      ensures at.Some? ==> FoundAt(Slots(), digest, fingerprint, at.value.0, at.value.1)
    {
      hide Scheme.HashItem, Scheme.AllIndices, SchemeOf, Scheme.Valid, ItemClass, Holding, ClassAt;
      var (fp, indices) := SchemeOf(p).HashItem(digest, p.fingerprintBits);
      ItemCandidates(SchemeOf(p), digest, p.fingerprintBits);
      var found := Locate(indices, fp, ClassOf(digest));
      HeldIffFound(Slots(), digest, found, p);
      fingerprint := fp;
      at := if found.Some? then Some((indices[found.value.0], found.value.1)) else None;
    }

    /** The slot is the first candidate slot of the item, and holds its class. */
    ghost predicate FoundAt(v: View, digest: nat, fingerprint: nat, b: nat, s: nat)
      requires p.Legal() && SchemeOf(p).Valid() && ViewOk(v, p)
    {
      var (fp, indices) := SchemeOf(p).HashItem(digest, p.fingerprintBits);
      && fp == fingerprint && b < p.numBuckets && s < p.bucketSize && v[b][s].fingerprint == fp
      && ClassAt(SchemeOf(p), b, fp) == ClassOf(digest)
      && (forall k :: 0 <= k < p.Arity() ==> indices[k] < |v|)
      && exists k :: 0 <= k < p.Arity() && indices[k] == b && IsFirstMatch(v, indices, p.Arity(), fp, Some((k, s)))
    }

    /** True iff some candidate slot has the item's fingerprint. */
    method Contain(digest: nat) returns (answer: bool)
      requires Valid()
      ensures answer <==> Has(digest)
    {
      var fingerprint, at := FindItem(digest);
      answer := at.Some?;
    }

    /** Remove the first entry found for the item and log its old contents; or change nothing. */
    method Delete(digest: nat) returns (r: CuckooFilter.Result<()>, ghost added: seq<SlotMutation>)
      requires Valid()
      modifies this`numItems, this`log, this`curValue, table.cells
      ensures Valid()
      ensures r.Ok? <==> old(Has(digest))
      ensures r.Err? ==> r.error == NotFound && table.cells[..] == old(table.cells[..]) && added == []
      ensures r.Err? ==> Slots() == old(Slots()) && Rows() == old(Rows())
      ensures log == old(log) + added && Logged(old(Slots()), added, Slots(), p)
      ensures r.Ok? ==>
           |added| == 1 && FoundAt(old(Slots()), digest, added[0].oldFingerprint, added[0].bucket, added[0].slot)
      ensures r.Ok? ==> Slots() == SetSlot(old(Slots()), added[0].bucket, added[0].slot,
                                           WithEntry(old(Slots())[added[0].bucket][added[0].slot], 0,
                                                     Clear(p.valueBits)))
      ensures r.Ok? ==>
           Adds(SchemeOf(p), Slots(), old(Slots()), ClassOf(digest), old(Slots())[added[0].bucket][added[0].slot].value)
      ensures r.Ok? ==> Removed(old(Slots()), digest, Slots())
    {
      hide Store.Removed, SchemeOf, Scheme.Valid, ItemClass, Holding, ClassAt, ValueOfCells,
           ReplayIn, ConsistentIn, Store.FoundAt, ZeroEmpty;
      var fingerprint, at := FindItem(digest);
      if at.None? {
        NothingLogged(Slots(), p);
        return Err(NotFound), [];
      }
      var (b, s) := at.value;
      ghost var v0 := Slots();
      FoundThere(v0, digest, fingerprint, b, s);
      var value := ReadCells(b, s);
      curValue := Zeros(p.ValueSizeInCells());
      ZeroValue(curValue, p);
      var m := SlotMutation(b, s, fingerprint, value, 0, curValue);
      log := log + [m];
      OneLogged(v0, m, p);
      table.Write(b, s, 0, curValue);
      ClearRemovesEntry(SchemeOf(p), v0, b, s, WithEntry(v0[b][s], 0, Clear(p.valueBits)));
      OneFewer(v0, Slots(), ClassOf(digest), v0[b][s].value);
      RemovedAt(v0, digest, fingerprint, b, s, Slots());
      numItems := numItems - 1;
      return Ok(()), [m];
    }

    lemma {:induction false} FoundThere(v: View, digest: nat, fingerprint: nat, b: nat, s: nat)
      requires p.Legal() && SchemeOf(p).Valid() && ViewOk(v, p) && FoundAt(v, digest, fingerprint, b, s)
      ensures b < p.numBuckets && s < p.bucketSize && v[b][s].fingerprint == fingerprint
      ensures ClassAt(SchemeOf(p), b, fingerprint) == ClassOf(digest)
    {
    }

    lemma {:induction false} OneFewer(v0: View, v: View, c: Class, value: seq<bool>)
      requires p.Legal() && |v0| == |v| == p.numBuckets && Adds(SchemeOf(p), v, v0, c, value)
      ensures |Holding(SchemeOf(p), v0, None)| == |Holding(SchemeOf(p), v, None)| + 1
    {
      hide Holding;
      assert Holding(SchemeOf(p), v0, None) == Holding(SchemeOf(p), v, None) + One(c, value, None);
    }

    /** Replace the value of the first entry found for the item and log the old one; or change nothing. */
    method Update(digest: nat, newValue: seq<Byte>) returns (r: CuckooFilter.Result<()>, ghost added: seq<SlotMutation>)
      requires Valid()
      modifies this`log, this`curValue, table.cells
      ensures Valid()
      ensures r == Err(InvalidParams) <==> |newValue| != p.ValueSizeInBytes()
      ensures r.Ok? <==> |newValue| == p.ValueSizeInBytes() && old(Has(digest))
      ensures log == old(log) + added && Logged(old(Slots()), added, Slots(), p)
      ensures r.Err? ==> table.cells[..] == old(table.cells[..]) && added == []
      ensures r.Err? ==> Slots() == old(Slots()) && Rows() == old(Rows())
      ensures r.Err? ==> r.error == InvalidParams || r.error == NotFound
      ensures r.Ok? ==>
           |added| == 1 && FoundAt(old(Slots()), digest, added[0].oldFingerprint, added[0].bucket, added[0].slot)
      ensures r.Ok? ==> Slots() == SetSlot(old(Slots()), added[0].bucket, added[0].slot,
                                           old(Slots())[added[0].bucket][added[0].slot].(value :=
                                                                                         ValueBitsOf(newValue, p)))
      ensures r.Ok? ==> Carries(SchemeOf(p), old(Slots()), ClassOf(digest), ValueBitsOf(newValue, p),
                                Slots(), ClassOf(digest), old(Slots())[added[0].bucket][added[0].slot].value)
      ensures r.Ok? ==> Updated(old(Slots()), digest, newValue, Slots())
    {
      hide Store.Updated, SchemeOf, Scheme.Valid, ItemClass, Holding, ClassAt, ValueOfCells,
           ReplayIn, ConsistentIn, Store.FoundAt, ZeroEmpty;
      if |newValue| != p.ValueSizeInBytes() {
        NothingLogged(Slots(), p);
        return Err(InvalidParams), [];
      }
      Load(newValue);
      var fingerprint, at := FindItem(digest);
      if at.None? {
        NothingLogged(Slots(), p);
        return Err(NotFound), [];
      }
      var (b, s) := at.value;
      ghost var v0 := Slots();
      FoundThere(v0, digest, fingerprint, b, s);
      var value := ReadCells(b, s);
      var m := SlotMutation(b, s, fingerprint, value, fingerprint, curValue);
      log := log + [m];
      OneLogged(v0, m, p);
      table.WriteValue(b, s, curValue);
      SwapCarriesEntry(SchemeOf(p), v0, b, s, WithEntry(v0[b][s], fingerprint, ValueOfCells(curValue, p)));
      SameCount(v0, Slots(), ClassOf(digest), ValueOfCells(curValue, p), v0[b][s].value);
      UpdatedAt(v0, digest, fingerprint, b, s, newValue, Slots());
      return Ok(()), [m];
    }

    /** The value of the first entry found for the item is replaced, and nothing else. */
    ghost predicate Updated(v0: View, digest: nat, newValue: seq<Byte>, v: View)
      requires p.Legal() && SchemeOf(p).Valid() && ViewOk(v0, p) && |v| == p.numBuckets
      requires |newValue| == p.ValueSizeInBytes()
    {
      exists fp: nat, b: nat, s: nat ::
        && FoundAt(v0, digest, fp, b, s)
        && v == SetSlot(v0, b, s, v0[b][s].(value := ValueBitsOf(newValue, p)))
        && Carries(SchemeOf(p), v0, ClassOf(digest), ValueBitsOf(newValue, p), v, ClassOf(digest), v0[b][s].value)
    }

    /** The first entry found for the item is cleared, and nothing else. */
    ghost predicate Removed(v0: View, digest: nat, v: View)
      requires p.Legal() && SchemeOf(p).Valid() && ViewOk(v0, p) && |v| == p.numBuckets
    {
      exists fp: nat, b: nat, s: nat ::
        && FoundAt(v0, digest, fp, b, s)
        && v == SetSlot(v0, b, s, WithEntry(v0[b][s], 0, Clear(p.valueBits)))
        && Adds(SchemeOf(p), v, v0, ClassOf(digest), v0[b][s].value)
    }

    lemma {:induction false} UpdatedAt(v0: View, digest: nat, fp: nat, b: nat, s: nat, newValue: seq<Byte>, v: View)
      requires p.Legal() && SchemeOf(p).Valid() && ViewOk(v0, p) && |v| == p.numBuckets
      requires |newValue| == p.ValueSizeInBytes() && FoundAt(v0, digest, fp, b, s)
      requires v == SetSlot(v0, b, s, v0[b][s].(value := ValueBitsOf(newValue, p)))
      requires Carries(SchemeOf(p), v0, ClassOf(digest), ValueBitsOf(newValue, p), v, ClassOf(digest), v0[b][s].value)
      ensures Updated(v0, digest, newValue, v)
    {
      hide Store.FoundAt, Carries;
    }

    lemma {:induction false} RemovedAt(v0: View, digest: nat, fp: nat, b: nat, s: nat, v: View)
      requires p.Legal() && SchemeOf(p).Valid() && ViewOk(v0, p) && |v| == p.numBuckets
      requires FoundAt(v0, digest, fp, b, s)
      requires v == SetSlot(v0, b, s, WithEntry(v0[b][s], 0, Clear(p.valueBits)))
      requires Adds(SchemeOf(p), v, v0, ClassOf(digest), v0[b][s].value)
      ensures Removed(v0, digest, v)
    {
      hide Store.FoundAt, Adds;
    }

    lemma {:induction false} SameCount(v0: View, v: View, c: Class, value0: seq<bool>, value: seq<bool>)
      requires p.Legal() && |v0| == |v| == p.numBuckets && Carries(SchemeOf(p), v0, c, value0, v, c, value)
      ensures |Holding(SchemeOf(p), v0, None)| == |Holding(SchemeOf(p), v, None)|
    {
      hide Holding;
      var before, after := Holding(SchemeOf(p), v0, None), Holding(SchemeOf(p), v, None);
      assert after + One(c, value, None) == before + One(c, value0, None);
      assert |after + multiset{c}| == |after| + 1 && |before + multiset{c}| == |before| + 1;
    }
  }
}
