/** The cuckoo filter: insertion along a random kick chain with rollback, look-up and deletion.

    Random choices are arbitrary, so every contract holds whatever the random numbers are.  An item
    is given by its 128-bit digest. */
module CuckooFilter {
  import opened Words
  import opened Geometry
  import opened Digits
  import opened Scheme
  import opened FingerprintTable
  import opened Fields
  import opened FilterClasses
  import opened KickChains

  datatype CuckooError = TableFull | NotFound | InvalidParams
  datatype Result<T> = Ok(value: T) | Err(error: CuckooError)

  datatype Kind = Std2 | Std3 | Std4 | Seg2 | Seg3 | Seg4

  const MAX_KICKS_DEFAULT: nat := 500

  // ---------- construction ----------

  /** The power tests: divide while divisible, then compare with 1. */
  function IsPowerOf(d: nat, n: nat): bool
    requires d > 1
    decreases n
  {
    if n == 0 then false
    else if n % d == 0 then (DivShrinks(d, n); IsPowerOf(d, n / d))
    else n == 1
  }

  lemma {:induction false} DivShrinks(d: nat, n: nat)
    requires d > 1 && n > 0
    ensures n / d < n
  {
    var q := n / d;
    assert n == d * q + n % d;
    MulMonotone(q, 2, d);
  }

  lemma {:induction false} PowerOfQuotient(d: nat, n: nat)
    requires d > 1 && n > 0
    ensures n % d == 0 ==> (IsPower(d, n / d) <==> IsPower(d, n))
    ensures n % d != 0 ==> (IsPower(d, n) <==> n == 1)
  {
    assert n == d * (n / d) + n % d;
    assert Pow(d, 0) == 1;
    if IsPower(d, n / d) {
      var t: nat :| n / d == Pow(d, t);
      assert Pow(d, t + 1) == d * (n / d);
    }
    if IsPower(d, n) {
      var t: nat :| n == Pow(d, t);
      if t == 0 { DivModUnique(1, d, 0, 1); } else { DivModUnique(n, d, Pow(d, t - 1), 0); }
    }
  }

  lemma {:induction false} PowerTest(d: nat, n: nat)
    requires d > 1
    ensures IsPowerOf(d, n) <==> IsPower(d, n)
    decreases n
  {
    hide Pow, IsPower;
    if n > 0 {
      PowerOfQuotient(d, n);
      if n % d == 0 {
        DivShrinks(d, n);
        PowerTest(d, n / d);
      }
    } else {
      ZeroIsNoPower(d);
    }
  }

  lemma {:induction false} ZeroIsNoPower(d: nat)
    requires d > 0
    ensures !IsPower(d, 0)
  {
  }

  /** The bucket counts each kind of filter accepts, and the scheme it then uses. */
  function SchemeFor(kind: Kind, numBuckets: nat): Option<Scheme> {
    match kind
    case Std2 => if IsPowerOf(2, numBuckets) then Some(Standard2ary(numBuckets)) else None
    case Std3 => if IsPowerOf(3, numBuckets) then Some(Standard3ary(numBuckets)) else None
    case Std4 => if IsPowerOf(4, numBuckets) then Some(Standard4ary(numBuckets)) else None
    case Seg2 =>
      if IsPowerOf(2, numBuckets) && numBuckets >= 2 then Some(Scheme.Segmented2ary(numBuckets / 2)) else None
    case Seg3 =>
      if numBuckets >= 3 && numBuckets % 3 == 0 && IsPowerOf(2, numBuckets / 3) then
        Some(Scheme.Segmented3ary(numBuckets / 3))
      else None
    case Seg4 =>
      if IsPowerOf(2, numBuckets) && numBuckets >= 4 then Some(Scheme.Segmented4ary(numBuckets / 4)) else None
  }

  function ValidParams(arity: nat, bucketSize: nat, fingerprintBits: nat): bool {
    && 2 <= arity <= 4
    && 1 <= bucketSize <= 4
    && Bitlen(arity * bucketSize) <= fingerprintBits <= 64
  }

  /** The checks pass iff a bucket has 1 to 4 slots and a random fingerprint can miss them all. */
  lemma {:induction false} ValidParamsIff(arity: nat, bucketSize: nat, fingerprintBits: nat)
    requires 2 <= arity <= 4
    ensures ValidParams(arity, bucketSize, fingerprintBits)
       <==> 1 <= bucketSize <= 4 && fingerprintBits <= 64 && arity * bucketSize < Pow2(fingerprintBits)
  {
    BitlenIff(arity * bucketSize, fingerprintBits);
  }

  /** A bucket has 1 to 4 slots, and a random fingerprint can miss all of an item's slots. */
  ghost predicate Sized(s: Scheme, bucketSize: nat, fingerprintBits: nat) {
    1 <= bucketSize <= 4 && fingerprintBits <= 64 && s.Arity() * bucketSize < Pow2(fingerprintBits)
  }

  /** The kind of filter a scheme is for. */
  function KindOf(s: Scheme): Kind {
    match s
    case Standard2ary(_) => Std2
    case Standard3ary(_) => Std3
    case Standard4ary(_) => Std4
    case Segmented2ary(_) => Seg2
    case Segmented3ary(_) => Seg3
    case Segmented4ary(_) => Seg4
  }

  /** A scheme of this kind, with orbits, over exactly this many buckets. */
  ghost predicate Fitting(s: Scheme, kind: Kind, numBuckets: nat) {
    KindOf(s) == kind && s.Valid() && s.NumBuckets() == numBuckets > 0
  }

  /** A bucket count is accepted iff some scheme of the kind fits it, and then the scheme is that one. */
  lemma {:induction false} SchemeForFits(kind: Kind, numBuckets: nat)
    requires numBuckets < U32
    ensures SchemeFor(kind, numBuckets).Some? ==> Fitting(SchemeFor(kind, numBuckets).value, kind, numBuckets)
    ensures forall s: Scheme :: Fitting(s, kind, numBuckets) ==> SchemeFor(kind, numBuckets) == Some(s)
  {
    if SchemeFor(kind, numBuckets).Some? { SchemeForIsValid(kind, numBuckets); }
    forall s: Scheme | Fitting(s, kind, numBuckets) ensures SchemeFor(kind, numBuckets) == Some(s) {
      FittingIsAccepted(s);
    }
  }

  lemma {:induction false} FittingIsAccepted(s: Scheme)
    requires s.Valid() && s.NumBuckets() > 0
    ensures SchemeFor(KindOf(s), s.NumBuckets()) == Some(s)
  {
    hide IsPowerOf, IsPower;
    var n := s.NumBuckets();
    match s {
      case Standard2ary(_) => PowerTest(2, n);
      case Standard3ary(_) => PowerTest(3, n);
      case Standard4ary(_) => PowerTest(4, n);
      case Segmented2ary(size) =>
        PowerTest(2, size);
        DoublePower(size);
      case Segmented3ary(size) => PowerTest(2, size);
      case Segmented4ary(size) =>
        PowerTest(2, size);
        DoublePower(size);
        DoublePower(2 * size);
    }
  }

  lemma {:induction false} DoublePower(n: nat)
    requires n > 0
    ensures IsPowerOf(2, n) ==> IsPowerOf(2, 2 * n)
  {
    assert 2 * n % 2 == 0 && 2 * n / 2 == n;
  }

  /** Every accepted scheme is one whose candidates are orbits, and it addresses the whole table. */
  lemma {:induction false} SchemeForIsValid(kind: Kind, numBuckets: nat)
    requires numBuckets < U32 && SchemeFor(kind, numBuckets).Some?
    ensures Fitting(SchemeFor(kind, numBuckets).value, kind, numBuckets)
  {
    match kind {
      case Std2 => PowerTest(2, numBuckets);
      case Std3 => PowerTest(3, numBuckets);
      case Std4 => PowerTest(4, numBuckets);
      case Seg2 =>
        assert numBuckets % 2 == 0 && IsPowerOf(2, numBuckets / 2);
        PowerTest(2, numBuckets / 2);
      case Seg3 => PowerTest(2, numBuckets / 3);
      case Seg4 =>
        assert numBuckets % 2 == 0 && IsPowerOf(2, numBuckets / 2);
        assert numBuckets / 2 % 2 == 0 && IsPowerOf(2, numBuckets / 2 / 2);
        assert numBuckets / 2 / 2 == numBuckets / 4;
        PowerTest(2, numBuckets / 4);
    }
  }

  // ---------- undoing a chain ----------

  ghost predicate ChainIn(chain: seq<Kick>, numBuckets: nat, bucketSize: nat, bits: nat) {
    forall i :: 0 <= i < |chain| ==>
      chain[i].bucket < numBuckets && chain[i].slot < bucketSize && chain[i].original < Pow2(bits)
  }

  /** Restoring the originals, last kick first. */
  ghost function Undo(buckets: seq<seq<nat>>, chain: seq<Kick>): seq<seq<nat>>
    decreases |chain|
  {
    if chain == [] then buckets
    else
      var last := chain[|chain| - 1];
      if !InTable(last, buckets) then buckets
      else Undo(SetSlot(buckets, last.bucket, last.slot, last.original), chain[..|chain| - 1])
  }

  /** A kick recorded with the slot's old contents is undone by restoring them. */
  lemma {:induction false} UndoKick(buckets: seq<seq<nat>>, chain: seq<Kick>, bucket: nat, slot: nat, v: nat)
    requires bucket < |buckets| && slot < |buckets[bucket]|
    ensures Undo(SetSlot(buckets, bucket, slot, v), chain + [Kick(bucket, slot, buckets[bucket][slot])])
         == Undo(buckets, chain)
  {
    var kick := Kick(bucket, slot, buckets[bucket][slot]);
    var longer := chain + [kick];
    assert longer[|longer| - 1] == kick && longer[..|longer| - 1] == chain;
    var after := SetSlot(buckets, bucket, slot, v);
    assert buckets[bucket][slot := v][slot := kick.original] == buckets[bucket];
    assert SetSlot(after, bucket, slot, kick.original) == buckets;
  }

  lemma {:induction false} OneFewer(after: multiset<Class>, before: multiset<Class>, c: Class)
    requires after + multiset{c} == before
    ensures c in before && after == before - multiset{c} && |after| == |before| - 1
  {
  }

  /** The first candidate position of `cur`, or 0. */
  method Position(all: seq<nat>, arity: nat, cur: nat) returns (p: nat)
    requires 0 < arity <= |all|
    ensures p < arity
    ensures cur in all[..arity] ==> all[p] == cur
    ensures cur in all[..p] ==> p == 0
  {
    p := 0;
    while p < arity
      invariant p <= arity && cur !in all[..p]
    {
      if all[p] == cur { return; }
      p := p + 1;
    }
    return 0;
  }

  class Filter {
    const table: Table
    const scheme: Scheme
    var numItems: nat
    var maxKicks: nat
    var chain: seq<Kick>

    ghost predicate Valid()
      reads this`numItems, table, table.data
    {
      && ValidShape()
      && numItems == |Stored()|
    }

    ghost predicate ValidShape()
      reads table, table.data
    {
      && table.Valid()
      && scheme.Valid()
      && scheme.NumBuckets() == table.numBuckets > 0
      && table.bucketSize > 0
    }

    /** The classes stored in the table. */
    ghost function Stored(): multiset<Class>
      reads table, table.data
      requires ValidShape()
    {
      Classes(scheme, table.buckets)
    }

    /** The scheme and the fingerprint width give every item a class. */
    ghost predicate HasClasses() { scheme.Valid() && scheme.NumBuckets() > 0 && 1 <= table.fingerprintBits <= 64 }

    ghost function ClassOf(digest: nat): Class
      requires HasClasses()
    {
      ItemClass(scheme, table.fingerprintBits, digest)
    }

    constructor Init(scheme: Scheme, bucketSize: nat, fingerprintBits: nat)
      requires scheme.Valid() && scheme.NumBuckets() > 0 && bucketSize > 0 && 1 <= fingerprintBits <= 64
      ensures Valid() && fresh(table) && fresh(table.data)
      ensures Stored() == multiset{} && numItems == 0 && maxKicks == MAX_KICKS_DEFAULT
      ensures this.scheme == scheme && table.bucketSize == bucketSize && table.fingerprintBits == fingerprintBits
    {
      this.scheme := scheme;
      table := new Table(scheme.NumBuckets(), bucketSize, fingerprintBits);
      numItems, maxKicks, chain := 0, MAX_KICKS_DEFAULT, [];
      new;
      EmptyClasses(scheme, table.buckets, bucketSize, 0);
    }

    method SetMaxKicks(n: nat)
      requires Valid()
      modifies this
      ensures Valid() && maxKicks == n && Stored() == old(Stored()) && numItems == old(numItems)
    {
      maxKicks := n;
    }

    /** Try the candidate buckets in order, skipping position `skip` (use `Arity()` to skip none). */
    method PlaceInFirstFree(indices: seq<nat>, fingerprint: nat, skip: nat, ghost c: Class)
        returns (placed: bool, ghost at: nat, ghost slot: nat)
      requires ValidShape() && Candidates(scheme, indices, fingerprint, table.fingerprintBits, c)
      modifies table, table.data
      ensures ValidShape()
      ensures placed ==> Stored() == old(Stored()) + multiset{c}
      ensures placed ==> FirstFree(old(table.buckets), indices, scheme.Arity(), skip, at, slot)
                         && table.buckets == SetSlot(old(table.buckets), indices[at], slot, fingerprint)
      ensures !placed ==> table.buckets == old(table.buckets) && table.data[..] == old(table.data[..])
      ensures !placed ==> forall p :: 0 <= p < scheme.Arity() && p != skip ==> 0 !in table.buckets[indices[p]]
    {
      hide Scheme.Orbit, Scheme.Valid, Scheme.NumBuckets, Classes, ClassAt, SetSlot, FirstFree;
      for pos := 0 to scheme.Arity()
        invariant table.Valid() && table.buckets == old(table.buckets) && table.data[..] == old(table.data[..])
        invariant forall p :: 0 <= p < pos && p != skip ==> 0 !in table.buckets[indices[p]]
      {
        if pos != skip {
          var found := table.Insert(indices[pos], fingerprint);
          if found.Some? {
            Filled(old(table.buckets), indices, fingerprint, skip, pos, found.value, c);
            return true, pos, found.value;
          }
        }
      }
      return false, 0, 0;
    }

    /** Filling the first empty slot of the first bucket with room adds the class. */
    lemma {:induction false} Filled(was: seq<seq<nat>>, indices: seq<nat>, fingerprint: nat, skip: nat, at: nat,
                                    slot: nat, c: Class)
      requires ValidShape() && |was| == scheme.NumBuckets()
           && Candidates(scheme, indices, fingerprint, table.fingerprintBits, c)
      requires at < scheme.Arity() && at != skip && slot < |was[indices[at]]| && was[indices[at]][slot] == 0
      requires 0 !in was[indices[at]][..slot]
      requires forall p :: 0 <= p < at && p != skip ==> 0 !in was[indices[p]]
      ensures FirstFree(was, indices, scheme.Arity(), skip, at, slot)
      ensures Classes(scheme, SetSlot(was, indices[at], slot, fingerprint)) == Classes(scheme, was) + multiset{c}
    {
      hide Scheme.Orbit, Scheme.Valid, Scheme.NumBuckets, Classes, ClassAt;
      ClassesUpdate(scheme, was, indices[at], slot, fingerprint);
    }

    /** Swap `fingerprint` into a slot of the full bucket `cur`, recording the kick. */
    method Evict(cur: nat, slot: nat, fingerprint: nat) returns (evicted: nat)
      requires ValidShape() && cur < table.numBuckets && slot < table.bucketSize && 0 !in table.buckets[cur]
      requires 0 < fingerprint < Pow2(table.fingerprintBits)
      requires ChainIn(chain, table.numBuckets, table.bucketSize, table.fingerprintBits)
      modifies this`chain, table, table.data
      ensures ValidShape() && ChainIn(chain, table.numBuckets, table.bucketSize, table.fingerprintBits)
      ensures 0 < evicted < Pow2(table.fingerprintBits) && 0 !in table.buckets[cur]
      ensures evicted == old(table.buckets)[cur][slot]
      ensures table.buckets == SetSlot(old(table.buckets), cur, slot, fingerprint)
      ensures chain == old(chain) + [Kick(cur, slot, evicted)]
      ensures Stored() + multiset{ClassAt(scheme, cur, evicted)}
           == old(Stored()) + multiset{ClassAt(scheme, cur, fingerprint)}
      ensures Undo(table.buckets, chain) == old(Undo(table.buckets, chain))
    {
      hide Scheme.Orbit, Scheme.Valid, Scheme.NumBuckets, Classes, ClassAt, Undo;
      evicted := table.Read(cur, slot);
      assert evicted in table.buckets[cur];
      ClassesUpdate(scheme, table.buckets, cur, slot, fingerprint);
      UndoKick(table.buckets, chain, cur, slot, fingerprint);
      chain := chain + [Kick(cur, slot, evicted)];
      table.Write(cur, slot, fingerprint);
      DivModUnique(fingerprint, Pow2(table.fingerprintBits), 0, fingerprint);
    }

    /** One kick of the chain: evict a random slot of `cur`, then try the alternatives of what was
        evicted.  The evicted fingerprint, in hand or placed, keeps its class. */
    method KickOnce(cur: nat, fingerprint: nat, ghost before: seq<seq<nat>>, ghost c: Class)
        returns (placed: bool, next: nat, evicted: nat)
      requires ValidShape() && cur < table.numBuckets && 0 !in table.buckets[cur]
      requires UnderWay(scheme, before, c, chain, table.buckets, cur, fingerprint)
      requires 0 < fingerprint < Pow2(table.fingerprintBits)
      requires ChainIn(chain, table.numBuckets, table.bucketSize, table.fingerprintBits)
      modifies this`chain, table, table.data
      ensures ValidShape() && ChainIn(chain, table.numBuckets, table.bucketSize, table.fingerprintBits)
      ensures next < table.numBuckets && 0 < evicted < Pow2(table.fingerprintBits)
      ensures placed ==> Stored() == old(Stored()) + multiset{ClassAt(scheme, cur, fingerprint)}
      ensures !placed ==> Stored() + multiset{ClassAt(scheme, next, evicted)}
                          == old(Stored()) + multiset{ClassAt(scheme, cur, fingerprint)}
      ensures !placed ==> 0 !in table.buckets[next]
      ensures !placed ==> Undo(table.buckets, chain) == old(Undo(table.buckets, chain))
      ensures !placed ==> |chain| == |old(chain)| + 1
                          && UnderWay(scheme, before, c, chain, table.buckets, next, evicted)
    {
      hide Scheme.AllIndices, Scheme.Orbit, Scheme.Valid, Scheme.NumBuckets, UnderWay, NoRoom, Alternative;
      var slot: nat :| slot < table.bucketSize;
      evicted := Evict(cur, slot, fingerprint);
      var all := scheme.AllIndices(cur, evicted);
      AreCandidates(scheme, cur, evicted, table.fingerprintBits);
      var evictedPos := Position(all, scheme.Arity(), cur);
      ghost var at, hole;
      placed, at, hole := PlaceInFirstFree(all, evicted, evictedPos, ClassAt(scheme, cur, evicted));
      if placed { return true, cur, evicted; }
      var nextPos: nat :| nextPos < scheme.Arity() && nextPos != evictedPos;
      next := all[nextPos];
      NoRoomLeft(cur, evicted, evictedPos);
      OtherPosition(scheme, cur, evicted, evictedPos, nextPos);
      KickOn(scheme, before, c, old(chain), old(table.buckets), cur, fingerprint, slot, next);
    }

    lemma {:induction false} InOrbit(cur: nat, fingerprint: nat, k: nat)
      requires ValidShape() && cur < table.numBuckets && k < scheme.Arity()
      ensures scheme.AllIndices(cur, fingerprint)[k] in scheme.Orbit(cur, fingerprint)
    {
      OrbitInRange(scheme, cur, fingerprint);
    }

    /** With the bucket kicked from and all its alternatives full, the orbit is full. */
    lemma {:induction false} NoRoomLeft(cur: nat, fingerprint: nat, skip: nat)
      requires ValidShape() && cur < table.numBuckets && 0 !in table.buckets[cur]
      requires var all := scheme.AllIndices(cur, fingerprint);
               && skip < scheme.Arity() && (cur in all[..scheme.Arity()] ==> all[skip] == cur)
               && forall p :: 0 <= p < scheme.Arity() && p != skip ==>
                    all[p] < table.numBuckets && 0 !in table.buckets[all[p]]
      ensures NoRoom(scheme, table.buckets, cur, fingerprint)
    {
      OrbitInRange(scheme, cur, fingerprint);
      forall b | b in scheme.Orbit(cur, fingerprint) ensures b < |table.buckets| && 0 !in table.buckets[b] {
        var k := OrbitPosition(scheme, cur, fingerprint, b);
      }
    }

    /** Restore the originals of the chain in reverse order. */
    method Rollback()
      requires ValidShape() && ChainIn(chain, table.numBuckets, table.bucketSize, table.fingerprintBits)
      modifies table, table.data
      ensures ValidShape() && table.buckets == Undo(old(table.buckets), chain)
    {
      ghost var target := Undo(table.buckets, chain);
      var i := |chain|;
      assert chain[..i] == chain;
      while i > 0
        invariant 0 <= i <= |chain|
        invariant ValidShape() && Undo(table.buckets, chain[..i]) == target
      {
        i := i - 1;
        var kick := chain[i];
        assert chain[..i + 1][..i] == chain[..i];
        assert InTable(kick, table.buckets);
        table.Write(kick.bucket, kick.slot, kick.original);
        DivModUnique(kick.original, Pow2(table.fingerprintBits), 0, kick.original);
      }
    }

    /** Adds the item's class and nothing else, or fails and leaves every byte as it was.
        It cannot fail while a candidate bucket has a free slot. */
    method Insert(digest: nat) returns (r: Result<()>)
      requires Valid()
      modifies this`numItems, this`chain, table, table.data
      ensures Valid()
      ensures r.Ok? ==> Stored() == old(Stored()) + multiset{ClassOf(digest)}
      ensures r.Err? ==>
           r.error == TableFull && table.buckets == old(table.buckets) && table.data[..] == old(table.data[..])
      ensures r.Err? ==> forall b :: b in ClassOf(digest).orbit ==> b < |table.buckets| && 0 !in table.buckets[b]
      ensures var (fingerprint, indices) := scheme.HashItem(digest, table.fingerprintBits);
              FillsFirstFree(old(table.buckets), indices, scheme.Arity(), fingerprint, r.Ok?, table.buckets)
      ensures r.Err? ==> GivesUp(scheme, old(table.buckets), ClassOf(digest), maxKicks)
      ensures maxKicks > 0 && Relieved(scheme, old(table.buckets), ClassOf(digest)) ==> r.Ok?
      ensures FilterClasses.Step(old(Stored()), FilterClasses.Op.Insert(ClassOf(digest), r.Ok?), Stored())
    {
      hide *;
      Counts();
      ghost var c, before := ClassOf(digest), table.buckets;
      if maxKicks > 0 && Relieved(scheme, before, c) { RelievedNeverGivesUp(scheme, before, c, maxKicks); }
      var placed := Place(digest, c);
      InsertStep(old(Stored()), c, placed, Stored());
      if placed {
        numItems := numItems + 1;
        Counts();
        return Ok(());
      }
      Counts();
      return Err(TableFull);
    }

    lemma {:induction false} Counts()
      ensures Valid() <==> ValidShape() && numItems == |Stored()|
      ensures ValidShape() ==> HasClasses()
    {
    }

    lemma {:induction false} InsertStep(before: multiset<Class>, c: Class, ok: bool, after: multiset<Class>)
      requires after == if ok then before + multiset{c} else before
      ensures FilterClasses.Step(before, FilterClasses.Op.Insert(c, ok), after)
      ensures ok ==> |after| == |before| + 1
    {
    }

    /** Place the item's fingerprint, kicking if need be; or leave every byte. */
    method Place(digest: nat, ghost c: Class) returns (placed: bool)
      requires ValidShape() && c == ClassOf(digest)
      modifies this`chain, table, table.data
      ensures ValidShape()
      ensures placed ==> Stored() == old(Stored()) + multiset{c}
      ensures !placed ==> Stored() == old(Stored())
                          && table.buckets == old(table.buckets) && table.data[..] == old(table.data[..])
      ensures !placed ==> forall b :: b in c.orbit ==> b < |table.buckets| && 0 !in table.buckets[b]
      ensures !placed ==> GivesUp(scheme, old(table.buckets), c, maxKicks)
      ensures var (fingerprint, indices) := scheme.HashItem(digest, table.fingerprintBits);
              FillsFirstFree(old(table.buckets), indices, scheme.Arity(), fingerprint, placed, table.buckets)
    {
      hide Scheme.AllIndices, Scheme.HashItem, Scheme.Orbit, Scheme.Valid, Scheme.NumBuckets, GivesUp, FillsFirstFree,
           Classes;
      var (fingerprint, indices) := scheme.HashItem(digest, table.fingerprintBits);
      ItemCandidates(scheme, digest, table.fingerprintBits);
      ghost var at, slot;
      placed, at, slot := PlaceInFirstFree(indices, fingerprint, scheme.Arity(), c);
      if placed {
        FilledFirstFree(old(table.buckets), indices, scheme.Arity(), fingerprint, table.buckets, at, slot);
        return true;
      }
      FullOrbit(indices, fingerprint);
      var start: nat :| start < scheme.Arity();
      InOrbit(indices[0], fingerprint, start);
      placed := KickChain(indices[start], fingerprint, c);
      NoFirstFree(old(table.buckets), indices, scheme.Arity(), fingerprint, placed, table.buckets);
    }

    /** A chain of kicks from `before` for class `c` has `fingerprint` in hand at the full bucket `cur`. */
    ghost predicate Kicking(cur: nat, fingerprint: nat, before: seq<seq<nat>>, c: Class)
      reads this`chain, table, table.data
    {
      && ValidShape() && |before| <= scheme.NumBuckets()
      && ChainIn(chain, table.numBuckets, table.bucketSize, table.fingerprintBits)
      && cur < table.numBuckets && 0 !in table.buckets[cur]
      && 0 < fingerprint < Pow2(table.fingerprintBits)
      && Stored() + multiset{ClassAt(scheme, cur, fingerprint)} == Classes(scheme, before) + multiset{c}
      && Undo(table.buckets, chain) == before
      && UnderWay(scheme, before, c, chain, table.buckets, cur, fingerprint)
    }

    /** Kick until something is placed or the budget is spent, then roll back. */
    method KickChain(start: nat, fingerprint: nat, ghost c: Class) returns (placed: bool)
      requires ValidShape() && start < table.numBuckets && 0 !in table.buckets[start]
      requires 0 < fingerprint < Pow2(table.fingerprintBits)
      requires start in c.orbit && c == ClassAt(scheme, start, fingerprint)
      modifies this`chain, table, table.data
      ensures ValidShape()
      ensures placed ==> Stored() == old(Stored()) + multiset{c}
      ensures !placed ==> Stored() == old(Stored())
                          && table.buckets == old(table.buckets) && table.data[..] == old(table.data[..])
      ensures !placed ==> GivesUp(scheme, old(table.buckets), c, maxKicks)
    {
      ghost var before := table.buckets;
      var cur, inHand := start, fingerprint;
      chain := [];
      StartKicking(start, fingerprint, c);
      hide *;
      for k := 0 to maxKicks
        invariant Kicking(cur, inHand, before, c) && |chain| == k
      {
        placed, cur, inHand := KickFurther(cur, inHand, before, c);
        if placed { return true; }
      }
      Spent(cur, inHand, before, c);
      Rollback();
      RolledBack(before);
      table.SameBytes();
      return false;
    }

    lemma {:induction false} StartKicking(start: nat, fingerprint: nat, c: Class)
      requires ValidShape() && start < table.numBuckets && 0 !in table.buckets[start] && chain == []
      requires 0 < fingerprint < Pow2(table.fingerprintBits)
      requires start in c.orbit && c == ClassAt(scheme, start, fingerprint)
      ensures Kicking(start, fingerprint, table.buckets, c) && Stored() == Classes(scheme, table.buckets)
    {
      hide Scheme.Orbit, Scheme.Valid, UnderWay;
      SetOut(scheme, table.buckets, c, start);
    }

    lemma {:induction false} RolledBack(before: seq<seq<nat>>)
      requires ValidShape() && table.buckets == before
      ensures table.Valid() && |before| <= scheme.NumBuckets() && Stored() == Classes(scheme, before)
    {
    }

    lemma {:induction false} Spent(cur: nat, fingerprint: nat, before: seq<seq<nat>>, c: Class)
      requires Kicking(cur, fingerprint, before, c)
      ensures GivesUp(scheme, before, c, |chain|)
      ensures ValidShape() && ChainIn(chain, table.numBuckets, table.bucketSize, table.fingerprintBits)
      ensures Undo(table.buckets, chain) == before
    {
      hide UnderWay, GivesUp;
      SpentBudget(scheme, before, c, chain, table.buckets, cur, fingerprint);
    }

    /** One more kick of the chain. */
    method KickFurther(cur: nat, fingerprint: nat, ghost before: seq<seq<nat>>, ghost c: Class)
        returns (placed: bool, next: nat, evicted: nat)
      requires Kicking(cur, fingerprint, before, c)
      modifies this`chain, table, table.data
      ensures ValidShape()
      ensures placed ==> |before| <= scheme.NumBuckets() && Stored() == Classes(scheme, before) + multiset{c}
      ensures !placed ==> Kicking(next, evicted, before, c) && |chain| == |old(chain)| + 1
    {
      hide Scheme.Orbit, Scheme.Valid, UnderWay, Undo, Classes, ClassAt;
      placed, next, evicted := KickOnce(cur, fingerprint, before, c);
    }

    /** Full candidate buckets make a full orbit. */
    lemma {:induction false} FullOrbit(indices: seq<nat>, fingerprint: nat)
      requires ValidShape() && |indices| == 4 && scheme.Arity() <= 4 && indices[0] < table.numBuckets
      requires indices == scheme.AllIndices(indices[0], fingerprint)
      requires forall p :: 0 <= p < scheme.Arity() ==> indices[p] < table.numBuckets && 0 !in table.buckets[indices[p]]
      ensures forall b :: b in scheme.Orbit(indices[0], fingerprint) ==> b < |table.buckets| && 0 !in table.buckets[b]
    {
      forall b | b in scheme.Orbit(indices[0], fingerprint) ensures b < |table.buckets| && 0 !in table.buckets[b] {
        var k := OrbitPosition(scheme, indices[0], fingerprint, b);
      }
    }

    /** True iff the item's class is stored. */
    method Contain(digest: nat) returns (answer: bool)
      requires Valid()
      ensures answer <==> ClassOf(digest) in Stored()
      ensures FilterClasses.Step(Stored(), FilterClasses.Op.Contain(ClassOf(digest), answer), Stored())
    {
      hide Scheme.AllIndices, Scheme.HashItem, Scheme.Orbit, Scheme.Valid, Scheme.NumBuckets;
      var (fingerprint, indices) := scheme.HashItem(digest, table.fingerprintBits);
      ItemMember(scheme, table.buckets, table.fingerprintBits, digest);
      for i := 0 to scheme.Arity()
        invariant forall k :: 0 <= k < i ==> fingerprint !in table.buckets[indices[k]]
      {
        var found := table.Contain(indices[i], fingerprint);
        if found { return true; }
      }
      return false;
    }

    /** Clear the first occurrence of a fingerprint in one bucket. */
    method RemoveFrom(bucket: nat, fingerprint: nat, ghost c: Class) returns (found: bool)
      requires ValidShape() && bucket < table.numBuckets && fingerprint != 0
      requires bucket < scheme.NumBuckets() && c == ClassAt(scheme, bucket, fingerprint)
      modifies table, table.data
      ensures ValidShape()
      ensures found == (fingerprint in old(table.buckets[bucket]))
      ensures found ==> Stored() + multiset{c} == old(Stored())
      ensures !found ==> table.buckets == old(table.buckets) && table.data[..] == old(table.data[..])
    {
      hide Scheme.Orbit, Scheme.Valid, Scheme.NumBuckets;
      ghost var slot;
      found, slot := table.Delete(bucket, fingerprint);
      if found { ClassesUpdate(scheme, old(table.buckets), bucket, slot, 0); }
    }

    /** Removes one occurrence of the item's class iff there is one; otherwise nothing changes. */
    method Delete(digest: nat) returns (r: Result<()>)
      requires Valid()
      modifies this`numItems, table, table.data
      ensures Valid()
      ensures r.Ok? <==> old(ClassOf(digest) in Stored())
      ensures r.Ok? ==> Stored() == old(Stored()) - multiset{ClassOf(digest)}
      ensures r.Err? ==>
           r.error == NotFound && table.buckets == old(table.buckets) && table.data[..] == old(table.data[..])
      ensures FilterClasses.Step(old(Stored()), FilterClasses.Op.Delete(ClassOf(digest), r.Ok?), Stored())
    {
      hide *;
      Counts();
      ghost var c := ClassOf(digest);
      var found := RemoveItem(digest, c);
      DeleteStep(old(Stored()), c, found, Stored());
      if found {
        numItems := numItems - 1;
        Counts();
        return Ok(());
      }
      Counts();
      return Err(NotFound);
    }

    lemma {:induction false} DeleteStep(before: multiset<Class>, c: Class, ok: bool, after: multiset<Class>)
      requires (ok <==> c in before) && if ok then after + multiset{c} == before else after == before
      ensures FilterClasses.Step(before, FilterClasses.Op.Delete(c, ok), after)
      ensures ok ==> after == before - multiset{c} && |before| == |after| + 1
    {
      if ok { OneFewer(after, before, c); }
    }

    /** Remove one occurrence of the item's fingerprint, if there is one. */
    method RemoveItem(digest: nat, ghost c: Class) returns (found: bool)
      requires ValidShape() && HasClasses() && c == ClassOf(digest)
      modifies table, table.data
      ensures ValidShape()
      ensures found <==> c in old(Stored())
      ensures found ==> Stored() + multiset{c} == old(Stored())
      ensures !found ==>
           Stored() == old(Stored()) && table.buckets == old(table.buckets) && table.data[..] == old(table.data[..])
    {
      hide Scheme.AllIndices, Scheme.HashItem, Scheme.Orbit, Scheme.Valid, Scheme.NumBuckets, ItemClass, ClassAt,
           Candidates;
      var (fingerprint, indices) := scheme.HashItem(digest, table.fingerprintBits);
      ItemMember(scheme, table.buckets, table.fingerprintBits, digest);
      ItemCandidates(scheme, digest, table.fingerprintBits);
      hide Classes;
      found := RemoveFromFirst(indices, fingerprint, c);
    }

    /** Clear the fingerprint in the first candidate bucket that holds it. */
    method RemoveFromFirst(indices: seq<nat>, fingerprint: nat, ghost c: Class) returns (found: bool)
      requires ValidShape() && Candidates(scheme, indices, fingerprint, table.fingerprintBits, c)
      modifies table, table.data
      ensures ValidShape()
      ensures found <==> exists k :: 0 <= k < scheme.Arity() && fingerprint in old(table.buckets[indices[k]])
      ensures found ==> Stored() + multiset{c} == old(Stored())
      ensures !found ==> table.buckets == old(table.buckets) && table.data[..] == old(table.data[..])
    {
      hide Scheme.Orbit, Scheme.Valid, Scheme.NumBuckets;
      for i := 0 to scheme.Arity()
        invariant table.Valid() && table.buckets == old(table.buckets) && table.data[..] == old(table.data[..])
        invariant forall k :: 0 <= k < i ==> fingerprint !in table.buckets[indices[k]]
      {
        found := RemoveFrom(indices[i], fingerprint, c);
        if found { return true; }
      }
      return false;
    }
  }

  /** `new`, for each of the six kinds. */
  method NewFilter(kind: Kind, numBuckets: nat, bucketSize: nat, fingerprintBits: nat) returns (r: Result<Filter>)
    requires numBuckets < U32
    ensures r.Ok? <==> exists s :: Fitting(s, kind, numBuckets) && Sized(s, bucketSize, fingerprintBits)
    ensures r.Err? ==> r.error == InvalidParams
    ensures r.Ok? ==> Fitting(r.value.scheme, kind, numBuckets) && r.value.table.numBuckets == numBuckets
                      && r.value.table.bucketSize == bucketSize && r.value.table.fingerprintBits == fingerprintBits
    ensures r.Ok? ==> r.value.Valid() && r.value.Stored() == multiset{} && r.value.numItems == 0
    ensures r.Ok? ==> r.value.maxKicks == 500
    ensures r.Ok? ==> fresh(r.value) && fresh(r.value.table) && fresh(r.value.table.data)
  {
    var scheme := SchemeFor(kind, numBuckets);
    SchemeForFits(kind, numBuckets);
    if scheme.Some? { ValidParamsIff(scheme.value.Arity(), bucketSize, fingerprintBits); }
    if scheme.None? || !ValidParams(scheme.value.Arity(), bucketSize, fingerprintBits) { return Err(InvalidParams); }
    assert Bitlen(scheme.value.Arity() * bucketSize) >= 1;
    var filter := new Filter.Init(scheme.value, bucketSize, fingerprintBits);
    return Ok(filter);
  }

  // ---------- executions ----------

  datatype Request = Add(digest: nat) | Remove(digest: nat) | Query(digest: nat)

  /** The observation a request and its answer make on a filter. */
  ghost function Observed(f: Filter, q: Request, answer: bool): Op
    requires f.HasClasses()
  {
    match q
    case Add(d) => FilterClasses.Insert(f.ClassOf(d), answer)
    case Remove(d) => FilterClasses.Delete(f.ClassOf(d), answer)
    case Query(d) => FilterClasses.Contain(f.ClassOf(d), answer)
  }

  lemma {:induction false} ObservedParts(f: Filter, q: Request, answer: bool)
    requires f.HasClasses()
    ensures Observed(f, q, answer).item == f.ClassOf(q.digest)
    ensures q.Remove? ==> Observed(f, q, answer).Delete? && Observed(f, q, answer).ok == answer
    ensures q.Query? ==> Observed(f, q, answer).Contain? && Observed(f, q, answer).answer == answer
  {
  }

  method Serve(f: Filter, q: Request) returns (answer: bool)
    requires f.Valid()
    modifies f`numItems, f`chain, f.table, f.table.data
    ensures f.Valid()
    ensures FilterClasses.Step(old(f.Stored()), Observed(f, q, answer), f.Stored())
  {
    match q {
      case Add(d) => { var r := f.Insert(d); answer := r.Ok?; }
      case Remove(d) => { var r := f.Delete(d); answer := r.Ok?; }
      case Query(d) => { answer := f.Contain(d); }
    }
  }

  /** Serving any requests from an empty filter is a run: look-ups and deletes answer by the balance
      of the successful inserts and deletes before them. */
  method Execute(f: Filter, requests: seq<Request>)
      returns (answers: seq<bool>, ghost states: seq<multiset<Class>>, ghost ops: seq<Op>)
    requires f.Valid() && f.Stored() == multiset{}
    modifies f`numItems, f`chain, f.table, f.table.data
    ensures f.Valid() && |answers| == |ops| == |requests|
    ensures forall i :: 0 <= i < |requests| ==> ops[i] == Observed(f, requests[i], answers[i])
    ensures Run(states, ops) && states[|ops|] == f.Stored()
    ensures forall i :: 0 <= i < |requests| && !requests[i].Add? ==>
              answers[i] == (Balance(ops[..i], f.ClassOf(requests[i].digest)) > 0)
  {
    hide Balance, FilterClasses.Step, Filter.ClassOf, Filter.Stored, Observed;
    answers, states, ops := [], [f.Stored()], [];
    NoRun(states);
    for k := 0 to |requests|
      invariant f.Valid() && |answers| == |ops| == k
      invariant forall i :: 0 <= i < k ==> ops[i] == Observed(f, requests[i], answers[i])
      invariant Run(states, ops) && states[k] == f.Stored()
    {
      var answer := Serve(f, requests[k]);
      ghost var op := Observed(f, requests[k], answer);
      RunMore(states, ops, op, f.Stored());
      answers, states, ops := answers + [answer], states + [f.Stored()], ops + [op];
    }
    forall i | 0 <= i < |requests| && !requests[i].Add?
      ensures answers[i] == (Balance(ops[..i], f.ClassOf(requests[i].digest)) > 0)
    {
      AnswersByBalance(states, ops, i);
      ObservedParts(f, requests[i], answers[i]);
    }
  }
}
