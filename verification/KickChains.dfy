/** Chains of kicks that came to nothing: what must have happened for an insertion to give up. */
module KickChains {
  import opened Scheme
  import opened Fields
  import opened FilterClasses

  /** One kick: the bucket and slot written, and what the slot held before. */
  datatype Kick = Kick(bucket: nat, slot: nat, original: nat)

  ghost predicate InTable(kick: Kick, buckets: seq<seq<nat>>) {
    kick.bucket < |buckets| && kick.slot < |buckets[kick.bucket]|
  }

  // ---------- direct placement ----------

  /** The first empty slot of the first bucket with room, taking `indices` in order but for `skip`. */
  ghost predicate FirstFree(buckets: seq<seq<nat>>, indices: seq<nat>, arity: nat, skip: nat, k: nat, slot: nat) {
    && k < arity <= |indices| && k != skip && (forall j :: 0 <= j < arity ==> indices[j] < |buckets|)
    && slot < |buckets[indices[k]]| && buckets[indices[k]][slot] == 0 && 0 !in buckets[indices[k]][..slot]
    && forall j :: 0 <= j < k && j != skip ==> 0 !in buckets[indices[j]]
  }

  lemma {:induction false} FirstFreeUnique(buckets: seq<seq<nat>>, indices: seq<nat>, arity: nat, skip: nat,
                                           k: nat, slot: nat, k': nat, slot': nat)
    requires FirstFree(buckets, indices, arity, skip, k, slot) && FirstFree(buckets, indices, arity, skip, k', slot')
    ensures k == k' && slot == slot'
  {
    assert buckets[indices[k]][slot] in buckets[indices[k]] && buckets[indices[k']][slot'] in buckets[indices[k']];
  }

  /** If a bucket has room, the fingerprint goes to the first empty slot of the first such bucket. */
  ghost predicate FillsFirstFree(was: seq<seq<nat>>, indices: seq<nat>, arity: nat, fingerprint: nat, placed: bool,
                                 now: seq<seq<nat>>)
  {
    forall k: nat, slot: nat :: FirstFree(was, indices, arity, arity, k, slot) ==>
      placed && now == SetSlot(was, indices[k], slot, fingerprint)
  }

  lemma {:induction false} FilledFirstFree(was: seq<seq<nat>>, indices: seq<nat>, arity: nat, fingerprint: nat,
                                           now: seq<seq<nat>>, at: nat, slot: nat)
    requires FirstFree(was, indices, arity, arity, at, slot) && now == SetSlot(was, indices[at], slot, fingerprint)
    ensures FillsFirstFree(was, indices, arity, fingerprint, true, now)
  {
    forall k: nat, s: nat | FirstFree(was, indices, arity, arity, k, s)
      ensures now == SetSlot(was, indices[k], s, fingerprint)
    {
      FirstFreeUnique(was, indices, arity, arity, k, s, at, slot);
    }
  }

  lemma {:induction false} NoFirstFree(was: seq<seq<nat>>, indices: seq<nat>, arity: nat, fingerprint: nat,
                                       placed: bool, now: seq<seq<nat>>)
    requires arity <= |indices| && forall j :: 0 <= j < arity ==> indices[j] < |was| && 0 !in was[indices[j]]
    ensures FillsFirstFree(was, indices, arity, fingerprint, placed, now)
  {
    forall k: nat, s: nat ensures !FirstFree(was, indices, arity, arity, k, s) {
      if k < arity && s < |was[indices[k]]| { assert was[indices[k]][s] in was[indices[k]]; }
    }
  }

  // ---------- chains ----------

  /** The fingerprint in hand after inserting class `c` has kicked along `path`. */
  ghost function InHandAfter(c: Class, path: seq<Kick>): nat {
    if path == [] then c.fingerprint else path[|path| - 1].original
  }

  /** The table after those kicks. */
  ghost function After(before: seq<seq<nat>>, c: Class, path: seq<Kick>): seq<seq<nat>>
    decreases |path|
  {
    if path == [] then before
    else
      var init, kick := path[..|path| - 1], path[|path| - 1];
      var buckets := After(before, c, init);
      if InTable(kick, buckets) then SetSlot(buckets, kick.bucket, kick.slot, InHandAfter(c, init)) else buckets
  }

  /** A candidate of the fingerprint other than the position first found to be the bucket it is in. */
  ghost predicate Alternative(s: Scheme, cur: nat, fingerprint: nat, b: nat)
    requires cur < s.NumBuckets()
  {
    var all := s.AllIndices(cur, fingerprint);
    exists p :: 0 <= p < s.Arity() <= 4 && all[p] == b && (b == cur ==> cur in all[..p])
  }

  lemma {:induction false} OtherPosition(s: Scheme, cur: nat, fingerprint: nat, first: nat, p: nat)
    requires s.Valid() && cur < s.NumBuckets() && first < s.Arity() && p < s.Arity() && p != first
    requires var all := s.AllIndices(cur, fingerprint);
             (cur in all[..s.Arity()] ==> all[first] == cur) && (cur in all[..first] ==> first == 0)
    ensures Alternative(s, cur, fingerprint, s.AllIndices(cur, fingerprint)[p])
  {
    OrbitInRange(s, cur, fingerprint);
    hide Scheme.AllIndices, Scheme.Valid, Scheme.NumBuckets;
    var all := s.AllIndices(cur, fingerprint);
    assert cur in all[..s.Arity()];
    if p < first { assert all[..first][p] == all[p]; }
    if first < p { assert all[..p][first] == cur; }
  }

  /** The buckets the next kick may be made in. */
  ghost predicate MayKick(s: Scheme, c: Class, path: seq<Kick>, b: nat)
    requires path != [] ==> path[|path| - 1].bucket < s.NumBuckets()
  {
    if path == [] then b in c.orbit else Alternative(s, path[|path| - 1].bucket, path[|path| - 1].original, b)
  }

  /** No bucket of the fingerprint's orbit has an empty slot. */
  ghost predicate NoRoom(s: Scheme, buckets: seq<seq<nat>>, bucket: nat, fingerprint: nat)
    requires bucket < s.NumBuckets()
  {
    forall b :: b in s.Orbit(bucket, fingerprint) ==> b < |buckets| && 0 !in buckets[b]
  }

  /** Every kick of the path is made where the one before allows it, and what it evicts finds no room. */
  ghost predicate Futile(s: Scheme, before: seq<seq<nat>>, c: Class, path: seq<Kick>)
    decreases |path|
  {
    path == [] ||
    var init, kick := path[..|path| - 1], path[|path| - 1];
    && Futile(s, before, c, init)
    && kick.bucket < s.NumBuckets() && InTable(kick, After(before, c, init))
    && (init != [] ==> init[|init| - 1].bucket < s.NumBuckets())
    && MayKick(s, c, init, kick.bucket)
    && kick.original == After(before, c, init)[kick.bucket][kick.slot]
    && NoRoom(s, After(before, c, path), kick.bucket, kick.original)
  }

  /** Some `n` kicks come to nothing. */
  ghost predicate GivesUp(s: Scheme, before: seq<seq<nat>>, c: Class, n: nat) {
    exists path: seq<Kick> :: |path| == n && Futile(s, before, c, path)
  }

  /** A chain under way: its kicks were futile, and led to this table with this fingerprint in hand at
      one of its buckets. */
  ghost predicate UnderWay(s: Scheme, before: seq<seq<nat>>, c: Class, path: seq<Kick>,
                           buckets: seq<seq<nat>>, cur: nat, fingerprint: nat)
  {
    && Futile(s, before, c, path)
    && After(before, c, path) == buckets
    && InHandAfter(c, path) == fingerprint
    && (path != [] ==> path[|path| - 1].bucket < s.NumBuckets())
    && MayKick(s, c, path, cur)
  }

  lemma {:induction false} SetOut(s: Scheme, before: seq<seq<nat>>, c: Class, cur: nat)
    requires cur in c.orbit
    ensures UnderWay(s, before, c, [], before, cur, c.fingerprint)
  {
  }

  /** One more kick, whose victim finds no room. */
  lemma {:induction false} KickOn(s: Scheme, before: seq<seq<nat>>, c: Class, path: seq<Kick>,
                                  buckets: seq<seq<nat>>, cur: nat, fingerprint: nat, slot: nat, next: nat)
    requires UnderWay(s, before, c, path, buckets, cur, fingerprint)
    requires cur < |buckets| && slot < |buckets[cur]| && cur < s.NumBuckets()
    requires Alternative(s, cur, buckets[cur][slot], next)
    requires NoRoom(s, SetSlot(buckets, cur, slot, fingerprint), cur, buckets[cur][slot])
    ensures UnderWay(s, before, c, path + [Kick(cur, slot, buckets[cur][slot])],
                     SetSlot(buckets, cur, slot, fingerprint), next, buckets[cur][slot])
  {
    hide Scheme.Orbit, Alternative;
    var kick := Kick(cur, slot, buckets[cur][slot]);
    var longer := path + [kick];
    assert longer[|longer| - 1] == kick && longer[..|longer| - 1] == path;
  }

  lemma {:induction false} SpentBudget(s: Scheme, before: seq<seq<nat>>, c: Class, path: seq<Kick>,
                                       buckets: seq<seq<nat>>, cur: nat, fingerprint: nat)
    requires UnderWay(s, before, c, path, buckets, cur, fingerprint)
    ensures GivesUp(s, before, c, |path|)
  {
  }

  // ---------- when a kick must help ----------

  /** Every fingerprint in the candidate buckets has room in another of its own candidates. */
  ghost predicate Relieved(s: Scheme, before: seq<seq<nat>>, c: Class) {
    forall b, slot ::
      b in c.orbit && b < |before| && b < s.NumBuckets() && 0 <= slot < |before[b]| ==>
        HasRoomElsewhere(s, before, b, before[b][slot])
  }

  ghost predicate HasRoomElsewhere(s: Scheme, buckets: seq<seq<nat>>, b: nat, fingerprint: nat)
    requires b < s.NumBuckets()
  {
    exists other :: other in s.Orbit(b, fingerprint) && other != b && other < |buckets| && 0 in buckets[other]
  }

  lemma {:induction false} FutilePrefix(s: Scheme, before: seq<seq<nat>>, c: Class, path: seq<Kick>, n: nat)
    requires Futile(s, before, c, path) && n <= |path|
    ensures Futile(s, before, c, path[..n])
    decreases |path|
  {
    if n == |path| {
      assert path[..n] == path;
    } else {
      assert path[..|path| - 1][..n] == path[..n];
      FutilePrefix(s, before, c, path[..|path| - 1], n);
    }
  }

  /** Then no chain of kicks is futile, so none is given up. */
  lemma {:induction false} RelievedNeverGivesUp(s: Scheme, before: seq<seq<nat>>, c: Class, n: nat)
    requires n > 0 && Relieved(s, before, c)
    ensures !GivesUp(s, before, c, n)
  {
    forall path: seq<Kick> | |path| == n ensures !Futile(s, before, c, path) {
      assert path[..1] == [path[0]];
      FirstKickHelps(s, before, c, path[0]);
      if Futile(s, before, c, path) { FutilePrefix(s, before, c, path, 1); }
    }
  }

  lemma {:induction false} FirstKickHelps(s: Scheme, before: seq<seq<nat>>, c: Class, kick: Kick)
    requires Relieved(s, before, c)
    ensures !Futile(s, before, c, [kick])
  {
    hide Scheme.Orbit;
    assert [kick][..0] == [];
    var b, slot := kick.bucket, kick.slot;
    if b in c.orbit && b < s.NumBuckets() && InTable(kick, before) && kick.original == before[b][slot] {
      assert HasRoomElsewhere(s, before, b, before[b][slot]);
      var other :| other in s.Orbit(b, kick.original) && other != b && other < |before| && 0 in before[other];
      assert After(before, c, [kick]) == SetSlot(before, b, slot, c.fingerprint);
    }
  }
}
