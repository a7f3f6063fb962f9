/** What a cuckoo filter stores, as a multiset of classes.

    A class is a fingerprint together with its orbit of candidate buckets.  Kicks move fingerprints
    around inside their orbits, so the classes are exactly what no kick can change. */
module FilterClasses {
  import opened Words
  import opened Scheme
  import opened Fields

  datatype Class = Class(fingerprint: nat, orbit: set<nat>)

  /** The class of a fingerprint stored in a bucket. */
  ghost function ClassAt(s: Scheme, bucket: nat, fingerprint: nat): Class
    requires bucket < s.NumBuckets()
  {
    Class(fingerprint, s.Orbit(bucket, fingerprint))
  }

  /** The class of an item. */
  ghost function ItemClass(s: Scheme, fingerprintBits: nat, digest: nat): Class
    requires s.Valid() && s.NumBuckets() > 0 && 1 <= fingerprintBits <= 64
  {
    ItemOrbit(s, digest, fingerprintBits);
    var (fingerprint, indices) := s.HashItem(digest, fingerprintBits);
    ClassAt(s, indices[0], fingerprint)
  }

  /** What one slot contributes. */
  ghost function SlotClass(s: Scheme, bucket: nat, fingerprint: nat): multiset<Class>
    requires bucket < s.NumBuckets()
  {
    if fingerprint == 0 then multiset{} else multiset{ClassAt(s, bucket, fingerprint)}
  }

  ghost function RowClasses(s: Scheme, bucket: nat, row: seq<nat>): multiset<Class>
    requires bucket < s.NumBuckets()
  {
    if row == [] then multiset{} else SlotClass(s, bucket, row[0]) + RowClasses(s, bucket, row[1..])
  }

  /** The classes of buckets `b` and up. */
  ghost function ClassesFrom(s: Scheme, buckets: seq<seq<nat>>, b: nat): multiset<Class>
    requires b <= |buckets| <= s.NumBuckets()
    decreases |buckets| - b
  {
    if b == |buckets| then multiset{} else RowClasses(s, b, buckets[b]) + ClassesFrom(s, buckets, b + 1)
  }

  ghost function Classes(s: Scheme, buckets: seq<seq<nat>>): multiset<Class>
    requires |buckets| <= s.NumBuckets()
  {
    ClassesFrom(s, buckets, 0)
  }

  lemma {:induction false} Exchange(a: multiset<Class>, x: multiset<Class>, y: multiset<Class>, out: multiset<Class>,
                                    into: multiset<Class>)
    requires x + out == y + into
    ensures (a + x) + out == (a + y) + into
    ensures (x + a) + out == (y + a) + into
  {
    assert (a + x) + out == a + (x + out);
    assert (a + y) + into == a + (y + into);
    assert x + a == a + x && y + a == a + y;
  }

  lemma {:induction false} RowUpdate(s: Scheme, bucket: nat, row: seq<nat>, k: nat, v: nat)
    requires bucket < s.NumBuckets() && k < |row|
    ensures RowClasses(s, bucket, row[k := v]) + SlotClass(s, bucket, row[k])
         == RowClasses(s, bucket, row) + SlotClass(s, bucket, v)
  {
    var here, there := SlotClass(s, bucket, row[k]), SlotClass(s, bucket, v);
    if k == 0 {
      assert row[k := v][1..] == row[1..];
      Exchange(RowClasses(s, bucket, row[1..]), there, here, here, there);
    } else {
      RowUpdate(s, bucket, row[1..], k - 1, v);
      assert row[k := v][1..] == row[1..][k - 1 := v];
      Exchange(SlotClass(s, bucket, row[0]), RowClasses(s, bucket, row[1..][k - 1 := v]),
               RowClasses(s, bucket, row[1..]), here, there);
    }
  }

  lemma {:induction false} ClassesUpdateFrom(s: Scheme, buckets: seq<seq<nat>>, from: nat, b: nat, k: nat, v: nat)
    requires from <= b < |buckets| <= s.NumBuckets() && k < |buckets[b]|
    ensures ClassesFrom(s, SetSlot(buckets, b, k, v), from) + SlotClass(s, b, buckets[b][k])
         == ClassesFrom(s, buckets, from) + SlotClass(s, b, v)
    decreases b - from
  {
    hide RowClasses, SlotClass;
    var after := SetSlot(buckets, b, k, v);
    var here, there := SlotClass(s, b, buckets[b][k]), SlotClass(s, b, v);
    if from == b {
      RowUpdate(s, b, buckets[b], k, v);
      SameRowsFrom(s, buckets, after, b + 1);
      Exchange(ClassesFrom(s, buckets, b + 1), RowClasses(s, b, after[b]), RowClasses(s, b, buckets[b]), here, there);
    } else {
      ClassesUpdateFrom(s, buckets, from + 1, b, k, v);
      Exchange(RowClasses(s, from, buckets[from]), ClassesFrom(s, after, from + 1), ClassesFrom(s, buckets, from + 1),
               here, there);
    }
  }

  lemma {:induction false} SameRowsFrom(s: Scheme, x: seq<seq<nat>>, y: seq<seq<nat>>, from: nat)
    requires from <= |x| == |y| <= s.NumBuckets()
    requires forall b :: from <= b < |x| ==> x[b] == y[b]
    ensures ClassesFrom(s, x, from) == ClassesFrom(s, y, from)
    decreases |x| - from
  {
    if from < |x| { SameRowsFrom(s, x, y, from + 1); }
  }

  /** Writing a slot exchanges its old class for its new one. */
  lemma {:induction false} ClassesUpdate(s: Scheme, buckets: seq<seq<nat>>, b: nat, k: nat, v: nat)
    requires b < |buckets| <= s.NumBuckets() && k < |buckets[b]|
    ensures Classes(s, SetSlot(buckets, b, k, v)) + SlotClass(s, b, buckets[b][k])
         == Classes(s, buckets) + SlotClass(s, b, v)
  {
    ClassesUpdateFrom(s, buckets, 0, b, k, v);
  }

  lemma {:induction false} RowMember(s: Scheme, bucket: nat, row: seq<nat>, c: Class)
    requires bucket < s.NumBuckets() && c.fingerprint != 0
    ensures c in RowClasses(s, bucket, row) <==> c.fingerprint in row && c.orbit == s.Orbit(bucket, c.fingerprint)
  {
    hide Scheme.Orbit;
    if row != [] { RowMember(s, bucket, row[1..], c); }
  }

  lemma {:induction false} ZeroIsNoMember(s: Scheme, bucket: nat, row: seq<nat>, c: Class)
    requires bucket < s.NumBuckets() && c.fingerprint == 0
    ensures c !in RowClasses(s, bucket, row)
  {
    hide Scheme.Orbit;
    if row != [] { ZeroIsNoMember(s, bucket, row[1..], c); }
  }

  /** Where a class is stored: some bucket with that orbit holds the fingerprint. */
  lemma {:induction false} ClassesMember(s: Scheme, buckets: seq<seq<nat>>, from: nat, c: Class)
    requires from <= |buckets| <= s.NumBuckets() && c.fingerprint != 0
    ensures c in ClassesFrom(s, buckets, from)
       <==> exists b :: from <= b < |buckets| && c.fingerprint in buckets[b] && c.orbit == s.Orbit(b, c.fingerprint)
    decreases |buckets| - from
  {
    hide RowClasses, Scheme.Orbit;
    if from < |buckets| {
      RowMember(s, from, buckets[from], c);
      ClassesMember(s, buckets, from + 1, c);
    }
  }

  /** An item's class is stored iff one of its candidate buckets holds its fingerprint. */
  lemma {:induction false} ItemMember(s: Scheme, buckets: seq<seq<nat>>, fingerprintBits: nat, digest: nat)
    requires s.Valid() && s.NumBuckets() > 0 && 1 <= fingerprintBits <= 64 && |buckets| == s.NumBuckets()
    ensures var (fp, indices) := s.HashItem(digest, fingerprintBits);
            && |indices| == 4 && (forall k :: 0 <= k < s.Arity() ==> indices[k] < |buckets|)
            && (ItemClass(s, fingerprintBits, digest) in Classes(s, buckets)
                <==> exists k :: 0 <= k < s.Arity() && fp in buckets[indices[k]])
  {
    hide Scheme.AllIndices, Scheme.HashItem, Scheme.Valid, Scheme.NumBuckets, Scheme.Orbit;
    ItemOrbit(s, digest, fingerprintBits);
    var (fp, indices) := s.HashItem(digest, fingerprintBits);
    var c := ItemClass(s, fingerprintBits, digest);
    ClassesMember(s, buckets, 0, c);
    if b :| 0 <= b < |buckets| && fp in buckets[b] && c.orbit == s.Orbit(b, fp) {
      OrbitInRange(s, b, fp);
      var k := OrbitPosition(s, indices[0], fp, b);
      assert fp in buckets[indices[k]];
    }
    if k :| 0 <= k < s.Arity() && fp in buckets[indices[k]] {
      assert c.orbit == s.Orbit(indices[k], fp);
    }
  }

  // ---------- candidates ----------

  /** The candidates are buckets, and in each of them the fingerprint has class `c`. */
  ghost predicate Candidates(s: Scheme, indices: seq<nat>, fingerprint: nat, bits: nat, c: Class) {
    && |indices| == 4 && s.Arity() <= 4 && 0 < fingerprint < Pow2(bits)
    && forall k :: 0 <= k < s.Arity() ==> indices[k] < s.NumBuckets() && ClassAt(s, indices[k], fingerprint) == c
  }

  /** What `AllIndices` rebuilds from any bucket. */
  lemma {:induction false} AreCandidates(s: Scheme, cur: nat, fingerprint: nat, bits: nat)
    requires s.Valid() && cur < s.NumBuckets() && 0 < fingerprint < Pow2(bits)
    ensures Candidates(s, s.AllIndices(cur, fingerprint), fingerprint, bits, ClassAt(s, cur, fingerprint))
  {
    var all := s.AllIndices(cur, fingerprint);
    OrbitInRange(s, cur, fingerprint);
    hide Scheme.AllIndices, Scheme.Valid;
    forall k | 0 <= k < s.Arity()
      ensures all[k] < s.NumBuckets() && ClassAt(s, all[k], fingerprint) == ClassAt(s, cur, fingerprint)
    {
      OrbitSame(s, cur, fingerprint, all[k]);
    }
  }

  /** What an item hashes to. */
  lemma {:induction false} ItemCandidates(s: Scheme, digest: nat, bits: nat)
    requires s.Valid() && s.NumBuckets() > 0 && 1 <= bits <= 64
    ensures var (fingerprint, indices) := s.HashItem(digest, bits);
            && Candidates(s, indices, fingerprint, bits, ItemClass(s, bits, digest))
            && indices == s.AllIndices(indices[0], fingerprint)
  {
    hide Scheme.AllIndices, Scheme.HashItem, Scheme.Valid, Scheme.NumBuckets, Scheme.Orbit;
    ItemOrbit(s, digest, bits);
    var (fingerprint, indices) := s.HashItem(digest, bits);
    AreCandidates(s, indices[0], fingerprint, bits);
  }

  // ---------- counting ----------

  ghost function OccupiedInRow(row: seq<nat>): nat {
    if row == [] then 0 else (if row[0] == 0 then 0 else 1) + OccupiedInRow(row[1..])
  }

  /** The number of non-zero slots. */
  ghost function Occupied(buckets: seq<seq<nat>>): nat {
    if buckets == [] then 0 else OccupiedInRow(buckets[0]) + Occupied(buckets[1..])
  }

  lemma {:induction false} RowCount(s: Scheme, bucket: nat, row: seq<nat>)
    requires bucket < s.NumBuckets()
    ensures |RowClasses(s, bucket, row)| == OccupiedInRow(row)
  {
    if row != [] { RowCount(s, bucket, row[1..]); }
  }

  lemma {:induction false} ClassCountFrom(s: Scheme, buckets: seq<seq<nat>>, from: nat)
    requires from <= |buckets| <= s.NumBuckets()
    ensures |ClassesFrom(s, buckets, from)| == Occupied(buckets[from..])
    decreases |buckets| - from
  {
    if from < |buckets| {
      RowCount(s, from, buckets[from]);
      ClassCountFrom(s, buckets, from + 1);
      assert buckets[from..][1..] == buckets[from + 1..];
    }
  }

  /** The multiset has one element for each occupied slot. */
  lemma {:induction false} ClassCount(s: Scheme, buckets: seq<seq<nat>>)
    requires |buckets| <= s.NumBuckets()
    ensures |Classes(s, buckets)| == Occupied(buckets)
  {
    ClassCountFrom(s, buckets, 0);
    assert buckets[0..] == buckets;
  }

  lemma {:induction false} EmptyRow(s: Scheme, bucket: nat, n: nat)
    requires bucket < s.NumBuckets()
    ensures RowClasses(s, bucket, Zeros(n)) == multiset{}
  {
    if n > 0 {
      EmptyRow(s, bucket, n - 1);
      assert Zeros(n)[1..] == Zeros(n - 1);
    }
  }

  lemma {:induction false} EmptyClasses(s: Scheme, buckets: seq<seq<nat>>, bucketSize: nat, from: nat)
    requires from <= |buckets| <= s.NumBuckets()
    requires forall b :: 0 <= b < |buckets| ==> buckets[b] == Zeros(bucketSize)
    ensures ClassesFrom(s, buckets, from) == multiset{}
    decreases |buckets| - from
  {
    if from < |buckets| {
      EmptyRow(s, from, bucketSize);
      EmptyClasses(s, buckets, bucketSize, from + 1);
    }
  }

  // ---------- runs ----------

  /** One observed operation on the filter. */
  datatype Op = Insert(item: Class, ok: bool) | Delete(item: Class, ok: bool) | Contain(item: Class, answer: bool)

  /** How a multiset answers an operation. */
  ghost predicate Step(before: multiset<Class>, op: Op, after: multiset<Class>) {
    match op
    case Insert(c, ok) => after == if ok then before + multiset{c} else before
    case Delete(c, ok) => ok == (c in before) && after == before - multiset{c}
    case Contain(c, answer) => answer == (c in before) && after == before
  }

  ghost predicate Run(states: seq<multiset<Class>>, ops: seq<Op>) {
    && |states| == |ops| + 1
    && states[0] == multiset{}
    && forall i :: 0 <= i < |ops| ==> Step(states[i], ops[i], states[i + 1])
  }

  lemma {:induction false} NoRun(states: seq<multiset<Class>>)
    requires states == [multiset{}]
    ensures Run(states, [])
  {
  }

  lemma {:induction false} RunMore(states: seq<multiset<Class>>, ops: seq<Op>, op: Op, after: multiset<Class>)
    requires Run(states, ops) && Step(states[|ops|], op, after)
    ensures Run(states + [after], ops + [op])
  {
    hide Step;
  }

  /** Successful inserts minus successful deletes of a class. */
  ghost function Balance(ops: seq<Op>, c: Class): int {
    if ops == [] then 0
    else
      var op := ops[|ops| - 1];
      Balance(ops[..|ops| - 1], c)
      + (if op == Insert(c, true) then 1 else if op == Delete(c, true) then -1 else 0)
  }

  /** In every run, whatever the kicks did, the filter holds each class as often as the successful
      inserts and deletes say.  So look-ups and deletes answer by that balance: no false negatives,
      and a delete succeeds iff there is something of its class to delete. */
  lemma {:induction false} RunMatchesBalance(states: seq<multiset<Class>>, ops: seq<Op>, c: Class)
    requires Run(states, ops)
    ensures states[|ops|][c] == Balance(ops, c)
    decreases |ops|
  {
    if ops != [] {
      var n := |ops| - 1;
      RunMatchesBalance(states[..n + 1], ops[..n], c);
      assert Step(states[n], ops[n], states[n + 1]);
    }
  }

  lemma {:induction false} AnswersByBalance(states: seq<multiset<Class>>, ops: seq<Op>, i: nat)
    requires Run(states, ops) && i < |ops|
    ensures ops[i].Contain? ==> ops[i].answer == (Balance(ops[..i], ops[i].item) > 0)
    ensures ops[i].Delete? ==> ops[i].ok == (Balance(ops[..i], ops[i].item) > 0)
    ensures Balance(ops[..i], ops[i].item) >= 0
  {
    RunMatchesBalance(states[..i + 1], ops[..i], ops[i].item);
    assert Step(states[i], ops[i], states[i + 1]);
  }
}
