/** The six index schemes and the orbits of candidate buckets they induce.

    `HashItem` derives a fingerprint and its candidate buckets from an item's digest; `AllIndices`
    rebuilds the candidates of a stored fingerprint from whichever bucket holds it.  Both return
    four entries of which only the first `Arity()` are meaningful. */
module Scheme {
  import opened Words
  import opened Digits
  import opened Hash
  import Geometry

  datatype Scheme =
    | Standard2ary(numBuckets: nat)
    | Standard3ary(numBuckets: nat)
    | Standard4ary(numBuckets: nat)
    | Segmented2ary(segmentSize: nat)
    | Segmented3ary(segmentSize: nat)
    | Segmented4ary(segmentSize: nat)
  {
    function Arity(): nat {
      match this
      case Standard2ary(_) | Segmented2ary(_) => 2
      case Standard3ary(_) | Segmented3ary(_) => 3
      case Standard4ary(_) | Segmented4ary(_) => 4
    }

    predicate Segmented() { Segmented2ary? || Segmented3ary? || Segmented4ary? }

    function NumBuckets(): nat {
      match this
      case Segmented2ary(segmentSize) => 2 * segmentSize
      case Segmented3ary(segmentSize) => 3 * segmentSize
      case Segmented4ary(segmentSize) => 4 * segmentSize
      case _ => numBuckets
    }

    /** Segment sizes are powers of two; a standard table is a power of its arity, or of two. */
    ghost predicate Valid() {
      && NumBuckets() < U32
      && (if Segmented() then IsPower(2, segmentSize) else IsPower(Arity(), numBuckets))
    }

    function HashItem(digest: nat, fingerprintBits: nat): (r: (nat, seq<nat>))
      requires NumBuckets() > 0
      ensures |r.1| == 4
    {
      match this
      case Standard2ary(n) =>
        var (fp, i1) := HashAndI1(digest, fingerprintBits, n);
        (fp, [i1, Xor(i1, FingerprintHash1(fp, n), 32), 0, 0])
      case Standard3ary(n) =>
        var fp := ExtractFingerprint(digest % U64, fingerprintBits);
        var i1 := digest / U64 % U32 % n;
        var h := FingerprintHashMod(fp, n);
        var i2 := Xor3(i1, h);
        (fp, [i1, i2, Xor3(i2, h), 0])
      case Standard4ary(n) =>
        var (fp, i1) := HashAndI1(digest, fingerprintBits, n);
        var h := FingerprintHash1(fp, n);
        var i2 := Xor4(i1, h);
        var i3 := Xor4(i2, h);
        (fp, [i1, i2, i3, Xor4(i3, h)])
      case Segmented2ary(size) =>
        var (fp, i1) := HashAndI1(digest, fingerprintBits, size);
        (fp, [i1, size + Xor(i1, FingerprintHash1(fp, size), 32), 0, 0])
      case Segmented3ary(size) =>
        var (fp, i1) := HashAndI1(digest, fingerprintBits, size);
        var i2Local := Xor(i1, FingerprintHash1(fp, size), 32);
        var i3Local := Xor(i2Local, FingerprintHash2(fp, size), 32);
        (fp, [i1, size + i2Local, 2 * size + i3Local, 0])
      case Segmented4ary(size) =>
        var (fp, i1) := HashAndI1(digest, fingerprintBits, size);
        var i2Local := Xor(i1, FingerprintHash1(fp, size), 32);
        var i3Local := Xor(i2Local, FingerprintHash2(fp, size), 32);
        var i4Local := Xor(i3Local, FingerprintHash3(fp, size), 32);
        (fp, [i1, size + i2Local, 2 * size + i3Local, 3 * size + i4Local])
    }

    function AllIndices(curIndex: nat, fingerprint: nat): (r: seq<nat>)
      requires curIndex < NumBuckets()
      ensures |r| == 4
    {
      match this
      case Standard2ary(n) =>
        [curIndex, Xor(curIndex, FingerprintHash1(fingerprint, n), 32), 0, 0]
      case Standard3ary(n) =>
        var h := FingerprintHashMod(fingerprint, n);
        var alt1 := Xor3(curIndex, h);
        [curIndex, alt1, Xor3(alt1, h), 0]
      case Standard4ary(n) =>
        var h := FingerprintHash1(fingerprint, n);
        var alt1 := Xor4(curIndex, h);
        var alt2 := Xor4(alt1, h);
        [curIndex, alt1, alt2, Xor4(alt2, h)]
      case Segmented2ary(size) =>
        var h1 := FingerprintHash1(fingerprint, size);
        if curIndex < size then [curIndex, size + Xor(curIndex, h1, 32), 0, 0]
        else [Xor(curIndex - size, h1, 32), curIndex, 0, 0]
      case Segmented3ary(size) =>
        var h1 := FingerprintHash1(fingerprint, size);
        var h2 := FingerprintHash2(fingerprint, size);
        var position := curIndex / size;
        var local := Local(curIndex, size);
        var i2Local :=
          if position == 0 then Xor(local, h1, 32) else if position == 1 then local else Xor(local, h2, 32);
        [Xor(i2Local, h1, 32), size + i2Local, 2 * size + Xor(i2Local, h2, 32), 0]
      case Segmented4ary(size) =>
        var h1 := FingerprintHash1(fingerprint, size);
        var h2 := FingerprintHash2(fingerprint, size);
        var h3 := FingerprintHash3(fingerprint, size);
        var position := curIndex / size;
        var local := Local(curIndex, size);
        var i1 := if position == 0 then local
                  else if position == 1 then Xor(local, h1, 32)
                  else if position == 2 then Xor(Xor(local, h2, 32), h1, 32)
                  else Xor(Xor(Xor(local, h3, 32), h2, 32), h1, 32);
        var i2Local := Xor(i1, h1, 32);
        var i3Local := Xor(i2Local, h2, 32);
        [i1, size + i2Local, 2 * size + i3Local, 3 * size + Xor(i3Local, h3, 32)]
    }

    /** The candidate buckets, as a set. */
    function Orbit(curIndex: nat, fingerprint: nat): set<nat>
      requires curIndex < NumBuckets()
    {
      set c | c in AllIndices(curIndex, fingerprint)[..Arity()]
    }
  }

  /** The index scheme of a store's geometry. */
  function SchemeOf(p: Geometry.CuckooParams): (s: Scheme)
    requires p.Legal()
    ensures s.NumBuckets() == p.numBuckets && s.Arity() == p.Arity() && s.Segmented()
         && s.segmentSize == p.SegmentSize()
  {
    match p.schemeKind
    case Segmented2ary => Scheme.Segmented2ary(p.SegmentSize())
    case Segmented3ary => Scheme.Segmented3ary(p.SegmentSize())
    case Segmented4ary => Scheme.Segmented4ary(p.SegmentSize())
  }

  ghost predicate IsPower(d: nat, n: nat)
    requires d > 0
  {
    exists t: nat :: n == Pow(d, t)
  }

  /** Position inside the segment (`curIndex - position * size`). */
  function Local(curIndex: nat, size: nat): (r: nat)
    requires size > 0
    ensures r == curIndex % size
  {
    assert curIndex == size * (curIndex / size) + curIndex % size;
    curIndex - curIndex / size * size
  }

  // ---------- standard schemes: orbits of digit-wise addition ----------

  /** How many digits the additions of a standard scheme process. */
  function DigitCount(arity: nat): nat { if arity == 2 then 32 else if arity == 3 then 20 else 16 }

  /** The offset a standard scheme adds. */
  function Offset(s: Scheme, fingerprint: nat): nat
    requires !s.Segmented() && s.NumBuckets() > 0
  {
    if s.Standard3ary? then FingerprintHashMod(fingerprint, s.numBuckets)
    else FingerprintHash1(fingerprint, s.numBuckets)
  }

  /** A table of `d^t` buckets addressable by a u32 has few enough digits. */
  lemma {:induction false} DigitsSuffice(d: nat, t: nat)
    requires 2 <= d <= 4 && Pow(d, t) < U32
    ensures t <= DigitCount(d)
    ensures t <= 32
  {
    LargePowers();
    if t > DigitCount(d) { PowMonotone(d, DigitCount(d) + 1, t); }
  }

  lemma {:induction false} LargePowers()
    ensures Pow(2, 33) > U32 && Pow(3, 21) > U32 && Pow(4, 17) > U32
  {
    PowersOfTwo();
    PowOfTwo(33);
    PowOfFour(17);
    PowMonotone(2, 33, 34);
    PowOfTwo(34);
    assert Pow(3, 7) == 2187;
    PowAdd(3, 7, 7);
    PowAdd(3, 14, 7);
  }

  lemma {:induction false} PowAdd(d: nat, a: nat, b: nat)
    requires d > 0
    ensures Pow(d, a + b) == Pow(d, a) * Pow(d, b)
  {
    if a > 0 { PowAdd(d, a - 1, b); }
  }

  /** Candidate `k` of a standard scheme is the current bucket with the offset added `k` times. */
  lemma {:induction false} StandardCandidates(s: Scheme, cur: nat, fp: nat)
    requires s.Valid() && !s.Segmented() && cur < s.NumBuckets()
    ensures var d, n, h := s.Arity(), DigitCount(s.Arity()), Offset(s, fp);
            && (forall k :: 0 <= k < d ==> s.AllIndices(cur, fp)[k] == Rotate(d, n, cur, h, k))
            && exists t: nat :: t <= n && s.numBuckets == Pow(d, t) && cur < Pow(d, t) && h < Pow(d, t)
  {
    var d, n, h := s.Arity(), DigitCount(s.Arity()), Offset(s, fp);
    var t: nat :| s.numBuckets == Pow(d, t);
    DigitsSuffice(d, t);
    OffsetBound(s, fp, t);
    RotateThrice(d, n, cur, h);
    AdditionOf(d, cur, h);
    AdditionOf(d, DigitAdd(d, n, cur, h), h);
    AdditionOf(d, DigitAdd(d, n, DigitAdd(d, n, cur, h), h), h);
    assert Rotate(d, n, cur, h, 0) == cur;
  }

  lemma {:induction false} AdditionOf(d: nat, a: nat, h: nat)
    requires 2 <= d <= 4
    ensures DigitAdd(d, DigitCount(d), a, h)
         == (if d == 2 then Xor(a, h, 32) else if d == 3 then Xor3(a, h) else Xor4(a, h))
  {
    XorIsDigitAdd(a, h, 32);
    Xor3IsDigitAdd(a, h);
    Xor4IsDigitAdd(a, h);
  }

  lemma {:induction false} OffsetBound(s: Scheme, fp: nat, t: nat)
    requires !s.Segmented() && s.numBuckets == Pow(s.Arity(), t)
    ensures Offset(s, fp) < s.numBuckets
  {
    if !s.Standard3ary? {
      PowOfTwo(t);
      PowOfFour(t);
      if s.Standard2ary? { MaskBound(MixHigh(fp, 0xff51_afd7_ed55_8ccd), 32, t); }
      else { MaskBound(MixHigh(fp, 0xff51_afd7_ed55_8ccd), 32, 2 * t); }
    }
  }

  /** Positions in a candidate array wrap around. */
  function Wrap(k: nat, arity: nat): nat { if k < arity then k else k - arity }

  /** Every candidate of a candidate is a candidate. */
  lemma {:induction false} StandardClosed(s: Scheme, cur: nat, fp: nat, k: nat, j: nat)
    requires s.Valid() && !s.Segmented() && cur < s.NumBuckets() && k < s.Arity() && j < s.Arity()
    ensures s.AllIndices(cur, fp)[k] < s.NumBuckets()
    ensures s.AllIndices(s.AllIndices(cur, fp)[k], fp)[j] == s.AllIndices(cur, fp)[Wrap(j + k, s.Arity())]
  {
    hide Scheme.AllIndices;
    var d, n, h := s.Arity(), DigitCount(s.Arity()), Offset(s, fp);
    StandardCandidates(s, cur, fp);
    var t: nat :| t <= n && s.numBuckets == Pow(d, t) && cur < Pow(d, t) && h < Pow(d, t);
    RotateBound(d, n, cur, h, k, t);
    var c := Rotate(d, n, cur, h, k);
    StandardCandidates(s, c, fp);
    RotateRotate(d, n, cur, h, k, j);
    Cycle(d, n, cur, h, t);
    if k + j >= d {
      RotateRotate(d, n, cur, h, d, k + j - d);
    }
  }

  // ---------- segmented schemes: one array per primary index ----------

  /** The offset between the local indices of segments `k - 1` and `k`. */
  function HashOf(k: nat, fp: nat, size: nat): nat
    requires size > 0
  {
    if k == 1 then FingerprintHash1(fp, size)
    else if k == 2 then FingerprintHash2(fp, size)
    else FingerprintHash3(fp, size)
  }

  /** The local index in segment `k` of the candidates with primary index `i1`. */
  function LocalAt(k: nat, i1: nat, fp: nat, size: nat): nat
    requires size > 0
  {
    if k == 0 then i1 else Xor(LocalAt(k - 1, i1, fp, size), HashOf(k, fp, size), 32)
  }

  /** The candidates of a segmented scheme with primary index `i1`. */
  function FromPrimary(s: Scheme, i1: nat, fp: nat): (r: seq<nat>)
    requires s.Segmented() && s.segmentSize > 0
  {
    seq(4, k requires 0 <= k < 4 => if k < s.Arity() then k * s.segmentSize + LocalAt(k, i1, fp, s.segmentSize) else 0)
  }

  /** XOR with an offset of a power-of-two segment stays inside it and undoes itself. */
  lemma {:induction false} XorInSegment(a: nat, multiplier: nat, fp: nat, size: nat)
    requires IsPower(2, size) && a < size < U32
    ensures var h := And(MixHigh(fp, multiplier), size - 1, 32);
            Xor(a, h, 32) < size && Xor(Xor(a, h, 32), h, 32) == a
  {
    var t: nat :| size == Pow(2, t);
    DigitsSuffice(2, t);
    PowOfTwo(t);
    MaskBound(MixHigh(fp, multiplier), 32, t);
    Pow2Monotone(t, 32);
    var h := And(MixHigh(fp, multiplier), size - 1, 32);
    XorBound(a, h, 32, t);
    XorCancels(a, h, 32);
  }

  lemma {:induction false} XorStep(k: nat, a: nat, fp: nat, size: nat)
    requires IsPower(2, size) && a < size < U32
    ensures Xor(a, HashOf(k, fp, size), 32) < size
    ensures Xor(Xor(a, HashOf(k, fp, size), 32), HashOf(k, fp, size), 32) == a
  {
    XorInSegment(a, 0xff51_afd7_ed55_8ccd, fp, size);
    XorInSegment(a, 0xc4ce_b9fe_1a85_ec53, fp, size);
    XorInSegment(a, 0x9e37_79b9_7f4a_7c15, fp, size);
  }

  lemma {:induction false} LocalBound(k: nat, i1: nat, fp: nat, size: nat)
    requires IsPower(2, size) && i1 < size < U32
    ensures LocalAt(k, i1, fp, size) < size
    ensures k > 0 ==> Xor(LocalAt(k, i1, fp, size), HashOf(k, fp, size), 32) == LocalAt(k - 1, i1, fp, size)
  {
    if k > 0 {
      LocalBound(k - 1, i1, fp, size);
      XorStep(k, LocalAt(k - 1, i1, fp, size), fp, size);
    }
  }

  /** Every local index of segment `k` belongs to some primary index. */
  lemma {:induction false} PrimaryOf(k: nat, local: nat, fp: nat, size: nat) returns (i1: nat)
    requires IsPower(2, size) && local < size < U32
    ensures i1 < size && LocalAt(k, i1, fp, size) == local
  {
    if k == 0 {
      i1 := local;
    } else {
      XorStep(k, local, fp, size);
      i1 := PrimaryOf(k - 1, Xor(local, HashOf(k, fp, size), 32), fp, size);
    }
  }

  lemma {:induction false} SplitIndex(position: nat, local: nat, size: nat)
    requires local < size
    ensures (position * size + local) / size == position && Local(position * size + local, size) == local
    ensures position * size <= position * size + local < (position + 1) * size
  {
    DivModUnique(position * size + local, size, position, local);
  }

  /** From any of its entries, `AllIndices` rebuilds the identical array. */
  lemma {:induction false} SegmentedSame(s: Scheme, i1: nat, fp: nat, k: nat)
    requires s.Valid() && s.Segmented() && i1 < s.segmentSize && k < s.Arity()
    ensures k * s.segmentSize <= FromPrimary(s, i1, fp)[k] < (k + 1) * s.segmentSize
    ensures FromPrimary(s, i1, fp)[k] < s.NumBuckets()
    ensures s.AllIndices(FromPrimary(s, i1, fp)[k], fp) == FromPrimary(s, i1, fp)
  {
    var size := s.segmentSize;
    LocalBound(1, i1, fp, size);
    LocalBound(2, i1, fp, size);
    LocalBound(3, i1, fp, size);
    LocalBound(k, i1, fp, size);
    SplitIndex(k, LocalAt(k, i1, fp, size), size);
    MulMonotone(size, k + 1, s.Arity());
    Rebuild(s, i1, fp, k);
  }

  lemma {:induction false} Rebuild(s: Scheme, i1: nat, fp: nat, k: nat)
    requires s.Segmented() && k < s.Arity() && i1 < s.segmentSize
    requires var c, size := FromPrimary(s, i1, fp)[k], s.segmentSize;
             c < s.NumBuckets() && c / size == k && Local(c, size) == LocalAt(k, i1, fp, size) < size
    requires forall j :: 1 <= j <= 3 ==>
               Xor(LocalAt(j, i1, fp, s.segmentSize), HashOf(j, fp, s.segmentSize), 32)
                    == LocalAt(j - 1, i1, fp, s.segmentSize)
    ensures s.AllIndices(FromPrimary(s, i1, fp)[k], fp) == FromPrimary(s, i1, fp)
  {
    hide Xor, FingerprintHash1, FingerprintHash2, FingerprintHash3, Local;
    var size := s.segmentSize;
    var l0, l1, l2, l3 := i1, LocalAt(1, i1, fp, size), LocalAt(2, i1, fp, size), LocalAt(3, i1, fp, size);
    assert LocalAt(0, i1, fp, size) == l0;
    assert l1 == Xor(l0, FingerprintHash1(fp, size), 32) && Xor(l1, FingerprintHash1(fp, size), 32) == l0;
    assert l2 == Xor(l1, FingerprintHash2(fp, size), 32) && Xor(l2, FingerprintHash2(fp, size), 32) == l1;
    assert l3 == Xor(l2, FingerprintHash3(fp, size), 32) && Xor(l3, FingerprintHash3(fp, size), 32) == l2;
  }

  /** Every bucket is an entry of some array. */
  lemma {:induction false} SegmentedHas(s: Scheme, cur: nat, fp: nat) returns (i1: nat, k: nat)
    requires s.Valid() && s.Segmented() && cur < s.NumBuckets()
    ensures i1 < s.segmentSize && k < s.Arity() && FromPrimary(s, i1, fp)[k] == cur
  {
    var size := s.segmentSize;
    k := cur / size;
    assert cur == size * k + cur % size;
    if k >= s.Arity() { MulMonotone(size, s.Arity(), k); }
    i1 := PrimaryOf(k, cur % size, fp, size);
  }

  // ---------- orbits, for all six schemes ----------

  /** Candidates are buckets of the table, and the current bucket is one of them. */
  lemma {:induction false} OrbitInRange(s: Scheme, cur: nat, fp: nat)
    requires s.Valid() && cur < s.NumBuckets()
    ensures forall k :: 0 <= k < s.Arity() ==> s.AllIndices(cur, fp)[k] < s.NumBuckets()
    ensures cur in s.Orbit(cur, fp)
    ensures forall k :: 0 <= k < s.Arity() ==> s.AllIndices(cur, fp)[k] in s.Orbit(cur, fp)
  {
    var all := s.AllIndices(cur, fp);
    if s.Segmented() {
      var i1, j := SegmentedHas(s, cur, fp);
      SegmentedSame(s, i1, fp, j);
      forall k | 0 <= k < s.Arity() ensures all[k] < s.NumBuckets() { SegmentedSame(s, i1, fp, k); }
      assert all[..s.Arity()][j] == cur;
    } else {
      forall k | 0 <= k < s.Arity() ensures all[k] < s.NumBuckets() { StandardClosed(s, cur, fp, k, 0); }
      assert all[..s.Arity()][0] == cur;
    }
    forall k | 0 <= k < s.Arity() ensures all[k] in s.Orbit(cur, fp) { assert all[..s.Arity()][k] == all[k]; }
  }

  lemma {:induction false} OrbitPosition(s: Scheme, cur: nat, fp: nat, c: nat) returns (k: nat)
    requires cur < s.NumBuckets() && c in s.Orbit(cur, fp)
    ensures k < s.Arity() <= 4 && s.AllIndices(cur, fp)[k] == c
  {
    k :| 0 <= k < s.Arity() && s.AllIndices(cur, fp)[..s.Arity()][k] == c;
  }

  /** Whichever candidate holds a fingerprint, the same candidate set is rebuilt from it; the
      segmented schemes rebuild the identical array. */
  lemma {:induction false} OrbitSame(s: Scheme, cur: nat, fp: nat, c: nat)
    requires s.Valid() && cur < s.NumBuckets() && c in s.Orbit(cur, fp)
    ensures c < s.NumBuckets()
    ensures s.Orbit(c, fp) == s.Orbit(cur, fp)
    ensures s.Segmented() ==> s.AllIndices(c, fp) == s.AllIndices(cur, fp)
  {
    hide Scheme.AllIndices, Scheme.NumBuckets, Scheme.Valid;
    var k :| 0 <= k < s.Arity() && s.AllIndices(cur, fp)[..s.Arity()][k] == c;
    if s.Segmented() { SegmentedOrbit(s, cur, fp, k); } else { StandardOrbit(s, cur, fp, k); }
  }

  lemma {:induction false} SegmentedOrbit(s: Scheme, cur: nat, fp: nat, k: nat)
    requires s.Valid() && s.Segmented() && cur < s.NumBuckets() && k < s.Arity()
    ensures s.AllIndices(cur, fp)[k] < s.NumBuckets()
    ensures s.AllIndices(s.AllIndices(cur, fp)[k], fp) == s.AllIndices(cur, fp)
  {
    hide Scheme.AllIndices, Scheme.Valid;
    var i1, j := SegmentedHas(s, cur, fp);
    SegmentedSame(s, i1, fp, j);
    SegmentedSame(s, i1, fp, k);
  }

  lemma {:induction false} StandardOrbit(s: Scheme, cur: nat, fp: nat, k: nat)
    requires s.Valid() && !s.Segmented() && cur < s.NumBuckets() && k < s.Arity()
    ensures s.AllIndices(cur, fp)[k] < s.NumBuckets()
    ensures s.Orbit(s.AllIndices(cur, fp)[k], fp) == s.Orbit(cur, fp)
  {
    var c := s.AllIndices(cur, fp)[k];
    var back := if k == 0 then 0 else s.Arity() - k;
    StandardClosed(s, cur, fp, k, back);
    StandardClosed(s, cur, fp, 0, 0);
    StandardCandidates(s, cur, fp);
    assert s.AllIndices(cur, fp)[0] == cur;
    hide Scheme.AllIndices, Scheme.NumBuckets, Scheme.Valid;
    StandardWithin(s, cur, fp, k);
    StandardWithin(s, c, fp, back);
  }

  lemma {:induction false} StandardWithin(s: Scheme, cur: nat, fp: nat, k: nat)
    requires s.Valid() && !s.Segmented() && cur < s.NumBuckets() && k < s.Arity()
    requires s.AllIndices(cur, fp)[k] < s.NumBuckets()
    ensures s.Orbit(s.AllIndices(cur, fp)[k], fp) <= s.Orbit(cur, fp)
  {
    hide Scheme.AllIndices;
    var c := s.AllIndices(cur, fp)[k];
    forall x | x in s.Orbit(c, fp) ensures x in s.Orbit(cur, fp) {
      var j :| 0 <= j < s.Arity() && s.AllIndices(c, fp)[..s.Arity()][j] == x;
      StandardClosed(s, cur, fp, k, j);
      assert s.AllIndices(cur, fp)[..s.Arity()][Wrap(j + k, s.Arity())] == x;
    }
  }

  /** Orbits of one fingerprint are equal or disjoint. */
  lemma {:induction false} OrbitsPartition(s: Scheme, b: nat, c: nat, fp: nat)
    requires s.Valid() && b < s.NumBuckets() && c < s.NumBuckets()
    ensures s.Orbit(b, fp) == s.Orbit(c, fp) || s.Orbit(b, fp) !! s.Orbit(c, fp)
  {
    if x :| x in s.Orbit(b, fp) && x in s.Orbit(c, fp) {
      OrbitSame(s, b, fp, x);
      OrbitSame(s, c, fp, x);
    }
  }

  /** An item hashes to a non-zero fingerprint and to the array `AllIndices` rebuilds from its
      primary bucket, so to the orbit rebuilt from any of its candidates. */
  lemma {:induction false} ItemOrbit(s: Scheme, digest: nat, fingerprintBits: nat)
    requires s.Valid() && s.NumBuckets() > 0 && 1 <= fingerprintBits <= 64
    ensures var (fp, indices) := s.HashItem(digest, fingerprintBits);
            && 1 <= fp < Pow2(fingerprintBits)
            && indices[0] < s.NumBuckets()
            && indices == s.AllIndices(indices[0], fp)
            && (forall k :: 0 <= k < s.Arity() ==>
                  indices[k] < s.NumBuckets() && s.Orbit(indices[k], fp) == s.Orbit(indices[0], fp))
  {
    FingerprintInRange(digest % U64, fingerprintBits);
    var (fp, indices) := s.HashItem(digest, fingerprintBits);
    PrimaryInRange(s, digest, fingerprintBits);
    OrbitInRange(s, indices[0], fp);
    forall k | 0 <= k < s.Arity()
      ensures indices[k] < s.NumBuckets() && s.Orbit(indices[k], fp) == s.Orbit(indices[0], fp)
    {
      OrbitSame(s, indices[0], fp, indices[k]);
    }
  }

  lemma {:induction false} PrimaryInRange(s: Scheme, digest: nat, fingerprintBits: nat)
    requires s.Valid() && s.NumBuckets() > 0
    ensures var (fp, indices) := s.HashItem(digest, fingerprintBits);
            && fp == ExtractFingerprint(digest % U64, fingerprintBits)
            && indices[0] < s.NumBuckets() && indices == s.AllIndices(indices[0], fp)
  {
    var x := digest / U64 % U32;
    if s.Segmented() {
      SegmentedHash(s, digest, fingerprintBits);
    } else {
      var t: nat :| s.numBuckets == Pow(s.Arity(), t);
      StandardPrimary(s, x, t);
    }
  }

  lemma {:induction false} StandardPrimary(s: Scheme, x: nat, t: nat)
    requires !s.Segmented() && s.numBuckets == Pow(s.Arity(), t)
    ensures !s.Standard3ary? ==> And(x, s.numBuckets - 1, 32) < s.numBuckets
  {
    PowOfTwo(t);
    PowOfFour(t);
    if s.Standard2ary? { MaskBound(x, 32, t); } else if s.Standard4ary? { MaskBound(x, 32, 2 * t); }
  }

  lemma {:induction false} SegmentedHash(s: Scheme, digest: nat, fingerprintBits: nat)
    requires s.Valid() && s.Segmented() && s.segmentSize > 0
    ensures var (fp, indices) := s.HashItem(digest, fingerprintBits);
            && fp == ExtractFingerprint(digest % U64, fingerprintBits)
            && indices[0] < s.segmentSize && indices == s.AllIndices(indices[0], fp)
  {
    var size := s.segmentSize;
    var i1 := And(digest / U64 % U32, size - 1, 32);
    var t: nat :| size == Pow(2, t);
    PowOfTwo(t);
    MaskBound(digest / U64 % U32, 32, t);
    var fp := ExtractFingerprint(digest % U64, fingerprintBits);
    SegmentedSame(s, i1, fp, 0);
    HashIsPrimary(s, digest, fingerprintBits);
    FirstLocal(s, i1, fp);
    hide *;
  }

  lemma {:induction false} FirstLocal(s: Scheme, i1: nat, fp: nat)
    requires s.Segmented() && s.segmentSize > 0
    ensures FromPrimary(s, i1, fp)[0] == i1
  {
  }

  /** An item hashes to the array of its primary index. */
  lemma {:induction false} HashIsPrimary(s: Scheme, digest: nat, fingerprintBits: nat)
    requires s.Segmented() && s.segmentSize > 0
    ensures var fp := ExtractFingerprint(digest % U64, fingerprintBits);
            s.HashItem(digest, fingerprintBits)
                 == (fp, FromPrimary(s, And(digest / U64 % U32, s.segmentSize - 1, 32), fp))
  {
    var size, fp := s.segmentSize, ExtractFingerprint(digest % U64, fingerprintBits);
    var i1 := And(digest / U64 % U32, size - 1, 32);
    LocalValues(i1, fp, size);
    var primary := FromPrimary(s, i1, fp);
    assert |primary| == 4 && primary[0] == 0 * size + LocalAt(0, i1, fp, size)
         && primary[1] == 1 * size + LocalAt(1, i1, fp, size);
    hide Xor, And, Shr, FingerprintHash1, FingerprintHash2, FingerprintHash3, ExtractFingerprint, LocalAt;
    var hashed := s.HashItem(digest, fingerprintBits).1;
    assert hashed[0] == primary[0] && hashed[1] == primary[1] && hashed[2] == primary[2] && hashed[3] == primary[3];
    assert hashed == primary;
  }

  /** The local indices of the candidates, written out. */
  lemma {:induction false} LocalValues(i1: nat, fp: nat, size: nat)
    requires size > 0
    ensures LocalAt(0, i1, fp, size) == i1
    ensures LocalAt(1, i1, fp, size) == Xor(i1, FingerprintHash1(fp, size), 32)
    ensures LocalAt(2, i1, fp, size) == Xor(LocalAt(1, i1, fp, size), FingerprintHash2(fp, size), 32)
    ensures LocalAt(3, i1, fp, size) == Xor(LocalAt(2, i1, fp, size), FingerprintHash3(fp, size), 32)
  {
  }
}
