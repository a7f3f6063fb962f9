/** What the hash functions compute, in plain arithmetic: which items share a fingerprint, where an
    item's first bucket lies, and which fingerprints share an offset. */
module HashLaws {
  import opened Words
  import opened Digits
  import opened Hash
  import opened Scheme

  // ---------- masks ----------

  lemma {:induction false} ModBit(x: nat, t: nat, i: nat)
    ensures BitOf(x % Pow2(t), i) == (i < t && BitOf(x, i))
    decreases t
  {
    if t == 0 {
      BitOfZero(i);
    } else {
      HalfOfMod(x, Pow2(t - 1));
      if i > 0 { ModBit(x / 2, t - 1, i - 1); }
    }
  }

  lemma {:induction false} HalfOfMod(x: nat, p: nat)
    requires p > 0
    ensures x % (2 * p) / 2 == x / 2 % p && x % (2 * p) % 2 == x % 2
  {
    var q, r := x / (2 * p), x % (2 * p);
    assert x == (2 * p) * q + r && (2 * p) * q == 2 * (p * q);
    assert x / 2 == p * q + r / 2;
    DivModUnique(x / 2, p, q, r / 2);
  }

  /** Masking with `2^t - 1` is reduction modulo `2^t`. */
  lemma {:induction false} MaskIsModulo(x: nat, w: nat, t: nat)
    requires t <= w
    ensures And(x, Pow2(t) - 1, w) == x % Pow2(t)
  {
    OpBounds(x, Pow2(t) - 1, w);
    Pow2Monotone(t, w);
    forall i | 0 <= i < w ensures BitOf(And(x, Pow2(t) - 1, w), i) == BitOf(x % Pow2(t), i) {
      OpBits(x, Pow2(t) - 1, w, i);
      MaskBit(t, i);
      ModBit(x, t, i);
    }
    SameBits(And(x, Pow2(t) - 1, w), x % Pow2(t), w);
  }

  // ---------- fingerprints ----------

  /** The fingerprint is the digest's low bits, 1 standing in for 0. */
  lemma {:induction false} FingerprintIs(h: nat, bits: nat)
    requires h < U64 && 1 <= bits <= 64
    ensures ExtractFingerprint(h, bits) == if h % Pow2(bits) == 0 then 1 else h % Pow2(bits)
  {
    PowersOfTwo();
    MaskIsModulo(h, 64, bits);
    if bits < 64 { Pow2Monotone(bits, 64); }
  }

  /** Two digests share a fingerprint if and only if their low bits agree, up to 0 and 1. */
  lemma {:induction false} SameFingerprintIff(h: nat, h': nat, bits: nat)
    requires h < U64 && h' < U64 && 1 <= bits <= 64
    ensures ExtractFingerprint(h, bits) == ExtractFingerprint(h', bits)
       <==> h % Pow2(bits) == h' % Pow2(bits) || (h % Pow2(bits) <= 1 && h' % Pow2(bits) <= 1)
  {
    FingerprintIs(h, bits);
    FingerprintIs(h', bits);
  }

  // ---------- first buckets ----------

  /** The number of buckets the first one is chosen from. */
  function FirstRange(s: Scheme): nat { if s.Segmented() then s.segmentSize else s.NumBuckets() }

  /** An item's fingerprint comes from the low half of its digest and its first bucket from the high
      half, reduced modulo the range. */
  lemma {:induction false} ItemIs(s: Scheme, digest: nat, bits: nat)
    requires s.Valid() && s.NumBuckets() > 0
    ensures FirstRange(s) > 0
    ensures s.HashItem(digest, bits).0 == ExtractFingerprint(digest % U64, bits)
    ensures s.HashItem(digest, bits).1[0] == digest / U64 % U32 % FirstRange(s)
  {
    var x, n := digest / U64 % U32, FirstRange(s);
    if !s.Standard3ary? {
      var t := RangeIsPower(s);
      MaskIsModulo(x, 32, t);
    }
  }

  /** All ranges but those of the standard 3-ary scheme are powers of two. */
  lemma {:induction false} RangeIsPower(s: Scheme) returns (t: nat)
    requires s.Valid() && s.NumBuckets() > 0 && !s.Standard3ary?
    ensures t <= 32 && FirstRange(s) == Pow2(t)
  {
    var d := if s.Standard4ary? then 4 else 2;
    var e: nat :| FirstRange(s) == Pow(d, e);
    PowOfTwo(e);
    PowOfFour(e);
    t := if s.Standard4ary? then 2 * e else e;
    assert FirstRange(s) <= s.NumBuckets() < U32;
    assert FirstRange(s) == Pow2(t);
    hide *;
    PowersOfTwo();
    if t > 32 { Pow2Monotone(32, t); }
  }

  // ---------- offsets ----------

  /** The multiplier of offset `k`. */
  function Multiplier(k: nat): (m: nat)
    ensures m % 2 == 1
  {
    if k == 1 then 0xff51_afd7_ed55_8ccd else if k == 2 then 0xc4ce_b9fe_1a85_ec53 else 0x9e37_79b9_7f4a_7c15
  }

  /** The mixed value is the upper word of the 64-bit product. */
  lemma {:induction false} MixIsUpperWord(fp: nat, m: nat)
    ensures (fp * m) % U64 == MixHigh(fp, m) * U32 + (fp * m) % U64 % U32
    ensures MixHigh(fp, m) < U32
  {
    var v := (fp * m) % U64;
    assert v == U32 * (v / U32) + v % U32;
    assert U64 == U32 * U32;
  }

  /** Offset `k` in a power-of-two range is the upper word of the product with its multiplier, reduced. */
  lemma {:induction false} OffsetIs(k: nat, fp: nat, t: nat)
    requires 1 <= k <= 3 && t <= 32
    ensures HashOf(k, fp, Pow2(t)) == MixHigh(fp, Multiplier(k)) % Pow2(t)
  {
    MaskIsModulo(MixHigh(fp, Multiplier(k)), 32, t);
  }

  /** The offset of a standard scheme is the same upper word, modulo the number of buckets. */
  lemma {:induction false} StandardOffsetIs(s: Scheme, fp: nat)
    requires s.Valid() && !s.Segmented() && s.NumBuckets() > 0
    ensures Offset(s, fp) == MixHigh(fp, Multiplier(1)) % s.numBuckets
  {
    if !s.Standard3ary? {
      var t := RangeIsPower(s);
      MaskIsModulo(MixHigh(fp, Multiplier(1)), 32, t);
    }
  }

  lemma {:induction false} ModOfMod(v: nat, t: nat, w: nat)
    requires t <= w
    ensures v % Pow2(w) % Pow2(t) == v % Pow2(t)
  {
    Pow2Add(t, w - t);
    ModChain(v, Pow2(t), Pow2(w - t));
  }

  lemma {:induction false} ModChain(v: nat, p: nat, q: nat)
    requires p > 0 && q > 0
    ensures p * q > 0 && v % (p * q) % p == v % p
  {
    MulMonotone(p, 1, q);
    var n := p * q;
    var k, r := v / n, v % n;
    assert v == n * k + r;
    var i, low := r / p, r % p;
    assert r == p * i + low;
    ChainedParts(v, p, q, k, i, low);
  }

  lemma {:induction false} ChainedParts(v: int, p: nat, q: nat, k: int, i: int, low: nat)
    requires low < p && v == (p * q) * k + (p * i + low)
    ensures v % p == low
  {
    assert (p * q) * k == p * (q * k);
    assert p * (q * k + i) == p * (q * k) + p * i;
    DivModUnique(v, p, q * k + i, low);
  }

  /** The upper word moves by the multiplier for each step of the fingerprint's upper word. */
  lemma {:induction false} MixShifts(a: nat, b: nat, m: nat)
    ensures MixHigh(a + b * U32, m) == (a * m / U32 + b * m) % U32
  {
    var q, r, n := a * m / U32, a * m % U32, b * m;
    assert a * m == U32 * q + r;
    Distributes(a, b, m);
    var v := U32 * (q + n) + r;
    assert (a + b * U32) * m == v;
    var k, low := (q + n) / U32, (q + n) % U32;
    assert q + n == U32 * k + low;
    assert U64 == U32 * U32;
    assert v == U64 * k + (U32 * low + r);
    DivModUnique(v, U64, k, U32 * low + r);
    DivModUnique(U32 * low + r, U32, low, r);
  }

  lemma {:induction false} Distributes(a: nat, b: nat, m: nat)
    ensures (a + b * U32) * m == a * m + U32 * (b * m)
  {
    assert (a + b * U32) * m == a * m + (b * U32) * m;
    assert (b * U32) * m == U32 * (b * m);
  }

  /** Odd factors cancel modulo a power of two. */
  lemma {:induction false} OddCancels(t: nat, m: nat, x: int)
    requires m % 2 == 1
    ensures (m * x) % Pow2(t) == 0 <==> x % Pow2(t) == 0
    decreases t
  {
    if t > 0 {
      var p := Pow2(t - 1);
      EvenFactor(m, x, p);
      if x % 2 == 0 {
        OddCancels(t - 1, m, x / 2);
        assert m * x == 2 * (m * (x / 2)) by { assert x == 2 * (x / 2); }
        DoubledModulo(m * (x / 2), p);
        DoubledModulo(x / 2, p);
      }
    }
  }

  lemma {:induction false} DoubledModulo(y: int, p: nat)
    requires p > 0
    ensures (2 * y) % (2 * p) == 0 <==> y % p == 0
  {
    var q, r := y / p, y % p;
    assert y == p * q + r;
    assert 2 * y == (2 * p) * q + 2 * r by { assert 2 * (p * q) == (2 * p) * q; }
    DivModUnique(2 * y, 2 * p, q, 2 * r);
  }

  /** An odd `x` is a multiple of no even modulus, nor is its product with an odd factor. */
  lemma {:induction false} EvenFactor(m: nat, x: int, p: nat)
    requires m % 2 == 1 && p > 0
    ensures x % 2 == 1 ==> x % (2 * p) != 0 && (m * x) % (2 * p) != 0
  {
    if x % 2 == 1 {
      OddIsNoMultiple(x, p);
      OddTimesOdd(m / 2, m, x / 2, x);
      OddIsNoMultiple(m * x, p);
    }
  }

  lemma {:induction false} OddTimesOdd(n: int, m: int, y: int, x: int)
    requires m == 2 * n + 1 && x == 2 * y + 1
    ensures (m * x) % 2 == 1
  {
    assert (2 * n + 1) * x == 2 * (n * x) + x;
  }

  lemma {:induction false} OddIsNoMultiple(v: int, p: nat)
    requires p > 0 && v % 2 == 1
    ensures v % (2 * p) != 0
  {
    var q, r := v / (2 * p), v % (2 * p);
    assert v == (2 * p) * q + r && (2 * p) * q == 2 * (p * q);
  }

  /** Fingerprints that differ only above bit 31 share an offset if and only if the differing words
      agree in the offset's own bits: the upper word is not lost. */
  lemma {:induction false} OffsetsSeeUpperWord(k: nat, a: nat, b: nat, b': nat, t: nat)
    requires 1 <= k <= 3 && t <= 32
    ensures HashOf(k, a + b * U32, Pow2(t)) == HashOf(k, a + b' * U32, Pow2(t))
       <==> b % Pow2(t) == b' % Pow2(t)
  {
    var m, p, q := Multiplier(k), Pow2(t), a * Multiplier(k) / U32;
    OffsetIs(k, a + b * U32, t);
    OffsetIs(k, a + b' * U32, t);
    MixShifts(a, b, m);
    MixShifts(a, b', m);
    PowersOfTwo();
    ModOfMod(q + b * m, t, 32);
    ModOfMod(q + b' * m, t, 32);
    hide *;
    OddStepsDiffer(q, b, b', m, t);
  }

  lemma {:induction false} OddStepsDiffer(q: nat, b: nat, b': nat, m: nat, t: nat)
    requires m % 2 == 1
    ensures (q + b * m) % Pow2(t) == (q + b' * m) % Pow2(t) <==> b % Pow2(t) == b' % Pow2(t)
  {
    SameModulo(q + b * m, q + b' * m, Pow2(t));
    SameModulo(b, b', Pow2(t));
    StepsApart(q, b, b', m);
    OddCancels(t, m, b - b');
    hide *;
  }

  lemma {:induction false} StepsApart(q: nat, b: nat, b': nat, m: nat)
    ensures (q + b * m) - (q + b' * m) == m * (b - b')
  {
  }

  lemma {:induction false} SameModulo(x: int, y: int, p: nat)
    requires p > 0
    ensures x % p == y % p <==> (x - y) % p == 0
  {
    var q, r, q', r' := x / p, x % p, y / p, y % p;
    assert x == p * q + r && y == p * q' + r';
    assert x - y == p * (q - q') + (r - r') by { assert p * q - p * q' == p * (q - q'); }
    if r >= r' { DivModUnique(x - y, p, q - q', r - r'); }
    else {
      assert x - y == p * (q - q' - 1) + (p + r - r') by { assert p * (q - q' - 1) == p * (q - q') - p; }
      DivModUnique(x - y, p, q - q' - 1, p + r - r');
    }
  }
}
