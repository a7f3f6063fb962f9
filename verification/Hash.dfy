/** Fingerprints, index hashes and the digit-wise additions of the index schemes.

    The digest of an item is an arbitrary 128-bit number: nothing below depends on how it is
    computed.  Indices and ranges are u32 values, fingerprints u64 values. */
module Hash {
  import opened Words
  import opened Digits

  // ---------- offsets ----------

  /** The high half of the wrapped 64-bit product. */
  function MixHigh(fingerprint: nat, multiplier: nat): nat {
    (fingerprint * multiplier) % U64 / U32
  }

  function FingerprintHash1(fingerprint: nat, range: nat): nat
    requires range > 0
  {
    And(MixHigh(fingerprint, 0xff51_afd7_ed55_8ccd), range - 1, 32)
  }

  function FingerprintHash2(fingerprint: nat, range: nat): nat
    requires range > 0
  {
    And(MixHigh(fingerprint, 0xc4ce_b9fe_1a85_ec53), range - 1, 32)
  }

  function FingerprintHash3(fingerprint: nat, range: nat): nat
    requires range > 0
  {
    And(MixHigh(fingerprint, 0x9e37_79b9_7f4a_7c15), range - 1, 32)
  }

  function FingerprintHashMod(fingerprint: nat, range: nat): nat
    requires range > 0
  {
    MixHigh(fingerprint, 0xff51_afd7_ed55_8ccd) % range
  }

  /** The fingerprint of a digest: its low bits, with 0 (which marks an empty slot) replaced by 1. */
  function ExtractFingerprint(h: nat, fingerprintBits: nat): nat {
    var mask := if fingerprintBits >= 64 then U64 - 1 else Pow2(fingerprintBits) - 1;
    var fingerprint := And(h, mask, 64);
    if fingerprint == 0 then 1 else fingerprint
  }

  function HashAndI1(digest: nat, fingerprintBits: nat, range: nat): (nat, nat)
    requires range > 0
  {
    (ExtractFingerprint(digest % U64, fingerprintBits), And(digest / U64 % U32, range - 1, 32))
  }

  // ---------- masks ----------

  /** `2^t - 1` has exactly its low `t` bits set. */
  lemma {:induction false} MaskBit(t: nat, i: nat)
    ensures BitOf(Pow2(t) - 1, i) == (i < t)
    decreases i
  {
    if t == 0 {
      BitOfZero(i);
    } else if i > 0 {
      assert (Pow2(t) - 1) / 2 == Pow2(t - 1) - 1;
      MaskBit(t - 1, i - 1);
    }
  }

  lemma {:induction false} HighBitsClear(v: nat, w: nat, t: nat)
    requires v < Pow2(w)
    requires forall i :: t <= i < w ==> !BitOf(v, i)
    ensures v < Pow2(t)
    decreases w
  {
    if t == 0 {
      forall i | 0 <= i < w ensures BitOf(v, i) == BitOf(0, i) { BitOfZero(i); }
      SameBits(v, 0, w);
    } else if w > 0 {
      forall i | t - 1 <= i < w - 1 ensures !BitOf(v / 2, i) { assert !BitOf(v, i + 1); }
      HighBitsClear(v / 2, w - 1, t - 1);
    }
  }

  /** Masking with `2^t - 1` leaves a `t`-bit value. */
  lemma {:induction false} MaskBound(x: nat, w: nat, t: nat)
    ensures And(x, Pow2(t) - 1, w) < Pow2(t)
  {
    var m := Pow2(t) - 1;
    OpBounds(x, m, w);
    forall i | t <= i < w ensures !BitOf(And(x, m, w), i) {
      OpBits(x, m, w, i);
      MaskBit(t, i);
    }
    HighBitsClear(And(x, m, w), w, t);
  }

  /** A fingerprint is never the empty marker and fits its width. */
  lemma {:induction false} FingerprintInRange(h: nat, fingerprintBits: nat)
    requires 1 <= fingerprintBits <= 64
    ensures 1 <= ExtractFingerprint(h, fingerprintBits) < Pow2(fingerprintBits)
  {
    PowersOfTwo();
    MaskBound(h, 64, fingerprintBits);
    assert Pow2(fingerprintBits) == 2 * Pow2(fingerprintBits - 1);
  }

  // ---------- base 3 ----------

  /** One table entry: the digit loop over four base-3 digits. */
  function T81(x: nat, y: nat): nat {
    DigitAdd(3, 4, x, y)
  }

  /** The innermost loop of the table construction. */
  method SumDigits(x: nat, y: nat) returns (r: nat)
    ensures r == T81(x, y) < 81
  {
    var place, d := 1, 0;
    ghost var xs, ys := x, y;
    r := 0;
    while d < 4
      invariant 0 <= d <= 4
      invariant place > 0 && xs == x / place && ys == y / place
      invariant r + place * DigitAdd(3, 4 - d, xs, ys) == T81(x, y)
    {
      DivDiv(x, place);
      DivDiv(y, place);
      var digit := (x / place % 3 + y / place % 3) % 3;
      NextDigit(4 - d, place, xs, ys, r);
      r := r + digit * place;
      place := 3 * place;
      xs, ys := xs / 3, ys / 3;
      d := d + 1;
    }
    DigitAddBound(3, 4, x, y);
  }

  lemma {:induction false} NextDigit(n: nat, place: nat, xs: nat, ys: nat, r: nat)
    requires n > 0
    ensures r + place * DigitAdd(3, n, xs, ys)
         == r + (xs % 3 + ys % 3) % 3 * place + (3 * place) * DigitAdd(3, n - 1, xs / 3, ys / 3)
  {
    var digit, rest := (xs % 3 + ys % 3) % 3, DigitAdd(3, n - 1, xs / 3, ys / 3);
    assert place * (digit + 3 * rest) == digit * place + (3 * place) * rest;
  }

  lemma {:induction false} DivDiv(x: nat, place: nat)
    requires place > 0
    ensures x / (3 * place) == x / place / 3
  {
    var q := x / place;
    assert x == place * q + x % place && q == 3 * (q / 3) + q % 3;
    assert x == (3 * place) * (q / 3) + (place * (q % 3) + x % place);
    MulMonotone(place, q % 3, 2);
    DivModUnique(x, 3 * place, q / 3, place * (q % 3) + x % place);
  }

  method BuildXor3T81() returns (t: array2<nat>)
    ensures fresh(t) && t.Length0 == 81 && t.Length1 == 81
    ensures forall x, y :: 0 <= x < 81 && 0 <= y < 81 ==> t[x, y] == T81(x, y) < 81
  {
    t := new nat[81, 81]((_, _) => 0);
    var x := 0;
    while x < 81
      invariant 0 <= x <= 81
      invariant forall i, j :: 0 <= i < x && 0 <= j < 81 ==> t[i, j] == T81(i, j) < 81
    {
      var y := 0;
      while y < 81
        invariant 0 <= y <= 81
        invariant forall i, j :: 0 <= i < x && 0 <= j < 81 ==> t[i, j] == T81(i, j) < 81
        invariant forall j :: 0 <= j < y ==> t[x, j] == T81(x, j) < 81
      {
        t[x, y] := SumDigits(x, y);
        y := y + 1;
      }
      x := x + 1;
    }
  }

  /** Five table look-ups, one for each chunk of four digits. */
  function Xor3(a: nat, b: nat): nat {
    T81(a % 81, b % 81)
    + T81(a / 81 % 81, b / 81 % 81) * 81
    + T81(a / 6561 % 81, b / 6561 % 81) * 6561
    + T81(a / 531441 % 81, b / 531441 % 81) * 531441
    + T81(a / 43046721 % 81, b / 43046721 % 81) * 43046721
  }

  lemma {:induction false} Chunk(n: nat, a: nat, b: nat)
    ensures DigitAdd(3, n + 4, a, b) == T81(a % 81, b % 81) + 81 * DigitAdd(3, n, a / 81, b / 81)
  {
    hide *;
    ChunkDigits(a, b);
    var a1, b1 := Rest(a), Rest(b);
    var a2, b2 := Rest(a1), Rest(b1);
    var a3, b3 := Rest(a2), Rest(b2);
    T81Digits(a % 81, b % 81);
    FirstDigit(n + 3, a, b);
    FirstDigit(n + 2, a1, b1);
    FirstDigit(n + 1, a2, b2);
    FirstDigit(n, a3, b3);
  }

  /** The sum of two lowest base-3 digits, and a number without its lowest digit. */
  function LowSum(a: nat, b: nat): nat { (a % 3 + b % 3) % 3 }

  function Rest(a: nat): nat { a / 3 }

  lemma {:induction false} FirstDigit(n: nat, a: nat, b: nat)
    ensures DigitAdd(3, n + 1, a, b) == LowSum(a, b) + 3 * DigitAdd(3, n, Rest(a), Rest(b))
  {
  }

  lemma {:induction false} T81Digits(x: nat, y: nat)
    ensures T81(x, y) == LowSum(x, y) + 3 * LowSum(Rest(x), Rest(y)) + 9 * LowSum(Rest(Rest(x)), Rest(Rest(y)))
                       + 27 * LowSum(Rest(Rest(Rest(x))), Rest(Rest(Rest(y))))
  {
    var x1, y1 := Rest(x), Rest(y);
    var x2, y2 := Rest(x1), Rest(y1);
    FirstDigit(3, x, y);
    FirstDigit(2, x1, y1);
    FirstDigit(1, x2, y2);
    FirstDigit(0, Rest(x2), Rest(y2));
    hide Rest, LowSum;
  }

  /** A chunk of four digits has the digits of the whole. */
  lemma {:induction false} ChunkDigits(a: nat, b: nat)
    ensures var c, d := a % 81, b % 81;
            && LowSum(c, d) == LowSum(a, b) && LowSum(Rest(c), Rest(d)) == LowSum(Rest(a), Rest(b))
            && LowSum(Rest(Rest(c)), Rest(Rest(d))) == LowSum(Rest(Rest(a)), Rest(Rest(b)))
            && LowSum(Rest(Rest(Rest(c))), Rest(Rest(Rest(d)))) == LowSum(Rest(Rest(Rest(a))), Rest(Rest(Rest(b))))
    ensures Rest(Rest(Rest(Rest(a)))) == a / 81 && Rest(Rest(Rest(Rest(b)))) == b / 81
  {
    ThreeDigits(a);
    ThreeDigits(b);
  }

  lemma {:induction false} ThreeDigits(a: nat)
    ensures a / 3 / 3 / 3 / 3 == a / 81
    ensures var c := a % 81;
            && c % 3 == a % 3 && c / 3 % 3 == a / 3 % 3
            && c / 3 / 3 % 3 == a / 3 / 3 % 3 && c / 3 / 3 / 3 % 3 == a / 3 / 3 / 3 % 3
  {
    var q, c := a / 81, a % 81;
    assert a / 3 == 27 * q + c / 3;
    assert a / 3 / 3 == 9 * q + c / 3 / 3;
    assert a / 3 / 3 / 3 == 3 * q + c / 3 / 3 / 3;
  }

  /** The chunked sum is the digit-wise sum of digits 0 to 19, on all numbers. */
  lemma {:induction false} Xor3IsDigitAdd(a: nat, b: nat)
    ensures Xor3(a, b) == DigitAdd(3, 20, a, b)
  {
    Chunk(16, a, b);
    Chunk(12, a / 81, b / 81);
    Chunk(8, a / 6561, b / 6561);
    Chunk(4, a / 531441, b / 531441);
    Chunk(0, a / 43046721, b / 43046721);
    assert a / 81 / 81 == a / 6561 && a / 6561 / 81 == a / 531441 && a / 531441 / 81 == a / 43046721;
    assert b / 81 / 81 == b / 6561 && b / 6561 / 81 == b / 531441 && b / 531441 / 81 == b / 43046721;
  }

  /** `xor3` over the table that `BuildXor3T81` returns. */
  method LookUpXor3(t: array2<nat>, a: nat, b: nat) returns (r: nat)
    requires t.Length0 == 81 && t.Length1 == 81
    requires forall x, y :: 0 <= x < 81 && 0 <= y < 81 ==> t[x, y] == T81(x, y)
    ensures r == DigitAdd(3, 20, a, b)
  {
    var c0 := t[a % 81, b % 81];
    var c1 := t[a / 81 % 81, b / 81 % 81];
    var c2 := t[a / 6561 % 81, b / 6561 % 81];
    var c3 := t[a / 531441 % 81, b / 531441 % 81];
    var c4 := t[a / 43046721 % 81, b / 43046721 % 81];
    r := c0 + c1 * 81 + c2 * 6561 + c3 * 531441 + c4 * 43046721;
    Xor3IsDigitAdd(a, b);
  }

  // ---------- base 4 ----------

  const LO_MASK: nat := 0x5555_5555

  /** Low and high bits of each two-bit digit are added separately, the low carry going up. */
  function Xor4(a: nat, b: nat): nat {
    var aLo, bLo := And(a, LO_MASK, 32), And(b, LO_MASK, 32);
    var aHi, bHi := And(Shr(a, 1), LO_MASK, 32), And(Shr(b, 1), LO_MASK, 32);
    var carry := And(aLo, bLo, 32);
    var sumHi := Xor(Xor(aHi, bHi, 32), carry, 32);
    Or(Xor(aLo, bLo, 32), Shl(sumHi, 1, 32), 32)
  }

  function EvenBits(n: nat): nat { if n == 0 then 0 else 1 + 4 * EvenBits(n - 1) }

  lemma {:induction false} EvenBitsBit(n: nat, i: nat)
    requires i < 2 * n
    ensures BitOf(EvenBits(n), i) == (i % 2 == 0)
    decreases n
  {
    var v := EvenBits(n);
    assert v / 2 == 2 * EvenBits(n - 1) && v / 2 / 2 == EvenBits(n - 1);
    if i >= 2 {
      EvenBitsBit(n - 1, i - 2);
      assert BitOf(v, i) == BitOf(v / 2, i - 1) == BitOf(v / 2 / 2, i - 2);
    }
  }

  lemma {:induction false} EvenBitsSum(m: nat, n: nat)
    ensures EvenBits(m + n) == EvenBits(m) + Pow(4, m) * EvenBits(n)
  {
    if m > 0 { EvenBitsSum(m - 1, n); }
  }

  lemma {:induction false} LoMaskBit(i: nat)
    requires i < 32
    ensures BitOf(LO_MASK, i) == (i % 2 == 0)
  {
    assert Pow(4, 4) == 256 && EvenBits(4) == 0x55;
    EvenBitsSum(4, 4);
    EvenBitsSum(4, 8);
    EvenBitsSum(4, 12);
    EvenBitsBit(16, i);
  }

  /** The two bits of digit `k` of the sum. */
  lemma {:induction false} Xor4Bits(a: nat, b: nat, k: nat)
    requires k < 16
    ensures BitOf(Xor4(a, b), 2 * k) == (BitOf(a, 2 * k) != BitOf(b, 2 * k))
    ensures BitOf(Xor4(a, b), 2 * k + 1)
         == ((BitOf(a, 2 * k + 1) != BitOf(b, 2 * k + 1)) != (BitOf(a, 2 * k) && BitOf(b, 2 * k)))
  {
    Xor4Bit(a, b, 2 * k);
    Xor4Bit(a, b, 2 * k + 1);
    Xor4SumHi(a, b, 2 * k);
    if k > 0 { Xor4SumHi(a, b, 2 * k - 1); }
  }

  lemma {:induction false} Xor4Bit(a: nat, b: nat, i: nat)
    requires i < 32
    ensures var aLo, bLo := And(a, LO_MASK, 32), And(b, LO_MASK, 32);
            var aHi, bHi := And(Shr(a, 1), LO_MASK, 32), And(Shr(b, 1), LO_MASK, 32);
            var sumHi := Xor(Xor(aHi, bHi, 32), And(aLo, bLo, 32), 32);
            BitOf(Xor4(a, b), i) == ((i % 2 == 0 && BitOf(a, i) != BitOf(b, i)) || (i > 0 && BitOf(sumHi, i - 1)))
  {
    var aLo, bLo := And(a, LO_MASK, 32), And(b, LO_MASK, 32);
    var aHi, bHi := And(Shr(a, 1), LO_MASK, 32), And(Shr(b, 1), LO_MASK, 32);
    var sumHi := Xor(Xor(aHi, bHi, 32), And(aLo, bLo, 32), 32);
    LoMaskBit(i);
    OpBits(a, LO_MASK, 32, i);
    OpBits(b, LO_MASK, 32, i);
    OpBits(aLo, bLo, 32, i);
    ShlBits(sumHi, 1, 32, i);
    OpBits(Xor(aLo, bLo, 32), Shl(sumHi, 1, 32), 32, i);
  }

  lemma {:induction false} Xor4SumHi(a: nat, b: nat, i: nat)
    requires i < 32
    ensures var aLo, bLo := And(a, LO_MASK, 32), And(b, LO_MASK, 32);
            var aHi, bHi := And(Shr(a, 1), LO_MASK, 32), And(Shr(b, 1), LO_MASK, 32);
            var sumHi := Xor(Xor(aHi, bHi, 32), And(aLo, bLo, 32), 32);
            BitOf(sumHi, i) == (i % 2 == 0 && ((BitOf(a, i + 1) != BitOf(b, i + 1)) != (BitOf(a, i) && BitOf(b, i))))
  {
    var aLo, bLo := And(a, LO_MASK, 32), And(b, LO_MASK, 32);
    var aHi, bHi := And(Shr(a, 1), LO_MASK, 32), And(Shr(b, 1), LO_MASK, 32);
    LoMaskBit(i);
    OpBits(a, LO_MASK, 32, i);
    OpBits(b, LO_MASK, 32, i);
    OpBits(aLo, bLo, 32, i);
    OpBits(Shr(a, 1), LO_MASK, 32, i);
    OpBits(Shr(b, 1), LO_MASK, 32, i);
    assert Shr(a, 1) == Shr(a / 2, 0) == a / 2 && Shr(b, 1) == Shr(b / 2, 0) == b / 2;
    OpBits(aHi, bHi, 32, i);
    OpBits(Xor(aHi, bHi, 32), And(aLo, bLo, 32), 32, i);
  }

  lemma {:induction false} DigitIsTwoBits(a: nat, k: nat)
    ensures Digit(4, a, k) == (if BitOf(a, 2 * k) then 1 else 0) + (if BitOf(a, 2 * k + 1) then 2 else 0)
    decreases k
  {
    if k == 0 {
      assert BitOf(a, 1) == BitOf(a / 2, 0);
    } else {
      assert a / 4 == a / 2 / 2;
      DigitIsTwoBits(a / 4, k - 1);
      assert BitOf(a, 2 * k) == BitOf(a / 2, 2 * k - 1) == BitOf(a / 4, 2 * k - 2);
      assert BitOf(a, 2 * k + 1) == BitOf(a / 2, 2 * k) == BitOf(a / 4, 2 * k - 1);
    }
  }

  lemma {:induction false} Xor4Bound(a: nat, b: nat)
    ensures Xor4(a, b) < Pow2(32)
  {
    var aLo, bLo := And(a, LO_MASK, 32), And(b, LO_MASK, 32);
    var aHi, bHi := And(Shr(a, 1), LO_MASK, 32), And(Shr(b, 1), LO_MASK, 32);
    OpBounds(Xor(aLo, bLo, 32), Shl(Xor(Xor(aHi, bHi, 32), And(aLo, bLo, 32), 32), 1, 32), 32);
  }

  lemma {:induction false} Xor4Digit(a: nat, b: nat, k: nat)
    requires k < 16
    ensures Digit(4, Xor4(a, b), k) == (Digit(4, a, k) + Digit(4, b, k)) % 4
  {
    DigitIsTwoBits(a, k);
    DigitIsTwoBits(b, k);
    DigitIsTwoBits(Xor4(a, b), k);
    Xor4Bits(a, b, k);
    hide Xor4, Digit, BitOf;
  }

  /** The bit trick is base-4 digit-wise addition, on all numbers. */
  lemma {:induction false} Xor4IsDigitAdd(a: nat, b: nat)
    ensures Xor4(a, b) == DigitAdd(4, 16, a, b)
  {
    hide *;
    PowOfFour(16);
    DigitAddBound(4, 16, a, b);
    Xor4Bound(a, b);
    forall k | 0 <= k < 16 ensures Digit(4, Xor4(a, b), k) == Digit(4, DigitAdd(4, 16, a, b), k) {
      DigitOfSum(4, 16, a, b, k);
      Xor4Digit(a, b, k);
    }
    SameDigits(4, 16, Xor4(a, b), DigitAdd(4, 16, a, b));
  }

  // ---------- what the sums promise ----------

  /** Sums of indices below `3^t` stay below `3^t`, and three applications are the identity. */
  lemma {:induction false} Xor3Cycle(a: nat, h: nat, t: nat)
    requires t <= 20 && a < Pow(3, t) && h < Pow(3, t)
    ensures Xor3(a, h) < Pow(3, t)
    ensures Xor3(Xor3(Xor3(a, h), h), h) == a
  {
    Cycle(3, 20, a, h, t);
    Xor3IsDigitAdd(a, h);
    Xor3IsDigitAdd(Xor3(a, h), h);
    Xor3IsDigitAdd(Xor3(Xor3(a, h), h), h);
    RotateThrice(3, 20, a, h);
  }

  /** Sums of indices below `4^t` stay below `4^t`, and four applications are the identity. */
  lemma {:induction false} Xor4Cycle(a: nat, h: nat, t: nat)
    requires t <= 16 && a < Pow(4, t) && h < Pow(4, t)
    ensures Xor4(a, h) < Pow(4, t)
    ensures Xor4(Xor4(Xor4(Xor4(a, h), h), h), h) == a
  {
    Cycle(4, 16, a, h, t);
    Xor4IsDigitAdd(a, h);
    Xor4IsDigitAdd(Xor4(a, h), h);
    Xor4IsDigitAdd(Xor4(Xor4(a, h), h), h);
    Xor4IsDigitAdd(Xor4(Xor4(Xor4(a, h), h), h), h);
    RotateThrice(4, 16, a, h);
    assert Rotate(4, 16, a, h, 4) == DigitAdd(4, 16, Rotate(4, 16, a, h, 3), h);
  }

  lemma {:induction false} RotateThrice(d: nat, n: nat, a: nat, h: nat)
    requires d > 0
    ensures Rotate(d, n, a, h, 1) == DigitAdd(d, n, a, h)
    ensures Rotate(d, n, a, h, 2) == DigitAdd(d, n, DigitAdd(d, n, a, h), h)
    ensures Rotate(d, n, a, h, 3) == DigitAdd(d, n, DigitAdd(d, n, DigitAdd(d, n, a, h), h), h)
  {
    assert Rotate(d, n, a, h, 1) == DigitAdd(d, n, Rotate(d, n, a, h, 0), h);
    assert Rotate(d, n, a, h, 2) == DigitAdd(d, n, Rotate(d, n, a, h, 1), h);
    assert Rotate(d, n, a, h, 3) == DigitAdd(d, n, Rotate(d, n, a, h, 2), h);
  }

  lemma {:induction false} PowMonotone(d: nat, s: nat, t: nat)
    requires d > 0 && s <= t
    ensures Pow(d, s) <= Pow(d, t)
  {
    if s < t {
      PowMonotone(d, s, t - 1);
      MulMonotone(Pow(d, t - 1), 1, d);
    }
  }

  lemma {:induction false} Cycle(d: nat, n: nat, a: nat, h: nat, t: nat)
    requires d > 0 && t <= n && a < Pow(d, t) && h < Pow(d, t)
    ensures DigitAdd(d, n, a, h) < Pow(d, t)
    ensures Rotate(d, n, a, h, d) == a
  {
    SumBound(d, n, a, h, t);
    PowMonotone(d, t, n);
    RotateCycle(d, n, a, h);
  }
}
