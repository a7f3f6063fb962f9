/** Machine words as natural numbers and bit strings, least significant bit first.

    Every bit-packed structure of the repository (the hint-delta stream, the fingerprint table, the
    cell table) is specified over one vocabulary: a bit string is a `seq<bool>`, `Val` reads it as a
    number and `Bits` writes a number at a fixed width.  The bitwise operators below are the usual
    ones of an unsigned word; they are defined by what they do to each bit. */
module Words {

  type Byte = x: nat | x < 256

  const U32: nat := 0x1_0000_0000
  const U64: nat := 0x1_0000_0000_0000_0000

  function Pow2(e: nat): (r: nat)
    ensures r > 0
  {
    if e == 0 then 1 else 2 * Pow2(e - 1)
  }

  /** The number a bit string denotes. */
  function Val(bs: seq<bool>): nat {
    if bs == [] then 0 else (if bs[0] then 1 else 0) + 2 * Val(bs[1..])
  }

  /** The low `w` bits of `v`. */
  function Bits(v: nat, w: nat): (bs: seq<bool>)
    ensures |bs| == w
  {
    if w == 0 then [] else [v % 2 == 1] + Bits(v / 2, w - 1)
  }

  /** Bit `i` of `v`. */
  function BitOf(v: nat, i: nat): bool {
    if i == 0 then v % 2 == 1 else BitOf(v / 2, i - 1)
  }

  /** Number of bits needed to write `x` as an index. */
  function Bitlen(x: nat): (r: nat)
    ensures x < Pow2(r)
    ensures x > 0 ==> r > 0 && Pow2(r - 1) <= x
  {
    if x == 0 then 0 else 1 + Bitlen(x / 2)
  }

  /** `n` clear bits. */
  function Clear(n: nat): (bs: seq<bool>)
    ensures |bs| == n && forall i :: 0 <= i < n ==> !bs[i]
  {
    seq(n, _ => false)
  }

  function Zeros(n: nat): (zs: seq<nat>)
    ensures |zs| == n && forall i :: 0 <= i < n ==> zs[i] == 0
  {
    seq(n, _ => 0)
  }

  // ---------- shifts and bitwise operators ----------

  function Shr(v: nat, s: nat): nat { if s == 0 then v else Shr(v / 2, s - 1) }

  /** `v << s` on a `w`-bit word: bits shifted past the top are lost. */
  function Shl(v: nat, s: nat, w: nat): nat { Val(seq(w, i requires 0 <= i < w => s <= i && BitOf(v, i - s))) }

  function And(a: nat, b: nat, w: nat): nat { Val(seq(w, i requires 0 <= i < w => BitOf(a, i) && BitOf(b, i))) }

  function Or(a: nat, b: nat, w: nat): nat { Val(seq(w, i requires 0 <= i < w => BitOf(a, i) || BitOf(b, i))) }

  function Xor(a: nat, b: nat, w: nat): nat { Val(seq(w, i requires 0 <= i < w => BitOf(a, i) != BitOf(b, i))) }

  function Not(a: nat, w: nat): nat { Val(seq(w, i requires 0 <= i < w => !BitOf(a, i))) }

  // ---------- Val and Bits are inverse ----------

  lemma {:induction false} ValBound(bs: seq<bool>)
    ensures Val(bs) < Pow2(|bs|)
  {
    if bs != [] { ValBound(bs[1..]); }
  }

  lemma {:induction false} ValOfBits(v: nat, w: nat)
    requires v < Pow2(w)
    ensures Val(Bits(v, w)) == v
  {
    if w > 0 {
      ValOfBits(v / 2, w - 1);
      assert Bits(v, w)[1..] == Bits(v / 2, w - 1);
    }
  }

  lemma {:induction false} BitsOfVal(bs: seq<bool>)
    ensures Bits(Val(bs), |bs|) == bs
  {
    if bs != [] {
      BitsOfVal(bs[1..]);
      assert Val(bs) / 2 == Val(bs[1..]);
      assert bs == [bs[0]] + bs[1..];
    }
  }

  lemma {:induction false} BitsAt(v: nat, w: nat, i: nat)
    requires i < w
    ensures Bits(v, w)[i] == BitOf(v, i)
  {
    if i > 0 { BitsAt(v / 2, w - 1, i - 1); }
  }

  lemma {:induction false} BitOfVal(bs: seq<bool>, i: nat)
    ensures BitOf(Val(bs), i) == (i < |bs| && bs[i])
  {
    if bs == [] {
      BitOfZero(i);
    } else {
      assert Val(bs) / 2 == Val(bs[1..]);
      if i > 0 { BitOfVal(bs[1..], i - 1); }
    }
  }

  lemma {:induction false} BitOfZero(i: nat)
    ensures !BitOf(0, i)
  {
    if i > 0 { BitOfZero(i - 1); }
  }

  /** Two words below `2^w` with the same bits are the same word. */
  lemma {:induction false} SameBits(a: nat, b: nat, w: nat)
    requires a < Pow2(w) && b < Pow2(w)
    requires forall i :: 0 <= i < w ==> BitOf(a, i) == BitOf(b, i)
    ensures a == b
  {
    if w > 0 {
      assert BitOf(a, 0) == BitOf(b, 0);
      forall i | 0 <= i < w - 1 ensures BitOf(a / 2, i) == BitOf(b / 2, i) {
        assert BitOf(a, i + 1) == BitOf(b, i + 1);
      }
      SameBits(a / 2, b / 2, w - 1);
    }
  }

  lemma {:induction false} ValSnoc(a: seq<bool>, b: bool)
    ensures Val(a + [b]) == Val(a) + (if b then Pow2(|a|) else 0)
  {
    if a == [] {
      assert (a + [b])[1..] == [];
    } else {
      ValSnoc(a[1..], b);
      assert (a + [b])[1..] == a[1..] + [b];
    }
  }

  lemma {:induction false} Pow2Add(a: nat, b: nat)
    ensures Pow2(a + b) == Pow2(a) * Pow2(b)
  {
    if a > 0 { Pow2Add(a - 1, b); }
  }

  lemma {:induction false} Pow2Monotone(a: nat, b: nat)
    requires a <= b
    ensures Pow2(a) <= Pow2(b)
  {
    if a < b { Pow2Monotone(a, b - 1); }
  }

  lemma {:induction false} PowersOfTwo()
    ensures Pow2(8) == 256 && Pow2(16) == 65536 && Pow2(32) == U32 && Pow2(64) == U64
  {
    assert Pow2(4) == 16;
    Pow2Add(4, 4);
    Pow2Add(8, 8);
    Pow2Add(16, 16);
    Pow2Add(32, 32);
  }

  // ---------- dividing and reducing by a power of two ----------

  lemma {:induction false} MulMonotone(a: int, x: int, y: int)
    requires 0 <= a && x <= y
    ensures a * x <= a * y
  {
    assert 0 <= a * (y - x);
  }

  lemma {:induction false} DivModUnique(x: int, d: int, q: int, r: int)
    requires d > 0 && x == d * q + r && 0 <= r < d
    ensures x / d == q && x % d == r
  {
    var q' := x / d;
    assert x == d * q' + x % d;
    if q < q' {
      assert d * (q + 1) == d * q + d;
      MulMonotone(d, q + 1, q');
    } else if q > q' {
      assert d * (q' + 1) == d * q' + d;
      MulMonotone(d, q' + 1, q);
    }
  }

  /** Shifting right drops the low bits. */
  lemma {:induction false} ShrOfVal(bs: seq<bool>, s: nat)
    requires s <= |bs|
    ensures Shr(Val(bs), s) == Val(bs[s..])
  {
    if s == 0 {
      assert bs[0..] == bs;
    } else {
      assert Val(bs) / 2 == Val(bs[1..]);
      ShrOfVal(bs[1..], s - 1);
      assert bs[1..][s - 1..] == bs[s..];
    }
  }

  lemma {:induction false} ShrIsDiv(v: nat, s: nat)
    ensures Shr(v, s) == v / Pow2(s)
  {
    if s > 0 {
      ShrIsDiv(v / 2, s - 1);
      HalfThenDiv(v, Pow2(s - 1));
    }
  }

  lemma {:induction false} HalfThenDiv(v: nat, p: nat)
    requires p > 0
    ensures v / (2 * p) == v / 2 / p
  {
    var half, q, r := v / 2, v / 2 / p, v / 2 % p;
    assert half == p * q + r;
    assert v == (2 * p) * q + (2 * r + v % 2) by { assert (2 * p) * q == 2 * (p * q); }
    DivModUnique(v, 2 * p, q, 2 * r + v % 2);
  }

  lemma {:induction false} ShrBit(v: nat, i: nat)
    ensures (Shr(v, i) % 2 == 1) == BitOf(v, i)
  {
    if i > 0 { ShrBit(v / 2, i - 1); }
  }

  /** The bounds on a bit length determine it. */
  lemma {:induction false} BitlenIs(x: nat, w: nat)
    requires w > 0 && Pow2(w - 1) <= x < Pow2(w)
    ensures Bitlen(x) == w
  {
    var b := Bitlen(x);
    if b < w { Pow2Monotone(b, w - 1); }
    if b > w { Pow2Monotone(w, b - 1); }
  }

  /** The bit length is the least width that holds the number. */
  lemma {:induction false} BitlenIff(n: nat, w: nat)
    ensures Bitlen(n) <= w <==> n < Pow2(w)
  {
    if w < Bitlen(n) { Pow2Monotone(w, Bitlen(n) - 1); } else { Pow2Monotone(Bitlen(n), w); }
  }

  /** The bits of `x` and `y`, none of them shared, make up the sum. */
  lemma {:induction false} ValDisjoint(x: seq<bool>, y: seq<bool>, z: seq<bool>)
    requires |x| == |y| == |z|
    requires forall i :: 0 <= i < |z| ==> z[i] == (x[i] || y[i]) && !(x[i] && y[i])
    ensures Val(z) == Val(x) + Val(y)
  {
    if z != [] {
      assert z[0] == (x[0] || y[0]) && !(x[0] && y[0]);
      ValDisjoint(x[1..], y[1..], z[1..]);
    }
  }

  lemma {:induction false} BelowPow2(v: nat)
    ensures v < Pow2(v)
  {
    if v > 0 { BelowPow2(v - 1); }
  }

  // ---------- bits of the operators ----------

  lemma {:induction false} OpBits(a: nat, b: nat, w: nat, i: nat)
    requires i < w
    ensures BitOf(And(a, b, w), i) == (BitOf(a, i) && BitOf(b, i))
    ensures BitOf(Or(a, b, w), i) == (BitOf(a, i) || BitOf(b, i))
    ensures BitOf(Xor(a, b, w), i) == (BitOf(a, i) != BitOf(b, i))
    ensures BitOf(Not(a, w), i) == !BitOf(a, i)
  {
    BitOfVal(seq(w, i requires 0 <= i < w => BitOf(a, i) && BitOf(b, i)), i);
    BitOfVal(seq(w, i requires 0 <= i < w => BitOf(a, i) || BitOf(b, i)), i);
    BitOfVal(seq(w, i requires 0 <= i < w => BitOf(a, i) != BitOf(b, i)), i);
    BitOfVal(seq(w, i requires 0 <= i < w => !BitOf(a, i)), i);
  }

  lemma {:induction false} OpBounds(a: nat, b: nat, w: nat)
    ensures And(a, b, w) < Pow2(w) && Or(a, b, w) < Pow2(w) && Xor(a, b, w) < Pow2(w) && Not(a, w) < Pow2(w)
  {
    ValBound(seq(w, i requires 0 <= i < w => BitOf(a, i) && BitOf(b, i)));
    ValBound(seq(w, i requires 0 <= i < w => BitOf(a, i) || BitOf(b, i)));
    ValBound(seq(w, i requires 0 <= i < w => BitOf(a, i) != BitOf(b, i)));
    ValBound(seq(w, i requires 0 <= i < w => !BitOf(a, i)));
  }

  lemma {:induction false} ShlBits(v: nat, s: nat, w: nat, i: nat)
    requires i < w
    ensures BitOf(Shl(v, s, w), i) == (s <= i && BitOf(v, i - s))
    ensures Shl(v, s, w) < Pow2(w)
  {
    var bs := seq(w, i requires 0 <= i < w => s <= i && BitOf(v, i - s));
    BitOfVal(bs, i);
    ValBound(bs);
  }

  // ---------- byte streams ----------

  /** Stream bit `i` is bit `i mod 8` of byte `i div 8`. */
  function Stream(bytes: seq<Byte>): (bs: seq<bool>)
    ensures |bs| == 8 * |bytes|
  {
    seq(8 * |bytes|, i requires 0 <= i < 8 * |bytes| => BitOf(bytes[i / 8], i % 8))
  }

  lemma {:induction false} StreamInjective(a: seq<Byte>, b: seq<Byte>)
    requires Stream(a) == Stream(b)
    ensures a == b
  {
    assert |a| == |b|;
    assert Pow2(8) == 256;
    forall i | 0 <= i < |a| ensures a[i] == b[i] {
      forall k | 0 <= k < 8 ensures BitOf(a[i], k) == BitOf(b[i], k) {
        assert Stream(a)[8 * i + k] == Stream(b)[8 * i + k];
      }
      SameBits(a[i], b[i], 8);
    }
  }
}
