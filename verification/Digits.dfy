/** Digit-wise addition without carries, in any base.

    The bucket offsets of every scheme are added this way: base 2 is XOR, base 3 is `xor3`, base 4
    is `xor4`.  Adding the same offset as often as the base is large is the identity, which is what
    makes the candidate buckets of a fingerprint an orbit. */
module Digits {
  import opened Words

  function Pow(d: nat, e: nat): (r: nat)
    requires d > 0
    ensures r > 0
  {
    if e == 0 then 1 else d * Pow(d, e - 1)
  }

  /** The sum modulo `d` of each of the low `n` digits. */
  function DigitAdd(d: nat, n: nat, a: nat, b: nat): nat
    requires d > 0
  {
    if n == 0 then 0 else (a % d + b % d) % d + d * DigitAdd(d, n - 1, a / d, b / d)
  }

  /** Digit `k` of `a`. */
  function Digit(d: nat, a: nat, k: nat): nat
    requires d > 0
    decreases k
  {
    if k == 0 then a % d else Digit(d, a / d, k - 1)
  }

  /** `h` added `k` times. */
  function Rotate(d: nat, n: nat, a: nat, h: nat, k: nat): nat
    requires d > 0
  {
    if k == 0 then a else DigitAdd(d, n, Rotate(d, n, a, h, k - 1), h)
  }

  lemma {:induction false} LowDigit(d: nat, n: nat, a: nat, b: nat)
    requires d > 0 && n > 0
    ensures DigitAdd(d, n, a, b) % d == (a % d + b % d) % d
    ensures DigitAdd(d, n, a, b) / d == DigitAdd(d, n - 1, a / d, b / d)
  {
    DivModUnique(DigitAdd(d, n, a, b), d, DigitAdd(d, n - 1, a / d, b / d), (a % d + b % d) % d);
  }

  /** Each digit of the sum is the sum of the digits. */
  lemma {:induction false} DigitOfSum(d: nat, n: nat, a: nat, b: nat, k: nat)
    requires d > 0
    ensures Digit(d, DigitAdd(d, n, a, b), k) == (if k < n then (Digit(d, a, k) + Digit(d, b, k)) % d else 0)
    decreases n, k
  {
    if n == 0 {
      DigitOfZero(d, k);
    } else {
      hide DigitAdd;
      LowDigit(d, n, a, b);
      var s := DigitAdd(d, n, a, b);
      if k == 0 {
        assert Digit(d, s, 0) == s % d;
      } else {
        DigitOfSum(d, n - 1, a / d, b / d, k - 1);
        assert Digit(d, s, k) == Digit(d, s / d, k - 1);
      }
    }
  }

  lemma {:induction false} DigitOfZero(d: nat, k: nat)
    requires d > 0
    ensures Digit(d, 0, k) == 0
    decreases k
  {
    DivModUnique(0, d, 0, 0);
    if k > 0 { DigitOfZero(d, k - 1); }
  }

  lemma {:induction false} DropDigit(d: nat, a: nat, t: nat)
    requires d > 0 && t > 0
    ensures a < Pow(d, t) <==> a / d < Pow(d, t - 1)
  {
    var p, q, r := Pow(d, t - 1), a / d, a % d;
    assert a == d * q + r;
    if q < p {
      MulMonotone(d, q + 1, p);
      assert d * (q + 1) == d * q + d;
    } else {
      MulMonotone(d, p, q);
    }
  }

  /** Numbers with the same digits are equal. */
  lemma {:induction false} SameDigits(d: nat, n: nat, a: nat, b: nat)
    requires d > 0 && a < Pow(d, n) && b < Pow(d, n)
    requires forall k :: 0 <= k < n ==> Digit(d, a, k) == Digit(d, b, k)
    ensures a == b
  {
    if n > 0 {
      DropDigit(d, a, n);
      DropDigit(d, b, n);
      assert Digit(d, a, 0) == Digit(d, b, 0);
      forall k | 0 <= k < n - 1 ensures Digit(d, a / d, k) == Digit(d, b / d, k) {
        assert Digit(d, a, k + 1) == Digit(d, b, k + 1);
      }
      SameDigits(d, n - 1, a / d, b / d);
      assert a == d * (a / d) + a % d && b == d * (b / d) + b % d;
    }
  }

  /** Sums of `t`-digit numbers have `t` digits. */
  lemma {:induction false} SumBound(d: nat, n: nat, a: nat, b: nat, t: nat)
    requires d > 0 && t <= n && a < Pow(d, t) && b < Pow(d, t)
    ensures DigitAdd(d, n, a, b) < Pow(d, t)
    decreases n
  {
    if t == 0 {
      SumOfZeros(d, n);
    } else {
      DropDigit(d, a, t);
      DropDigit(d, b, t);
      SumBound(d, n - 1, a / d, b / d, t - 1);
      LowDigit(d, n, a, b);
      DropDigit(d, DigitAdd(d, n, a, b), t);
    }
  }

  lemma {:induction false} SumOfZeros(d: nat, n: nat)
    requires d > 0
    ensures DigitAdd(d, n, 0, 0) == 0
  {
    if n > 0 {
      DivModUnique(0, d, 0, 0);
      SumOfZeros(d, n - 1);
    }
  }

  lemma {:induction false} RotateBound(d: nat, n: nat, a: nat, h: nat, k: nat, t: nat)
    requires d > 0 && t <= n && a < Pow(d, t) && h < Pow(d, t)
    ensures Rotate(d, n, a, h, k) < Pow(d, t)
  {
    if k > 0 {
      RotateBound(d, n, a, h, k - 1, t);
      SumBound(d, n, Rotate(d, n, a, h, k - 1), h, t);
    }
  }

  lemma {:induction false} RotateDigit(d: nat, n: nat, a: nat, h: nat, k: nat, i: nat)
    requires d > 0 && i < n
    ensures Digit(d, Rotate(d, n, a, h, k), i) == (Digit(d, a, i) + k * Digit(d, h, i)) % d
  {
    if k == 0 {
      DigitBelow(d, a, i);
    } else {
      RotateDigit(d, n, a, h, k - 1, i);
      DigitOfSum(d, n, Rotate(d, n, a, h, k - 1), h, i);
      ModAdd(Digit(d, a, i) + (k - 1) * Digit(d, h, i), Digit(d, h, i), d);
      assert (k - 1) * Digit(d, h, i) + Digit(d, h, i) == k * Digit(d, h, i);
    }
  }

  lemma {:induction false} DigitBelow(d: nat, a: nat, i: nat)
    requires d > 0
    ensures Digit(d, a, i) < d && Digit(d, a, i) % d == Digit(d, a, i)
    decreases i
  {
    if i > 0 { DigitBelow(d, a / d, i - 1); } else { DivModUnique(a % d, d, 0, a % d); }
  }

  lemma {:induction false} ModAdd(x: nat, y: nat, d: nat)
    requires d > 0
    ensures (x % d + y) % d == (x + y) % d
  {
    var r := x % d + y;
    assert x == d * (x / d) + x % d && r == d * (r / d) + r % d;
    assert x + y == d * (x / d + r / d) + r % d;
    DivModUnique(x + y, d, x / d + r / d, r % d);
  }

  /** Adding an offset `d` times comes back to the start. */
  lemma {:induction false} RotateCycle(d: nat, n: nat, a: nat, h: nat)
    requires d > 0 && a < Pow(d, n) && h < Pow(d, n)
    ensures Rotate(d, n, a, h, d) == a
  {
    RotateBound(d, n, a, h, d, n);
    forall i | 0 <= i < n ensures Digit(d, Rotate(d, n, a, h, d), i) == Digit(d, a, i) {
      RotateDigit(d, n, a, h, d, i);
      DigitBelow(d, a, i);
      DivModUnique(Digit(d, a, i) + d * Digit(d, h, i), d, Digit(d, h, i), Digit(d, a, i));
    }
    SameDigits(d, n, Rotate(d, n, a, h, d), a);
  }

  lemma {:induction false} RotateRotate(d: nat, n: nat, a: nat, h: nat, j: nat, k: nat)
    requires d > 0
    ensures Rotate(d, n, Rotate(d, n, a, h, j), h, k) == Rotate(d, n, a, h, j + k)
  {
    if k > 0 { RotateRotate(d, n, a, h, j, k - 1); }
  }

  // ---------- base 2 is XOR ----------

  lemma {:induction false} PowOfTwo(t: nat)
    ensures Pow(2, t) == Pow2(t)
  {
    if t > 0 { PowOfTwo(t - 1); }
  }

  lemma {:induction false} PowOfFour(t: nat)
    ensures Pow(4, t) == Pow2(2 * t)
  {
    if t > 0 { PowOfFour(t - 1); assert Pow2(2 * t) == 2 * Pow2(2 * t - 1); }
  }

  lemma {:induction false} BitIsDigit(a: nat, k: nat)
    ensures Digit(2, a, k) == (if BitOf(a, k) then 1 else 0)
  {
    if k > 0 { BitIsDigit(a / 2, k - 1); }
  }

  lemma {:induction false} XorIsDigitAdd(a: nat, b: nat, w: nat)
    ensures Xor(a, b, w) == DigitAdd(2, w, a, b)
  {
    OpBounds(a, b, w);
    PowOfTwo(w);
    DigitAddBound(2, w, a, b);
    forall k | 0 <= k < w ensures Digit(2, Xor(a, b, w), k) == Digit(2, DigitAdd(2, w, a, b), k) {
      OpBits(a, b, w, k);
      BitIsDigit(Xor(a, b, w), k);
      BitIsDigit(a, k);
      BitIsDigit(b, k);
      DigitOfSum(2, w, a, b, k);
    }
    SameDigits(2, w, Xor(a, b, w), DigitAdd(2, w, a, b));
  }

  lemma {:induction false} DigitAddBound(d: nat, n: nat, a: nat, b: nat)
    requires d > 0
    ensures DigitAdd(d, n, a, b) < Pow(d, n)
  {
    if n > 0 {
      LowDigit(d, n, a, b);
      DigitAddBound(d, n - 1, a / d, b / d);
      DropDigit(d, DigitAdd(d, n, a, b), n);
    }
  }

  /** XOR with the same word twice is the identity. */
  lemma {:induction false} XorCancels(a: nat, h: nat, w: nat)
    requires a < Pow2(w) && h < Pow2(w)
    ensures Xor(Xor(a, h, w), h, w) == a
  {
    PowOfTwo(w);
    RotateCycle(2, w, a, h);
    assert Rotate(2, w, a, h, 2) == DigitAdd(2, w, Rotate(2, w, a, h, 1), h);
    assert Rotate(2, w, a, h, 1) == DigitAdd(2, w, Rotate(2, w, a, h, 0), h);
    XorIsDigitAdd(a, h, w);
    XorIsDigitAdd(Xor(a, h, w), h, w);
  }

  lemma {:induction false} XorBound(a: nat, b: nat, w: nat, t: nat)
    requires t <= w && a < Pow2(t) && b < Pow2(t)
    ensures Xor(a, b, w) < Pow2(t)
  {
    PowOfTwo(t);
    XorIsDigitAdd(a, b, w);
    SumBound(2, w, a, b, t);
  }
}
