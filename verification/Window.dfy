/** Reading and writing a bit field through an unaligned little-endian word. */
module Window {
  import opened Words
  import opened Hash

  /** `from_le_bytes`. */
  function FromLe(bytes: seq<Byte>): nat {
    if bytes == [] then 0 else bytes[0] + 256 * FromLe(bytes[1..])
  }

  /** `to_le_bytes` of an `n`-byte word. */
  function ToLe(v: nat, n: nat): (r: seq<Byte>)
    ensures |r| == n
  {
    if n == 0 then [] else [v % 256] + ToLe(v / 256, n - 1)
  }

  /** `(1 << bits) - 1` on a `w`-bit word. */
  function Mask(bits: nat, w: nat): int { Shl(1, bits, w) - 1 }

  /** `(val >> shift) & mask`. */
  function Extract(val: nat, shift: nat, bits: nat, w: nat): nat
    requires Mask(bits, w) >= 0
  {
    And(Shr(val, shift), Mask(bits, w), w)
  }

  /** `val & !(mask << shift) | (field & mask) << shift`. */
  function Deposit(val: nat, field: nat, shift: nat, bits: nat, w: nat): nat
    requires Mask(bits, w) >= 0
  {
    Or(And(val, Not(Shl(Mask(bits, w), shift, w), w), w), Shl(And(field, Mask(bits, w), w), shift, w), w)
  }

  // ---------- words and their bytes ----------

  lemma {:induction false} LowByte(b: nat, rest: nat, i: nat, k: nat)
    requires b < Pow2(k)
    ensures BitOf(b + Pow2(k) * rest, i) == (if i < k then BitOf(b, i) else BitOf(rest, i - k))
    decreases k
  {
    if k > 0 {
      var v := b + Pow2(k) * rest;
      assert Pow2(k) * rest == 2 * (Pow2(k - 1) * rest);
      assert v / 2 == b / 2 + Pow2(k - 1) * rest && v % 2 == b % 2;
      if i > 0 { LowByte(b / 2, rest, i - 1, k - 1); }
    }
  }

  lemma {:induction false} FromLeBit(bytes: seq<Byte>, i: nat)
    ensures BitOf(FromLe(bytes), i) == (i < 8 * |bytes| && Stream(bytes)[i])
  {
    if bytes == [] {
      BitOfZero(i);
    } else {
      assert Pow2(8) == 256;
      LowByte(bytes[0], FromLe(bytes[1..]), i, 8);
      if i >= 8 {
        FromLeBit(bytes[1..], i - 8);
        assert i / 8 == (i - 8) / 8 + 1 && i % 8 == (i - 8) % 8;
      }
    }
  }

  lemma {:induction false} ToLeBit(v: nat, n: nat, i: nat)
    requires i < 8 * n
    ensures Stream(ToLe(v, n))[i] == BitOf(v, i)
  {
    assert Pow2(8) == 256;
    LowByte(v % 256, v / 256, i, 8);
    var bytes := ToLe(v, n);
    if i >= 8 {
      ToLeBit(v / 256, n - 1, i - 8);
      assert bytes[1..] == ToLe(v / 256, n - 1);
      assert i / 8 == (i - 8) / 8 + 1 && i % 8 == (i - 8) % 8;
      assert bytes[i / 8] == bytes[1..][(i - 8) / 8];
    }
  }

  // ---------- fields of a word ----------

  lemma {:induction false} BitOfPow2(t: nat, i: nat)
    ensures BitOf(Pow2(t), i) == (i == t)
    decreases t
  {
    if t == 0 {
      if i > 0 { BitOfZero(i - 1); }
    } else if i > 0 {
      assert Pow2(t) / 2 == Pow2(t - 1);
      BitOfPow2(t - 1, i - 1);
    }
  }

  lemma {:induction false} MaskValue(bits: nat, w: nat)
    requires bits < w
    ensures Mask(bits, w) == Pow2(bits) - 1
  {
    Pow2Monotone(bits + 1, w);
    ShlBits(1, bits, w, 0);
    forall i | 0 <= i < w ensures BitOf(Shl(1, bits, w), i) == BitOf(Pow2(bits), i) {
      ShlBits(1, bits, w, i);
      BitOfPow2(bits, i);
      if i >= bits { BitOfPow2(0, i - bits); }
    }
    SameBits(Shl(1, bits, w), Pow2(bits), w);
  }

  lemma {:induction false} ShrBits(v: nat, s: nat, i: nat)
    ensures BitOf(Shr(v, s), i) == BitOf(v, s + i)
    decreases s
  {
    if s > 0 { ShrBits(v / 2, s - 1, i); }
  }

  lemma {:induction false} ExtractBits(val: nat, shift: nat, bits: nat, w: nat, i: nat)
    requires bits < w && i < bits
    ensures Mask(bits, w) >= 0
    ensures BitOf(Extract(val, shift, bits, w), i) == BitOf(val, shift + i)
    ensures Extract(val, shift, bits, w) < Pow2(bits)
  {
    MaskValue(bits, w);
    MaskBit(bits, i);
    OpBits(Shr(val, shift), Pow2(bits) - 1, w, i);
    ShrBits(val, shift, i);
    MaskBound(Shr(val, shift), w, bits);
  }

  /** Depositing a field changes exactly the bits of the field. */
  lemma {:induction false} DepositBits(val: nat, field: nat, shift: nat, bits: nat, w: nat, i: nat)
    requires bits < w && i < w
    ensures Mask(bits, w) >= 0
    ensures BitOf(Deposit(val, field, shift, bits, w), i)
         == (if shift <= i < shift + bits then BitOf(field, i - shift) else BitOf(val, i))
  {
    MaskValue(bits, w);
    var m := Pow2(bits) - 1;
    var cleared := And(val, Not(Shl(m, shift, w), w), w);
    OpBits(cleared, Shl(And(field, m, w), shift, w), w, i);
    OpBits(val, Not(Shl(m, shift, w), w), w, i);
    OpBits(Shl(m, shift, w), 0, w, i);
    ShlBits(m, shift, w, i);
    ShlBits(And(field, m, w), shift, w, i);
    if shift <= i {
      MaskBit(bits, i - shift);
      OpBits(field, m, w, i - shift);
    }
  }

  // ---------- fields of a byte buffer ----------

  /** The word of `n` bytes at byte `at`. */
  function Load(data: seq<Byte>, at: nat, n: nat): nat
    requires at + n <= |data|
  {
    FromLe(data[at..at + n])
  }

  /** The buffer with the word of `n` bytes at byte `at` replaced. */
  function Store(data: seq<Byte>, at: nat, n: nat, v: nat): (r: seq<Byte>)
    requires at + n <= |data|
    ensures |r| == |data|
  {
    data[..at] + ToLe(v, n) + data[at + n..]
  }

  lemma {:induction false} LoadBit(data: seq<Byte>, at: nat, n: nat, i: nat)
    requires at + n <= |data| && i < 8 * n
    ensures BitOf(Load(data, at, n), i) == Stream(data)[8 * at + i]
  {
    FromLeBit(data[at..at + n], i);
    assert (8 * at + i) / 8 == at + i / 8 && (8 * at + i) % 8 == i % 8;
  }

  lemma {:induction false} StoreBit(data: seq<Byte>, at: nat, n: nat, v: nat, i: nat)
    requires at + n <= |data| && i < 8 * |data|
    ensures Stream(Store(data, at, n, v))[i]
         == (if 8 * at <= i < 8 * (at + n) then BitOf(v, i - 8 * at) else Stream(data)[i])
  {
    if 8 * at <= i < 8 * (at + n) {
      ToLeBit(v, n, i - 8 * at);
      assert i / 8 == at + (i - 8 * at) / 8 && i % 8 == (i - 8 * at) % 8;
    }
  }

  /** The field of `bits` bits at stream position `pos` lies inside the word read for it. */
  predicate Fits(data: seq<Byte>, pos: nat, bits: nat, n: nat) {
    pos / 8 + n <= |data| && pos % 8 + bits <= 8 * n && bits < 8 * n
  }

  /** Reading through a word of either width returns the field of the bit stream. */
  lemma {:induction false} ReadField(data: seq<Byte>, pos: nat, bits: nat, n: nat)
    requires Fits(data, pos, bits, n)
    ensures Mask(bits, 8 * n) >= 0 && pos + bits <= 8 * |data|
    ensures Extract(Load(data, pos / 8, n), pos % 8, bits, 8 * n) == Val(Stream(data)[pos..pos + bits])
  {
    var w, val := 8 * n, Load(data, pos / 8, n);
    MaskValue(bits, w);
    MaskBound(Shr(val, pos % 8), w, bits);
    var field := Stream(data)[pos..pos + bits];
    ValBound(field);
    forall i | 0 <= i < bits ensures BitOf(Extract(val, pos % 8, bits, w), i) == BitOf(Val(field), i) {
      ExtractBits(val, pos % 8, bits, w, i);
      LoadBit(data, pos / 8, n, pos % 8 + i);
      assert 8 * (pos / 8) + (pos % 8 + i) == pos + i;
      BitOfVal(field, i);
    }
    SameBits(Extract(val, pos % 8, bits, w), Val(field), bits);
  }

  /** Writing through a word of either width replaces the field and no other bit. */
  lemma {:induction false} WriteField(data: seq<Byte>, pos: nat, bits: nat, n: nat, field: nat)
    requires Fits(data, pos, bits, n)
    ensures Mask(bits, 8 * n) >= 0 && pos + bits <= 8 * |data|
    ensures Stream(Store(data, pos / 8, n, Deposit(Load(data, pos / 8, n), field, pos % 8, bits, 8 * n)))
         == Stream(data)[..pos] + Bits(field, bits) + Stream(data)[pos + bits..]
  {
    var w, at, shift := 8 * n, pos / 8, pos % 8;
    MaskValue(bits, w);
    var val := Load(data, at, n);
    var val' := Deposit(val, field, shift, bits, w);
    var before := Stream(data);
    var target := before[..pos] + Bits(field, bits) + before[pos + bits..];
    forall i | 0 <= i < 8 * |data| ensures Stream(Store(data, at, n, val'))[i] == target[i] {
      StoreBit(data, at, n, val', i);
      if 8 * at <= i < 8 * (at + n) {
        DepositBits(val, field, shift, bits, w, i - 8 * at);
        LoadBit(data, at, n, i - 8 * at);
      }
      if pos <= i < pos + bits { BitsAt(field, bits, i - pos); }
    }
    assert Stream(Store(data, at, n, val')) == target;
  }
}
