/** LSB-first bit packing over byte buffers. */
module BitIO {
  import opened Words
  import opened WireFormat

  /** Setting bit `i mod 8` of byte `i div 8` sets stream bit `i`. */
  lemma {:induction false} SetStreamBit(bytes: seq<Byte>, i: nat)
    requires i < 8 * |bytes|
    ensures Or(bytes[i / 8], Shl(1, i % 8, 8), 8) < 256
    ensures Stream(bytes[i / 8 := Or(bytes[i / 8], Shl(1, i % 8, 8), 8)]) == Stream(bytes)[i := true]
  {
    var k, m := i / 8, i % 8;
    var b: Byte := bytes[k];
    var b' := Or(b, Shl(1, m, 8), 8);
    OpBounds(b, Shl(1, m, 8), 8);
    assert Pow2(8) == 256;
    forall j | 0 <= j < 8 ensures BitOf(b', j) == (BitOf(b, j) || j == m) {
      OpBits(b, Shl(1, m, 8), 8, j);
      ShlBits(1, m, 8, j);
      OneBit(j - m);
    }
    var after := bytes[k := b'];
    forall n | 0 <= n < 8 * |bytes| ensures Stream(after)[n] == Stream(bytes)[i := true][n] {
      assert n == 8 * (n / 8) + n % 8;
    }
  }

  /** `before` with the first `j` bits of `bits` written at position `at`. */
  ghost function Paste(before: seq<bool>, bits: seq<bool>, at: nat, j: nat): (r: seq<bool>)
    requires j <= |bits| && at + |bits| <= |before|
    ensures |r| == |before|
  {
    before[..at] + bits[..j] + before[at + j..]
  }

  /** Where `before` is clear, writing the next bit means setting it if it is one. */
  lemma {:induction false} PasteNext(before: seq<bool>, bits: seq<bool>, at: nat, j: nat)
    requires j < |bits| && at + |bits| <= |before| && !before[at + j]
    ensures Paste(before, bits, at, j + 1)
         == (if bits[j] then Paste(before, bits, at, j)[at + j := true] else Paste(before, bits, at, j))
  {
  }

  lemma {:induction false} PasteAll(before: seq<bool>, bits: seq<bool>, at: nat)
    requires at + |bits| <= |before|
    ensures Paste(before, bits, at, |bits|)[..at + |bits|] == before[..at] + bits
    ensures Paste(before, bits, at, |bits|)[at + |bits|..] == before[at + |bits|..]
  {
  }

  lemma {:induction false} OneBit(i: int)
    ensures i >= 0 ==> BitOf(1, i) == (i == 0)
  {
    if i > 0 { BitOfZero(i - 1); }
  }

  /** Writer over a pre-sized zeroed buffer. */
  class BitWriter {
    const bytes: array<Byte>
    var bitPos: nat

    ghost predicate Valid()
      reads this, bytes
    {
      && bitPos <= 8 * bytes.Length
      && forall i :: bitPos <= i < 8 * bytes.Length ==> !Stream(bytes[..])[i]
    }

    /** The bits written so far. */
    ghost function Written(): (bs: seq<bool>)
      reads this, bytes
      requires Valid()
      ensures |bs| == bitPos
    {
      Stream(bytes[..])[..bitPos]
    }

    constructor (byteLen: nat)
      ensures Valid() && Written() == [] && bytes.Length == byteLen && fresh(bytes)
    {
      bytes := new Byte[byteLen](_ => 0);
      bitPos := 0;
      new;
      forall i | 0 <= i < 8 * byteLen ensures !Stream(bytes[..])[i] { BitOfZero(i % 8); }
    }

    /** Append the low `width` bits of `value`. */
    method WriteBits(value: nat, width: nat)
      requires Valid() && bitPos + width <= 8 * bytes.Length
      modifies this, bytes
      ensures Valid() && Written() == old(Written()) + Bits(value, width)
    {
      ghost var before, bits := Stream(bytes[..]), Bits(value, width);
      for j := 0 to width
        invariant bitPos == old(bitPos)
        invariant Stream(bytes[..]) == Paste(before, bits, bitPos, j)
      {
        BitsAt(value, width, j);
        ShrBit(value, j);
        PasteNext(before, bits, bitPos, j);
        if Shr(value, j) % 2 == 1 {
          var idx := bitPos + j;
          SetStreamBit(bytes[..], idx);
          ghost var updated := bytes[..][idx / 8 := Or(bytes[idx / 8], Shl(1, idx % 8, 8), 8)];
          bytes[idx / 8] := Or(bytes[idx / 8], Shl(1, idx % 8, 8), 8);
          assert bytes[..] == updated;
        }
      }
      PasteAll(before, bits, bitPos);
      bitPos := bitPos + width;
    }

    method WriteBit(bit: bool)
      requires Valid() && bitPos + 1 <= 8 * bytes.Length
      modifies this, bytes
      ensures Valid() && Written() == old(Written()) + [bit]
    {
      WriteBits(if bit then 1 else 0, 1);
      assert Bits(if bit then 1 else 0, 1) == [bit];
    }

    /** The packed buffer: what was written, padded with zero bits. */
    method Finish() returns (r: seq<Byte>)
      requires Valid()
      ensures Stream(r) == Written() + Clear(8 * bytes.Length - bitPos)
    {
      r := bytes[..];
    }
  }

  /** `v | (1 << j)` appends a set bit above the low `j` bits. */
  lemma {:induction false} OrNextBit(bs: seq<bool>, bit: bool)
    requires |bs| < 64
    ensures Or(Val(bs), Shl(if bit then 1 else 0, |bs|, 64), 64) == Val(bs + [bit])
  {
    var v, n := Val(bs), if bit then 1 else 0;
    var r := Or(v, Shl(n, |bs|, 64), 64);
    OpBounds(v, Shl(n, |bs|, 64), 64);
    ValBound(bs + [bit]);
    Pow2Monotone(|bs| + 1, 64);
    forall i | 0 <= i < 64 ensures BitOf(r, i) == BitOf(Val(bs + [bit]), i) {
      OpBits(v, Shl(n, |bs|, 64), 64, i);
      ShlBits(n, |bs|, 64, i);
      BitOfVal(bs, i);
      BitOfVal(bs + [bit], i);
      OneBit(i - |bs|);
      if |bs| <= i { BitOfZero(i - |bs|); }
    }
    SameBits(r, Val(bs + [bit]), 64);
  }

  /** Reader over a borrowed byte string; every read is checked against its length. */
  class BitReader {
    const bytes: seq<Byte>
    var bitPos: nat

    ghost predicate Valid()
      reads this
    {
      bitPos <= 8 * |bytes|
    }

    /** The bits not read yet. */
    ghost function Rest(): (bs: seq<bool>)
      reads this
      requires Valid()
      ensures |bs| == 8 * |bytes| - bitPos
    {
      Stream(bytes)[bitPos..]
    }

    constructor (bytes: seq<Byte>)
      ensures Valid() && Rest() == Stream(bytes) && this.bytes == bytes && bitPos == 0
    {
      this.bytes := bytes;
      bitPos := 0;
    }

    /** Read `width` bits, or fail without moving. */
    method ReadBits(width: nat) returns (r: Result<nat>)
      requires Valid() && width <= 64
      modifies this
      ensures Valid()
      ensures match ReadField(old(Rest()), width)
              case Ok(v, rest) => r == Success(v) && Rest() == rest
              case Err(e) => r == Failure(e) && Rest() == old(Rest())
    {
      ghost var bs := Rest();
      if width == 0 {
        assert bs[..0] == [] && bs[0..] == bs;
        return Success(0);
      }
      if bitPos + width > 8 * |bytes| {
        return Failure(Truncated);
      }
      var v := 0;
      for j := 0 to width
        invariant bitPos == old(bitPos)
        invariant v == Val(bs[..j])
      {
        var idx := bitPos + j;
        var bit := Shr(bytes[idx / 8], idx % 8) % 2;
        ShrBit(bytes[idx / 8], idx % 8);
        OrNextBit(bs[..j], bs[j]);
        assert bs[..j + 1] == bs[..j] + [bs[j]];
        v := Or(v, Shl(bit, j, 64), 64);
      }
      bitPos := bitPos + width;
      return Success(v);
    }
  }
}
