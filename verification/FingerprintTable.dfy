/** The packed fingerprint table: fields of `fingerprintBits` bits laid end to end in a byte buffer,
    followed by padding that keeps every word access in bounds. */
module FingerprintTable {
  import opened Words
  import opened Geometry
  import opened Window
  import opened Fields

  function TotalBits(numBuckets: nat, bucketSize: nat, fingerprintBits: nat): nat {
    numBuckets * bucketSize * fingerprintBits
  }

  /** Fields of up to 56 bits are accessed through a u64, wider ones through a u128. */
  function WindowBytes(bits: nat): nat { if bits <= 56 then 8 else 16 }

  /** Position of `(bucket, slot)` in table order. */
  function SlotIndex(bucket: nat, slot: nat, bucketSize: nat): nat { bucket * bucketSize + slot }

  /** The slots of all buckets in table order. */
  ghost function InOrder(buckets: seq<seq<nat>>): seq<nat> {
    if buckets == [] then [] else buckets[0] + InOrder(buckets[1..])
  }

  /** Every bucket has `bucketSize` slots, each holding a value of `bits` bits. */
  ghost predicate Shaped(buckets: seq<seq<nat>>, bucketSize: nat, bits: nat) {
    forall b :: 0 <= b < |buckets| ==> |buckets[b]| == bucketSize && Fit(buckets[b], bits)
  }

  lemma {:induction false} InOrderLength(buckets: seq<seq<nat>>, bucketSize: nat, bits: nat)
    requires Shaped(buckets, bucketSize, bits)
    ensures |InOrder(buckets)| == |buckets| * bucketSize
    ensures Fit(InOrder(buckets), bits)
  {
    if buckets != [] { InOrderLength(buckets[1..], bucketSize, bits); }
  }

  lemma {:induction false} InOrderAt(buckets: seq<seq<nat>>, bucketSize: nat, bits: nat, b: nat, s: nat)
    requires Shaped(buckets, bucketSize, bits) && b < |buckets| && s < bucketSize
    ensures SlotIndex(b, s, bucketSize) < |InOrder(buckets)|
    ensures InOrder(buckets)[SlotIndex(b, s, bucketSize)] == buckets[b][s]
  {
    if b > 0 {
      InOrderAt(buckets[1..], bucketSize, bits, b - 1, s);
      assert SlotIndex(b, s, bucketSize) == bucketSize + SlotIndex(b - 1, s, bucketSize);
    }
  }

  lemma {:induction false} InOrderUpdate(buckets: seq<seq<nat>>, bucketSize: nat, bits: nat, b: nat, s: nat, v: nat)
    requires Shaped(buckets, bucketSize, bits) && b < |buckets| && s < bucketSize
    ensures SlotIndex(b, s, bucketSize) < |InOrder(buckets)|
    ensures InOrder(SetSlot(buckets, b, s, v)) == InOrder(buckets)[SlotIndex(b, s, bucketSize) := v]
  {
    InOrderAt(buckets, bucketSize, bits, b, s);
    var after := SetSlot(buckets, b, s, v);
    if b == 0 {
      assert after[1..] == buckets[1..];
    } else {
      InOrderUpdate(buckets[1..], bucketSize, bits, b - 1, s, v);
      assert after[1..] == SetSlot(buckets[1..], b - 1, s, v);
      assert SlotIndex(b, s, bucketSize) == bucketSize + SlotIndex(b - 1, s, bucketSize);
    }
  }

  lemma {:induction false} InOrderInjective(a: seq<seq<nat>>, c: seq<seq<nat>>, bucketSize: nat, bits: nat)
    requires |a| == |c| && Shaped(a, bucketSize, bits) && Shaped(c, bucketSize, bits) && InOrder(a) == InOrder(c)
    ensures a == c
  {
    if a != [] {
      assert a[0] == InOrder(a)[..bucketSize] == InOrder(c)[..bucketSize] == c[0];
      assert InOrder(a[1..]) == InOrder(a)[bucketSize..] == InOrder(c)[bucketSize..] == InOrder(c[1..]);
      InOrderInjective(a[1..], c[1..], bucketSize, bits);
      assert a == [a[0]] + a[1..] && c == [c[0]] + c[1..];
    }
  }

  /** The bits of the whole table: its slots, then the padding. */
  ghost function Image(buckets: seq<seq<nat>>, bits: nat, tail: seq<bool>): seq<bool> {
    Flat(InOrder(buckets), bits) + tail
  }

  /** Stream position of slot `(b, s)`. */
  function BitOffset(b: nat, s: nat, bucketSize: nat, bits: nat): nat { SlotIndex(b, s, bucketSize) * bits }

  /** The bytes a word access for a slot covers lie inside the padded buffer. */
  lemma {:induction false} SlotFits(data: seq<Byte>, buckets: seq<seq<nat>>, bucketSize: nat, bits: nat,
                                    tail: seq<bool>, b: nat, s: nat)
    requires 1 <= bits <= 64 && Shaped(buckets, bucketSize, bits) && |tail| >= 128
    requires Stream(data) == Image(buckets, bits, tail)
    requires b < |buckets| && s < bucketSize
    ensures Fits(data, BitOffset(b, s, bucketSize, bits), bits, WindowBytes(bits))
    ensures BitOffset(b, s, bucketSize, bits) + bits <= |Stream(data)|
    ensures Stream(data)[BitOffset(b, s, bucketSize, bits)..BitOffset(b, s, bucketSize, bits) + bits]
         == Bits(buckets[b][s], bits)
  {
    hide SlotIndex;
    InOrderAt(buckets, bucketSize, bits, b, s);
    FieldAt(InOrder(buckets), bits, SlotIndex(b, s, bucketSize), tail);
    FitsAt(data, BitOffset(b, s, bucketSize, bits), bits);
  }

  lemma {:induction false} FitsAt(data: seq<Byte>, pos: nat, bits: nat)
    requires 1 <= bits <= 64 && pos + bits + 128 <= 8 * |data|
    ensures Fits(data, pos, bits, WindowBytes(bits))
  {
  }

  /** Depositing a field through a word of either width updates exactly that slot of the image. */
  lemma {:induction false} SlotWritten(data: seq<Byte>, buckets: seq<seq<nat>>, bucketSize: nat, bits: nat,
                                       tail: seq<bool>, b: nat, s: nat, v: nat)
    requires 1 <= bits <= 64 && Shaped(buckets, bucketSize, bits) && |tail| >= 128
    requires Stream(data) == Image(buckets, bits, tail)
    requires b < |buckets| && s < bucketSize
    ensures Shaped(SetSlot(buckets, b, s, v % Pow2(bits)), bucketSize, bits)
    ensures var pos, n := BitOffset(b, s, bucketSize, bits), WindowBytes(bits);
            && Fits(data, pos, bits, n) && Mask(bits, 8 * n) >= 0
            && Stream(Store(data, pos / 8, n, Deposit(Load(data, pos / 8, n), v, pos % 8, bits, 8 * n)))
               == Image(SetSlot(buckets, b, s, v % Pow2(bits)), bits, tail)
  {
    hide SlotIndex, Deposit, Load, Store, Fits, InOrder, Flat, Mask, Stream;
    SlotFits(data, buckets, bucketSize, bits, tail, b, s);
    WriteField(data, BitOffset(b, s, bucketSize, bits), bits, WindowBytes(bits), v);
    InOrderUpdate(buckets, bucketSize, bits, b, s, v % Pow2(bits));
    SetField(InOrder(buckets), bits, SlotIndex(b, s, bucketSize), v % Pow2(bits), tail);
    BitsModulo(v, bits);
  }

  class Table {
    const numBuckets: nat
    const bucketSize: nat
    const fingerprintBits: nat
    const data: array<Byte>

    /** The stored fingerprints; 0 is an empty slot. */
    ghost var buckets: seq<seq<nat>>
    /** The bits after the last slot. */
    ghost const tail: seq<bool>

    ghost predicate Valid()
      reads this, data
    {
      && 1 <= fingerprintBits <= 64
      && |buckets| == numBuckets
      && Shaped(buckets, bucketSize, fingerprintBits)
      && |tail| >= 128
      && Stream(data[..]) == Image(buckets, fingerprintBits, tail)
    }

    constructor (numBuckets: nat, bucketSize: nat, fingerprintBits: nat)
      requires 1 <= fingerprintBits <= 64
      ensures Valid() && fresh(data)
      ensures this.numBuckets == numBuckets && this.bucketSize == bucketSize && this.fingerprintBits == fingerprintBits
      ensures data.Length == DivCeil(TotalBits(numBuckets, bucketSize, fingerprintBits), 8) + 16
      ensures buckets == Empty(numBuckets, bucketSize)
    {
      hide TotalBits;
      var totalBits := TotalBits(numBuckets, bucketSize, fingerprintBits);
      DivCeilBounds(totalBits, 8);
      var bytes := new Byte[DivCeil(totalBits, 8) + 16](_ => 0);
      this.numBuckets, this.bucketSize, this.fingerprintBits := numBuckets, bucketSize, fingerprintBits;
      data := bytes;
      buckets := Empty(numBuckets, bucketSize);
      tail := Stream(bytes[..])[totalBits..];
      new;
      EmptyImage(numBuckets, bucketSize, fingerprintBits);
      ZeroStream(data[..]);
      assert Stream(data[..])[..totalBits] == Flat(InOrder(buckets), fingerprintBits);
    }

    /** Tables with the same slots have the same bytes. */
    twostate lemma SameBytes()
      requires old(Valid()) && Valid() && buckets == old(buckets)
      ensures data[..] == old(data[..])
    {
      StreamInjective(data[..], old(data[..]));
    }

    method Read(bucket: nat, slot: nat) returns (r: nat)
      requires Valid() && bucket < numBuckets && slot < bucketSize
      ensures r == buckets[bucket][slot]
    {
      hide BitOffset;
      SlotFits(data[..], buckets, bucketSize, fingerprintBits, tail, bucket, slot);
      ValOfBits(buckets[bucket][slot], fingerprintBits);
      var bitPos := BitOffset(bucket, slot, bucketSize, fingerprintBits);
      if fingerprintBits <= 56 {
        ReadField(data[..], bitPos, fingerprintBits, 8);
        r := Extract(Load(data[..], bitPos / 8, 8), bitPos % 8, fingerprintBits, 64);
      } else {
        ReadField(data[..], bitPos, fingerprintBits, 16);
        r := Extract(Load(data[..], bitPos / 8, 16), bitPos % 8, fingerprintBits, 128);
      }
    }

    /** Replace one slot; only the low bits of `fingerprint` are stored. */
    method Write(bucket: nat, slot: nat, fingerprint: nat)
      requires Valid() && bucket < numBuckets && slot < bucketSize
      modifies this, data
      ensures Valid() && buckets == SetSlot(old(buckets), bucket, slot, fingerprint % Pow2(fingerprintBits))
    {
      hide BitOffset;
      SlotWritten(data[..], buckets, bucketSize, fingerprintBits, tail, bucket, slot, fingerprint);
      var bitPos := BitOffset(bucket, slot, bucketSize, fingerprintBits);
      if fingerprintBits <= 56 {
        var val := Deposit(Load(data[..], bitPos / 8, 8), fingerprint, bitPos % 8, fingerprintBits, 64);
        StoreWord(bitPos / 8, 8, val);
      } else {
        var val := Deposit(Load(data[..], bitPos / 8, 16), fingerprint, bitPos % 8, fingerprintBits, 128);
        StoreWord(bitPos / 8, 16, val);
      }
      buckets := SetSlot(buckets, bucket, slot, fingerprint % Pow2(fingerprintBits));
    }

    /** `data[at..at + n].copy_from_slice(&val.to_le_bytes())`. */
    method StoreWord(at: nat, n: nat, val: nat)
      requires at + n <= data.Length
      modifies data
      ensures data[..] == Store(old(data[..]), at, n, val)
    {
      var bytes := ToLe(val, n);
      hide ToLe;
      for i := 0 to n
        invariant data[..] == old(data[..])[..at] + bytes[..i] + old(data[..])[at + i..]
      {
        ghost var before := data[..];
        data[at + i] := bytes[i];
        assert data[..] == before[at + i := bytes[i]];
      }
    }

    method Contain(bucket: nat, fingerprint: nat) returns (r: bool)
      requires Valid() && bucket < numBuckets
      ensures r <==> fingerprint in buckets[bucket]
    {
      for slot := 0 to bucketSize
        invariant fingerprint !in buckets[bucket][..slot]
      {
        var f := Read(bucket, slot);
        if f == fingerprint { return true; }
      }
      return false;
    }

    /** Clears the first occurrence of `fingerprint`. */
    method Delete(bucket: nat, fingerprint: nat) returns (r: bool, ghost slot: nat)
      requires Valid() && bucket < numBuckets && fingerprint != 0
      modifies this, data
      ensures Valid()
      ensures r == (fingerprint in old(buckets[bucket]))
      ensures r ==> slot < bucketSize && old(buckets)[bucket][slot] == fingerprint
                    && fingerprint !in old(buckets)[bucket][..slot]
                    && buckets == SetSlot(old(buckets), bucket, slot, 0)
      ensures !r ==> buckets == old(buckets) && data[..] == old(data[..])
    {
      for s := 0 to bucketSize
        invariant Valid() && buckets == old(buckets) && data[..] == old(data[..])
        invariant fingerprint !in buckets[bucket][..s]
      {
        var f := Read(bucket, s);
        if f == fingerprint {
          Write(bucket, s, 0);
          ZeroModulo(fingerprintBits);
          return true, s;
        }
      }
      return false, 0;
    }

    /** Fills the first empty slot, if there is one. */
    method Insert(bucket: nat, fingerprint: nat) returns (r: Option<nat>)
      requires Valid() && bucket < numBuckets && 0 < fingerprint < Pow2(fingerprintBits)
      modifies this, data
      ensures Valid()
      ensures r.Some? <==> 0 in old(buckets[bucket])
      ensures r.Some? ==> r.value < bucketSize && old(buckets)[bucket][r.value] == 0
                          && 0 !in old(buckets)[bucket][..r.value]
                          && buckets == SetSlot(old(buckets), bucket, r.value, fingerprint)
      ensures r.None? ==> buckets == old(buckets) && data[..] == old(data[..])
    {
      for slot := 0 to bucketSize
        invariant Valid() && buckets == old(buckets) && data[..] == old(data[..])
        invariant 0 !in buckets[bucket][..slot]
      {
        var f := Read(bucket, slot);
        if f == 0 {
          Write(bucket, slot, fingerprint);
          DivModUnique(fingerprint, Pow2(fingerprintBits), 0, fingerprint);
          return Some(slot);
        }
      }
      return None;
    }
  }

  /** A table of empty slots. */
  ghost function Empty(numBuckets: nat, bucketSize: nat): (r: seq<seq<nat>>)
    ensures |r| == numBuckets && forall b :: 0 <= b < numBuckets ==> r[b] == Zeros(bucketSize)
  {
    if numBuckets == 0 then [] else [Zeros(bucketSize)] + Empty(numBuckets - 1, bucketSize)
  }

  lemma {:induction false} ZeroModulo(w: nat)
    ensures 0 % Pow2(w) == 0
  {
    DivModUnique(0, Pow2(w), 0, 0);
  }

  lemma {:induction false} ZeroFields(n: nat, w: nat)
    ensures |Flat(Zeros(n), w)| == n * w
    ensures forall i :: 0 <= i < n * w ==> !Flat(Zeros(n), w)[i]
  {
    FlatLength(Zeros(n), w);
    if n > 0 {
      ZeroFields(n - 1, w);
      assert Zeros(n) == Zeros(n - 1) + [0];
      FlatConcat(Zeros(n - 1), [0], w);
      assert Flat([0], w) == Bits(0, w);
      forall i | 0 <= i < w ensures !Bits(0, w)[i] { BitsAt(0, w, i); BitOfZero(i); }
    }
  }

  lemma {:induction false} ZeroStream(data: seq<Byte>)
    requires forall i :: 0 <= i < |data| ==> data[i] == 0
    ensures forall i :: 0 <= i < 8 * |data| ==> !Stream(data)[i]
  {
    forall i | 0 <= i < 8 * |data| ensures !Stream(data)[i] { BitOfZero(i % 8); }
  }

  lemma {:induction false} EmptySlots(n: nat, bucketSize: nat)
    ensures InOrder(Empty(n, bucketSize)) == Zeros(n * bucketSize)
  {
    if n > 0 {
      EmptySlots(n - 1, bucketSize);
      assert Empty(n, bucketSize)[1..] == Empty(n - 1, bucketSize);
      assert n * bucketSize == bucketSize + (n - 1) * bucketSize;
    }
  }

  lemma {:induction false} EmptyImage(n: nat, bucketSize: nat, w: nat)
    ensures Shaped(Empty(n, bucketSize), bucketSize, w)
    ensures |Flat(InOrder(Empty(n, bucketSize)), w)| == TotalBits(n, bucketSize, w)
    ensures forall i :: 0 <= i < TotalBits(n, bucketSize, w) ==> !Flat(InOrder(Empty(n, bucketSize)), w)[i]
  {
    EmptySlots(n, bucketSize);
    ZeroFields(n * bucketSize, w);
  }
}
