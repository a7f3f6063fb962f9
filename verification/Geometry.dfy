/** Public geometry of one segmented cuckoo store, shared by the server, the clients and the wire
    format. */
module Geometry {

  datatype Option<+T> = None | Some(value: T)

  datatype SchemeKind = Segmented2ary | Segmented3ary | Segmented4ary

  /** `a / b`, rounded up. */
  function DivCeil(a: nat, b: nat): nat
    requires b > 0
  {
    if a == 0 then 0 else if a <= b then 1 else 1 + DivCeil(a - b, b)
  }

  lemma {:induction false} DivCeilBounds(a: nat, b: nat)
    requires b > 0
    ensures a <= b * DivCeil(a, b) < a + b
    ensures a > 0 ==> DivCeil(a, b) > 0
  {
    if a > b {
      DivCeilBounds(a - b, b);
      assert b * DivCeil(a, b) == b + b * DivCeil(a - b, b);
    }
  }

  datatype CuckooParams = CuckooParams(
    schemeKind: SchemeKind,
    numBuckets: nat,
    bucketSize: nat,
    fingerprintBits: nat,
    valueBits: nat,
    plaintextBits: nat)
  {
    function Arity(): nat {
      match schemeKind
      case Segmented2ary => 2
      case Segmented3ary => 3
      case Segmented4ary => 4
    }

    function SegmentSize(): nat {
      match schemeKind
      case Segmented2ary => numBuckets / 2
      case Segmented3ary => numBuckets / 3
      case Segmented4ary => numBuckets / 4
    }

    function CellsPerSlot(): nat
      requires plaintextBits > 0
    {
      DivCeil(fingerprintBits + valueBits, plaintextBits)
    }

    function ValueSizeInCells(): nat
      requires plaintextBits > 0
    {
      DivCeil(valueBits, plaintextBits)
    }

    function ValueSizeInBytes(): nat { DivCeil(valueBits, 8) }

    /** Cells per row: one row of a segment is one bucket. */
    function RowWidth(): nat
      requires plaintextBits > 0
    {
      bucketSize * CellsPerSlot()
    }

    /** The slot layouts a value table accepts. */
    predicate ValidSlots() { 1 <= fingerprintBits <= 64 && valueBits >= 1 && 1 <= plaintextBits <= 32 }

    /** The segments tile the bucket array. */
    predicate SegmentsTile() {
      match schemeKind
      case Segmented2ary => numBuckets == 2 * SegmentSize()
      case Segmented3ary => numBuckets == 3 * SegmentSize()
      case Segmented4ary => numBuckets == 4 * SegmentSize()
    }

    /** The geometries the store constructors build and a `u16` cell offset can address. */
    predicate Legal() {
      && 0 < numBuckets < 0x1_0000_0000
      && SegmentsTile()
      && 1 <= plaintextBits <= 32
      && 1 <= fingerprintBits <= 64
      && 1 <= valueBits
      && 1 <= bucketSize
      && RowWidth() <= 65535
    }
  }

  /** Cells and bytes are the fewest that hold the bits. */
  lemma {:induction false} SizesLeast(p: CuckooParams)
    requires p.ValidSlots()
    ensures forall n: nat :: p.fingerprintBits + p.valueBits <= p.plaintextBits * n <==> p.CellsPerSlot() <= n
    ensures forall n: nat :: p.valueBits <= p.plaintextBits * n <==> p.ValueSizeInCells() <= n
    ensures forall n: nat :: p.valueBits <= 8 * n <==> p.ValueSizeInBytes() <= n
  {
    forall n: nat
      ensures p.fingerprintBits + p.valueBits <= p.plaintextBits * n <==> p.CellsPerSlot() <= n
      ensures p.valueBits <= p.plaintextBits * n <==> p.ValueSizeInCells() <= n
      ensures p.valueBits <= 8 * n <==> p.ValueSizeInBytes() <= n
    {
      DivCeilLeast(p.fingerprintBits + p.valueBits, p.plaintextBits, n);
      DivCeilLeast(p.valueBits, p.plaintextBits, n);
      DivCeilLeast(p.valueBits, 8, n);
    }
  }

  lemma {:induction false} DivCeilLeast(a: nat, b: nat, n: nat)
    requires b > 0
    ensures a <= b * n <==> DivCeil(a, b) <= n
    decreases n
  {
    if a > 0 && n > 0 {
      assert b * n == b * (n - 1) + b;
      if a > b { DivCeilLeast(a - b, b, n - 1); }
    }
  }
}
