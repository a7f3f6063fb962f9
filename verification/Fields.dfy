/** Arrays of fixed-width fields laid end to end in a bit string. */
module Fields {
  import opened Words

  /** The fields, each at width `w`, one after the other. */
  function Flat(fields: seq<nat>, w: nat): (bs: seq<bool>) {
    if fields == [] then [] else Bits(fields[0], w) + Flat(fields[1..], w)
  }

  /** A table of buckets with one slot replaced. */
  ghost function SetSlot<T>(buckets: seq<seq<T>>, b: nat, s: nat, v: T): (r: seq<seq<T>>)
    requires b < |buckets| && s < |buckets[b]|
    ensures |r| == |buckets| && forall i :: 0 <= i < |buckets| ==> |r[i]| == |buckets[i]|
    ensures r[b] == buckets[b][s := v] && forall i :: 0 <= i < |buckets| && i != b ==> r[i] == buckets[i]
  {
    var row: seq<T> := buckets[b][s := v];
    buckets[b := row]
  }

  /** `after` is `before` with `field` at position `at`. */
  ghost predicate Spliced(before: seq<bool>, after: seq<bool>, at: nat, field: seq<bool>) {
    at + |field| <= |before| && after == before[..at] + field + before[at + |field|..]
  }

  ghost predicate Fit(fields: seq<nat>, w: nat) {
    forall k :: 0 <= k < |fields| ==> fields[k] < Pow2(w)
  }

  lemma {:induction false} FlatLength(fields: seq<nat>, w: nat)
    ensures |Flat(fields, w)| == |fields| * w
  {
    if fields != [] { FlatLength(fields[1..], w); }
  }

  lemma {:induction false} FlatConcat(a: seq<nat>, b: seq<nat>, w: nat)
    ensures Flat(a + b, w) == Flat(a, w) + Flat(b, w)
  {
    if a == [] {
      assert a + b == b;
    } else {
      assert (a + b)[1..] == a[1..] + b;
      FlatConcat(a[1..], b, w);
    }
  }

  /** Field `k` occupies bits `k * w` to `k * w + w`; everything else depends on the other fields. */
  lemma {:induction false} FlatAround(fields: seq<nat>, w: nat, k: nat)
    requires k < |fields|
    ensures |Flat(fields[..k], w)| == k * w
    ensures Flat(fields, w) == Flat(fields[..k], w) + Bits(fields[k], w) + Flat(fields[k + 1..], w)
  {
    FlatLength(fields[..k], w);
    assert fields == fields[..k] + fields[k..];
    FlatConcat(fields[..k], fields[k..], w);
    assert fields[k..][1..] == fields[k + 1..];
    assert Flat(fields[k..], w) == Bits(fields[k], w) + Flat(fields[k + 1..], w);
  }

  lemma {:induction false} FieldAt(fields: seq<nat>, w: nat, k: nat, tail: seq<bool>)
    requires k < |fields|
    ensures k * w + w <= |Flat(fields, w)|
    ensures (Flat(fields, w) + tail)[k * w..k * w + w] == Bits(fields[k], w)
  {
    FlatAround(fields, w, k);
  }

  lemma {:induction false} SetField(fields: seq<nat>, w: nat, k: nat, v: nat, tail: seq<bool>)
    requires k < |fields|
    ensures k * w + w <= |Flat(fields, w) + tail|
    ensures Flat(fields[k := v], w) + tail
         == (Flat(fields, w) + tail)[..k * w] + Bits(v, w) + (Flat(fields, w) + tail)[k * w + w..]
  {
    FlatAround(fields, w, k);
    FlatAround(fields[k := v], w, k);
    assert fields[k := v][..k] == fields[..k] && fields[k := v][k + 1..] == fields[k + 1..];
    hide *;
    PartsExchanged(Flat(fields, w), Flat(fields[k := v], w), Flat(fields[..k], w), Flat(fields[k + 1..], w),
                   Bits(fields[k], w), Bits(v, w), tail);
  }

  lemma {:induction false} PartsExchanged(was: seq<bool>, now: seq<bool>, left: seq<bool>, right: seq<bool>,
                                          old_: seq<bool>, new_: seq<bool>, tail: seq<bool>)
    requires was == left + old_ + right && now == left + new_ + right
    ensures now + tail == (was + tail)[..|left|] + new_ + (was + tail)[|left| + |old_|..]
  {
    assert (was + tail)[..|left|] == left;
    assert (was + tail)[|left| + |old_|..] == right + tail;
  }

  /** A bit string determines its fields. */
  lemma {:induction false} FlatInjective(a: seq<nat>, b: seq<nat>, w: nat)
    requires |a| == |b| && Fit(a, w) && Fit(b, w) && Flat(a, w) == Flat(b, w)
    ensures a == b
  {
    forall k | 0 <= k < |a| ensures a[k] == b[k] {
      FieldAt(a, w, k, []);
      FieldAt(b, w, k, []);
      ValOfBits(a[k], w);
      ValOfBits(b[k], w);
      assert Flat(a, w) + [] == Flat(b, w) + [];
    }
  }

  lemma {:induction false} BitsModulo(v: nat, w: nat)
    ensures Bits(v % Pow2(w), w) == Bits(v, w)
  {
    if w > 0 {
      var p := Pow2(w - 1);
      var q, r := v / Pow2(w), v % Pow2(w);
      assert v == Pow2(w) * q + r && Pow2(w) * q == 2 * (p * q);
      assert v / 2 == p * q + r / 2 && v % 2 == r % 2;
      DivModUnique(v / 2, p, q, r / 2);
      BitsModulo(v / 2, w - 1);
    }
  }
}
