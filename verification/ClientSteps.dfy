/** Steps both clients share: building queries, patching hints, scanning decoded rows. */
module ClientSteps {
  import opened Words
  import opened Geometry
  import opened LinearAlgebra
  import opened Lwe
  import opened Fields
  import opened Messages
  import opened ClientSpec
  import Hash
  import opened Matvec

  /** A random ternary vector. */
  method SampleTernary(n: nat) returns (v: Vector)
    ensures |v| == n && Ternary(v)
  {
    v := [];
    for i := 0 to n
      invariant |v| == i && Ternary(v)
    {
      var x: int :| -1 <= x <= 1;
      v := v + [x];
    }
  }

  /** A fresh secret and error, the query they make, and the state holding the secret in flight. */
  method ClientQuery(s: ClientState, row: nat, p: CuckooParams) returns (s': ClientState, q: seq<nat>)
    requires Served(p) && StateOk(s, p) && row < p.SegmentSize()
    ensures StateOk(s', p) && s'.params == s.params && s'.hint == s.hint
    ensures |q| == p.SegmentSize() && SegmentAsks(s', q, row, p.plaintextBits)
  {
    var ternary := SampleTernary(s.params.lweDim);
    var secret: seq<nat> := seq(|ternary|, k requires 0 <= k < |ternary| => W(ternary[k]));
    var e := SampleTernary(s.params.nRows);
    q := Query(s.params.a, secret, e, row, p.plaintextBits);
    s' := s.(inFlight := Some(secret));
    assert IsQuery(q, s.params.a, secret, row, p.plaintextBits);
  }

  /** One query in each segment, for the key's candidate row there. */
  method BuildQueries(states: seq<ClientState>, digest: nat, epoch: nat, p: CuckooParams)
      returns (states': seq<ClientState>, q: PirQueryBundle)
    requires Served(p) && StatesOk(states, p)
    ensures StatesOk(states', p) && SameButInFlight(states, states')
    ensures q.epoch == epoch && QueryShape(q, p) && Asks(states', q, digest, p)
  {
    var queries: seq<seq<nat>> := [];
    states' := [];
    hide StateOk, KeyRow, Asked;
    for j := 0 to p.Arity()
      invariant |queries| == |states'| == j
      invariant forall i :: 0 <= i < j ==> Asked(states[i], states'[i], queries[i], KeyRow(p, digest, i), p)
    {
      var s, query := ClientQuery(states[j], KeyRow(p, digest, j), p);
      MakeAsked(states[j], s, query, KeyRow(p, digest, j), p);
      states' := states' + [s];
      queries := queries + [query];
    }
    q := PirQueryBundle(epoch, queries);
    AllAsked(states, states', q, digest, p);
  }

  /** One segment of a query: the state with the secret in flight, and the query words. */
  ghost predicate Asked(before: ClientState, after: ClientState, q: seq<nat>, row: nat, p: CuckooParams)
    requires p.Legal()
  {
    && StateOk(after, p) && after.params == before.params && after.hint == before.hint
    && |q| == p.SegmentSize() && SegmentAsks(after, q, row, p.plaintextBits)
  }

  lemma {:induction false} MakeAsked(before: ClientState, after: ClientState, q: seq<nat>, row: nat, p: CuckooParams)
    requires p.Legal() && StateOk(after, p) && after.params == before.params && after.hint == before.hint
    requires |q| == p.SegmentSize() && SegmentAsks(after, q, row, p.plaintextBits)
    ensures Asked(before, after, q, row, p)
  {
  }

  lemma {:induction false} AllAsked(before: seq<ClientState>, after: seq<ClientState>, q: PirQueryBundle, digest: nat,
                                    p: CuckooParams)
    requires p.Legal() && |before| == |after| == |q.queries| == p.Arity()
    requires forall i :: 0 <= i < p.Arity() ==> Asked(before[i], after[i], q.queries[i], KeyRow(p, digest, i), p)
    ensures StatesOk(after, p) && SameButInFlight(before, after) && QueryShape(q, p) && Asks(after, q, digest, p)
  {
    hide KeyRow, StateOk, SegmentAsks;
  }

  /** One row of cells from a response, by the backend's kernel. */
  method ClientDecodes(s: ClientState, response: seq<nat>, p: CuckooParams) returns (cells: seq<nat>)
    requires Served(p) && StateOk(s, p) && s.inFlight.Some? && |response| == p.RowWidth()
    requires forall i :: 0 <= i < |response| ==> response[i] < U32
    ensures cells == DecodeCells(response, s.hint, s.inFlight.value, p.plaintextBits) && Fit(cells, p.plaintextBits)
  {
    var hint := RowMajor(s.hint, |response|);
    RowMajorIsFlat(s.hint, |response|);
    var x86: bool := *;
    var decoded := ClientDecode(response, hint, s.inFlight.value, p.plaintextBits, x86, s.hint);
    cells := decoded[..];
    DecodedFits(response, s.hint, s.inFlight.value, p.plaintextBits);
  }

  /** A key's fingerprint is a u64. */
  lemma {:induction false} KeyFingerprintFits(p: CuckooParams, digest: nat)
    requires p.Legal()
    ensures KeyFingerprint(p, digest) < U64
  {
    Hash.FingerprintInRange(digest % U64, p.fingerprintBits);
    Pow2Monotone(p.fingerprintBits, 64);
    PowersOfTwo();
  }

  /** Rounded values are cells. */
  lemma {:induction false} RoundedFits(y: int, pb: nat)
    requires 1 <= pb <= 31
    ensures RoundQToP(y, pb) < Pow2(pb)
  {
    StepSizes(pb);
    ShrIsDiv(W(y + Pow2(31 - pb)), 32 - pb);
    QuotientFits(W(y + Pow2(31 - pb)), Pow2(32 - pb), Pow2(pb));
  }

  lemma {:induction false} QuotientFits(v: nat, d: nat, n: nat)
    requires d > 0 && v < n * d
    ensures v / d < n
  {
    assert v == d * (v / d) + v % d;
    if v / d >= n { MulMonotone(d, n, v / d); }
  }

  lemma {:induction false} DecodedFits(response: seq<nat>, hint: Matrix, s: Vector, pb: nat)
    requires Shape(hint, |s|, |response|) && 1 <= pb <= 31
    ensures Fit(DecodeCells(response, hint, s, pb), pb)
  {
    forall j | 0 <= j < |response| ensures DecodeCells(response, hint, s, pb)[j] < Pow2(pb) {
      RoundedFits(W(response[j] - Dot(s, Column(hint, j))), pb);
    }
  }
}
