/** The two clients as values: what each operation does to their state, and what decoding returns. */
module ClientSpec {
  import opened Words
  import opened Geometry
  import opened WireFormat
  import opened LinearAlgebra
  import opened Lwe
  import opened Lookup
  import opened Deltas
  import opened Messages
  import Scheme

  datatype ClientState = ClientState(params: BackendParams, hint: Matrix, inFlight: Option<seq<nat>>)

  datatype ClientError =
    | EpochMismatch(client: nat, response: nat)
    | MalformedBundle
    | StaleDelta(expected: nat, got: nat)
    | FutureDelta(expected: nat, got: nat)
    | CellOutOfRange(segment: nat, row: nat, offset: nat)

  datatype Outcome<+T> = Done(value: T) | Failed(error: ClientError)

  datatype DeltaApplyOutcome = Synced | Resynced

  // ---------- candidate rows ----------

  /** The key's fingerprint. */
  function KeyFingerprint(p: CuckooParams, digest: nat): nat
    requires p.Legal()
  {
    Scheme.SchemeOf(p).HashItem(digest, p.fingerprintBits).0
  }

  /** The row of segment `j` that can hold the key. */
  function KeyRow(p: CuckooParams, digest: nat, j: nat): (r: nat)
    requires p.Legal() && j < 4
    ensures r < p.SegmentSize()
  {
    LegalPositive(p);
    Scheme.SchemeOf(p).HashItem(digest, p.fingerprintBits).1[j] % p.SegmentSize()
  }

  /** Row `KeyRow(j)` of segment `j` is the key's candidate bucket `j`, one bucket in each segment. */
  lemma {:induction false} KeyRowIsCandidate(p: CuckooParams, digest: nat, j: nat)
    requires p.Legal() && Scheme.SchemeOf(p).Valid() && j < p.Arity()
    ensures j * p.SegmentSize() + KeyRow(p, digest, j) == Scheme.SchemeOf(p).HashItem(digest, p.fingerprintBits).1[j]
    ensures KeyFingerprint(p, digest) != 0
  {
    var s := Scheme.SchemeOf(p);
    Scheme.ItemOrbit(s, digest, p.fingerprintBits);
    var (fp, indices) := s.HashItem(digest, p.fingerprintBits);
    var i1, k := Scheme.SegmentedHas(s, indices[0], fp);
    Scheme.SegmentedSame(s, i1, fp, k);
    Scheme.SegmentedSame(s, i1, fp, j);
    DivModUnique(indices[j], p.SegmentSize(), j, indices[j] - j * p.SegmentSize());
  }

  // ---------- queries ----------

  /** The query of one segment matches the secret its state holds in flight. */
  ghost predicate SegmentAsks(s: ClientState, q: seq<nat>, row: nat, pb: nat) {
    s.inFlight.Some? && |s.inFlight.value| == s.params.lweDim && IsQuery(q, s.params.a, s.inFlight.value, row, pb)
  }

  /** The bundle is the latest query of these states for the key. */
  ghost predicate Asks(states: seq<ClientState>, q: PirQueryBundle, digest: nat, p: CuckooParams)
    requires p.Legal()
  {
    && |states| == |q.queries| == p.Arity()
    && forall j :: 0 <= j < p.Arity() ==> SegmentAsks(states[j], q.queries[j], KeyRow(p, digest, j), p.plaintextBits)
  }

  /** Only the secret in flight differs. */
  ghost predicate SameButInFlight(before: seq<ClientState>, after: seq<ClientState>) {
    |before| == |after| && forall j :: 0 <= j < |before| ==>
      after[j].params == before[j].params && after[j].hint == before[j].hint
  }

  // ---------- setup ----------

  function FreshStates(b: ServerSetupBundle): (r: seq<ClientState>)
    requires |b.backendParams| == |b.hints|
    ensures |r| == |b.hints|
  {
    seq(|b.hints|, j requires 0 <= j < |b.hints| => ClientState(b.backendParams[j], b.hints[j], None))
  }

  /** Shapes a client relies on. */
  ghost predicate StateOk(s: ClientState, p: CuckooParams)
    requires p.Legal()
  {
    && s.params.nRows == p.SegmentSize() && s.params.rowWidth == p.RowWidth()
    && Shape(s.params.a, p.SegmentSize(), s.params.lweDim)
    && Shape(s.hint, s.params.lweDim, p.RowWidth()) && AreWords(s.hint)
    && (s.inFlight.Some? ==> |s.inFlight.value| == s.params.lweDim)
  }

  ghost predicate StatesOk(states: seq<ClientState>, p: CuckooParams)
    requires p.Legal()
  {
    |states| == p.Arity() && forall j :: 0 <= j < |states| ==> StateOk(states[j], p)
  }

  ghost predicate BundleOk(b: ServerSetupBundle) {
    && Served(b.params) && |b.backendParams| == |b.hints| == b.params.Arity()
    && forall j :: 0 <= j < |b.hints| ==> StateOk(ClientState(b.backendParams[j], b.hints[j], None), b.params)
  }

  // ---------- rewind client ----------

  datatype RewindState = RewindState(
    params: CuckooParams, states: seq<ClientState>, pending: seq<DeltaMap>, epoch: nat, pinEpoch: nat)

  ghost predicate MapInRange(m: DeltaMap, p: CuckooParams)
    requires p.Legal()
  {
    forall k :: k in m ==> k.0 < p.SegmentSize() && k.1 < p.RowWidth()
  }

  ghost predicate RewindOk(c: RewindState) {
    && Served(c.params) && StatesOk(c.states, c.params) && |c.pending| == c.params.Arity()
    && forall j :: 0 <= j < |c.pending| ==> ZeroFree(c.pending[j])
  }

  /** Every pending edit is inside its segment. */
  ghost predicate PendingInRange(c: RewindState)
    requires c.params.Legal()
  {
    forall j :: 0 <= j < |c.pending| ==> MapInRange(c.pending[j], c.params)
  }

  function NoPending(arity: nat): (r: seq<DeltaMap>)
    ensures |r| == arity && forall j :: 0 <= j < arity ==> r[j] == map[]
  {
    seq(arity, _ => map[])
  }

  function RewindFromSetup(b: ServerSetupBundle): RewindState
    requires |b.backendParams| == |b.hints|
  {
    RewindState(b.params, FreshStates(b), NoPending(b.params.Arity()), b.epoch, b.epoch)
  }

  /** Errors of a delta bundle, in the order they are checked; `None` when none applies. */
  function DeltaError(params: CuckooParams, epoch: nat, d: HintDeltaBundle): Option<ClientError> {
    if d.epoch < epoch + 1 then Some(StaleDelta(epoch + 1, d.epoch))
    else if d.epoch > epoch + 1 then Some(FutureDelta(epoch + 1, d.epoch))
    else if d.params != params then Some(MalformedBundle)
    else if |d.perSegmentRowDeltas| != params.Arity() then Some(MalformedBundle)
    else None
  }

  /** The delta is for these parameters, one list for each segment. */
  predicate SameGeometry(d: HintDeltaBundle, params: CuckooParams) {
    d.params == params && |d.perSegmentRowDeltas| == params.Arity()
  }

  /** Every edit of the bundle is inside its segment. */
  ghost predicate BundleInRange(d: HintDeltaBundle, p: CuckooParams)
    requires p.Legal()
  {
    forall j :: 0 <= j < |d.perSegmentRowDeltas| ==>
         RowsInRange(d.perSegmentRowDeltas[j], p.SegmentSize(), p.RowWidth())
  }

  ghost predicate MergesFit(pending: seq<DeltaMap>, deltas: seq<SegmentRowDeltas>)
    requires |pending| == |deltas|
  {
    forall j :: 0 <= j < |deltas| ==> MergeRows(pending[j], deltas[j]).1
  }

  function MergeAll(pending: seq<DeltaMap>, deltas: seq<SegmentRowDeltas>): (r: seq<DeltaMap>)
    requires |pending| == |deltas|
    ensures |r| == |pending| && forall j :: 0 <= j < |r| ==> r[j] == MergeRows(pending[j], deltas[j]).0
  {
    seq(|pending|, j requires 0 <= j < |pending| => MergeRows(pending[j], deltas[j]).0)
  }

  /** How a rewind client takes a delta whose sums fit. */
  ghost predicate Accumulates(c: RewindState, d: HintDeltaBundle, c': RewindState, r: Outcome<()>)
    requires RewindOk(c)
  {
    var e := DeltaError(c.params, c.epoch, d);
    if e.Some? then c' == c && r == Failed(e.value)
    else if MergesFit(c.pending, d.perSegmentRowDeltas) then
      r == Done(()) && c' == c.(pending := MergeAll(c.pending, d.perSegmentRowDeltas), epoch := d.epoch)
    else
      // an overflowing merge stops part way: the epoch stands, the pending edits are unspecified
      r == Failed(MalformedBundle) && c' == c.(pending := c'.pending)
  }

  /** One segment's hint brought up to date with what is pending. */
  function CollectSegment(s: ClientState, m: DeltaMap, p: CuckooParams): ClientState
    requires p.Legal() && StateOk(s, p)
  {
    if m == map[] then s
    else
      var delta := MapDense(m, p.SegmentSize(), p.RowWidth());
      s.(hint := PatchHint(s.hint, s.params.a, delta, s.params.lweDim, p.RowWidth()))
  }

  function Collected(c: RewindState): RewindState
    requires RewindOk(c)
  {
    if c.pinEpoch == c.epoch then c
    else
      c.(states := seq(|c.states|, j requires 0 <= j < |c.states| =>
                     CollectSegment(c.states[j], c.pending[j], c.params)),
         pinEpoch := c.epoch,
         pending := NoPending(c.params.Arity()))
  }

  /** The corrected cells of one segment's queried row: the response rewound to the pin, decoded
      with the pinned hint, then moved forward by the row's pending edits. */
  function HeadRow(s: ClientState, m: DeltaMap, q: seq<nat>, resp: seq<nat>, row: nat, p: CuckooParams): (r: Vector)
    requires Served(p) && StateOk(s, p) && s.inFlight.Some?
    requires |q| == p.SegmentSize() && |resp| == p.RowWidth() && row < p.SegmentSize()
    ensures |r| == p.RowWidth()
  {
    var pending := MapDense(m, p.SegmentSize(), p.RowWidth());
    Plus(DecodeCells(Rewind(resp, q, pending), s.hint, s.inFlight.value, p.plaintextBits), pending[row])
  }

  ghost predicate InCellRange(v: Vector, pb: nat) {
    forall i :: 0 <= i < |v| ==> 0 <= v[i] < Pow2(pb)
  }

  /** The first cell outside the range. */
  ghost predicate FirstOutside(v: Vector, pb: nat, i: nat) {
    i < |v| && !(0 <= v[i] < Pow2(pb)) && forall k :: 0 <= k < i ==> 0 <= v[k] < Pow2(pb)
  }

  /** Responses are words. */
  ghost predicate AreResponses(resp: PirResponseBundle) {
    forall j, i :: 0 <= j < |resp.responses| && 0 <= i < |resp.responses[j]| ==> resp.responses[j][i] < U32
  }

  /** What the caller must hold: a query in flight in every segment, one word a row in the query, and
      edits inside their segments. */
  ghost predicate CanDecode(c: RewindState, q: PirQueryBundle, resp: PirResponseBundle) {
    && RewindOk(c) && PendingInRange(c)
    && (forall j :: 0 <= j < |c.states| ==> c.states[j].inFlight.Some?)
    && (forall j :: 0 <= j < |q.queries| ==> |q.queries[j]| == c.params.SegmentSize())
    && AreResponses(resp)
  }

  /** Both bundles have one entry a segment. */
  ghost predicate OnePerSegment(c: RewindState, q: PirQueryBundle, resp: PirResponseBundle) {
    |q.queries| == |resp.responses| == c.params.Arity()
  }

  /** The corrected row of segment `j`. */
  ghost function HeadRowOf(c: RewindState, digest: nat, q: PirQueryBundle, resp: PirResponseBundle, j: nat): (r: Vector)
    requires CanDecode(c, q, resp) && OnePerSegment(c, q, resp) && j < c.params.Arity()
    requires |resp.responses[j]| == c.params.RowWidth()
    ensures |r| == c.params.RowWidth()
  {
    HeadRow(c.states[j], c.pending[j], q.queries[j], resp.responses[j], KeyRow(c.params, digest, j), c.params)
  }

  /** The response row of segment `j` has the right width and its corrected cells are in range. */
  ghost predicate GoodSegment(c: RewindState, digest: nat, q: PirQueryBundle, resp: PirResponseBundle, j: nat)
    requires CanDecode(c, q, resp) && OnePerSegment(c, q, resp) && j < c.params.Arity()
  {
    |resp.responses[j]| == c.params.RowWidth() && InCellRange(HeadRowOf(c, digest, q, resp, j), c.params.plaintextBits)
  }

  /** `rows` are the corrected rows of all segments. */
  ghost predicate AreHeadRows(rows: seq<seq<nat>>, c: RewindState, digest: nat, q: PirQueryBundle,
                              resp: PirResponseBundle)
    requires CanDecode(c, q, resp) && OnePerSegment(c, q, resp)
  {
    && |rows| == c.params.Arity() && RowsOk(rows, c.params)
    && forall j :: 0 <= j < |rows| ==>
         |resp.responses[j]| == c.params.RowWidth() && rows[j] == HeadRowOf(c, digest, q, resp, j)
  }

  /** What `decode` returns. */
  ghost predicate RewindDecodes(c: RewindState, digest: nat, q: PirQueryBundle, resp: PirResponseBundle,
                                r: Outcome<Option<seq<Byte>>>)
    requires CanDecode(c, q, resp)
  {
    if resp.epoch != c.epoch then r == Failed(EpochMismatch(c.epoch, resp.epoch))
    else if q.epoch != resp.epoch || !OnePerSegment(c, q, resp) then r == Failed(MalformedBundle)
    else
      && (r.Done? ==> exists rows :: AreHeadRows(rows, c, digest, q, resp)
                                   && IsLookup(r.value, rows, KeyFingerprint(c.params, digest), c.params))
      && (r.Failed? ==> exists j :: FirstFailure(r.error, c, digest, q, resp, j))
  }

  /** Segment `j` is the first that does not decode, and the error says why. */
  ghost predicate FirstFailure(e: ClientError, c: RewindState, digest: nat, q: PirQueryBundle, resp: PirResponseBundle,
                               j: nat)
    requires CanDecode(c, q, resp) && OnePerSegment(c, q, resp)
  {
    && j < c.params.Arity() && (forall i :: 0 <= i < j ==> GoodSegment(c, digest, q, resp, i))
    && if |resp.responses[j]| != c.params.RowWidth() then e == MalformedBundle
       else e.CellOutOfRange? && e.segment == j && e.row == KeyRow(c.params, digest, j)
            && FirstOutside(HeadRowOf(c, digest, q, resp, j), c.params.plaintextBits, e.offset)
  }

  // ---------- hint-patching client ----------

  datatype PatchState = PatchState(params: CuckooParams, states: seq<ClientState>, epoch: nat)

  ghost predicate PatchOk(c: PatchState) { Served(c.params) && StatesOk(c.states, c.params) }

  function PatchFromSetup(b: ServerSetupBundle): PatchState
    requires |b.backendParams| == |b.hints|
  {
    PatchState(b.params, FreshStates(b), b.epoch)
  }

  function PatchSegment(s: ClientState, rows: SegmentRowDeltas, p: CuckooParams): ClientState
    requires p.Legal() && StateOk(s, p)
  {
    if rows == [] then s
    else
      var delta := RowsDense(rows, p.SegmentSize(), p.RowWidth());
      s.(hint := PatchHint(s.hint, s.params.a, delta, s.params.lweDim, p.RowWidth()))
  }

  /** How a hint-patching client takes a delta. */
  ghost predicate Applies(c: PatchState, d: HintDeltaBundle, c': PatchState, r: Outcome<()>)
    requires PatchOk(c)
  {
    var e := DeltaError(c.params, c.epoch, d);
    if e.Some? then c' == c && r == Failed(e.value)
    else
      && r == Done(()) && c'.params == c.params && c'.epoch == d.epoch && |c'.states| == |c.states|
      && forall j :: 0 <= j < |c.states| ==>
           c'.states[j] == PatchSegment(c.states[j], d.perSegmentRowDeltas[j], c.params)
  }

  ghost predicate PatchCanDecode(c: PatchState, resp: PirResponseBundle) {
    && PatchOk(c)
    && (forall j :: 0 <= j < |c.states| ==> c.states[j].inFlight.Some?)
    && AreResponses(resp)
  }

  /** One response row a segment, each of the right width. */
  ghost predicate FullWidth(resp: PirResponseBundle, p: CuckooParams)
    requires p.Legal()
  {
    |resp.responses| == p.Arity() && forall j :: 0 <= j < |resp.responses| ==> |resp.responses[j]| == p.RowWidth()
  }

  ghost predicate AreDecodedRows(rows: seq<seq<nat>>, c: PatchState, resp: PirResponseBundle)
    requires PatchCanDecode(c, resp) && FullWidth(resp, c.params)
  {
    && |rows| == c.params.Arity() && RowsOk(rows, c.params)
    && forall j :: 0 <= j < |rows| ==>
         rows[j] == DecodeCells(resp.responses[j], c.states[j].hint, c.states[j].inFlight.value, c.params.plaintextBits)
  }

  ghost predicate PatchDecodes(c: PatchState, digest: nat, resp: PirResponseBundle, r: Outcome<Option<seq<Byte>>>)
    requires PatchCanDecode(c, resp)
  {
    if resp.epoch != c.epoch then r == Failed(EpochMismatch(c.epoch, resp.epoch))
    else if !FullWidth(resp, c.params) then r == Failed(MalformedBundle)
    else
      && r.Done?
      && exists rows :: AreDecodedRows(rows, c, resp)
                        && IsLookup(r.value, rows, KeyFingerprint(c.params, digest), c.params)
  }
}
