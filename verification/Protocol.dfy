/** The whole protocol as a state machine: one server history, one rewind client and one
    hint-patching client, under any interleaving, with deltas and setup bundles lost, duplicated or
    reordered at will. */
module Protocol {
  import opened Words
  import opened Geometry
  import opened WireFormat
  import opened Lwe
  import opened Lookup
  import opened Messages
  import opened ClientSpec
  import opened ClientSync
  import WireTheorems

  /** A query a client issued and the key it is for. */
  datatype Ask = Ask(digest: nat, query: PirQueryBundle)

  /** Each client remembers its latest query; a reset forgets it. */
  datatype World = World(
    h: History,
    rewind: RewindState, rewindAsk: Option<Ask>,
    patch: PatchState, patchAsk: Option<Ask>)

  datatype Event =
    | Commit(version: Version)
    | Rebuild(version: Version)
    | RewindDelta(delta: HintDeltaBundle)
    | RewindSetup(from: nat)
    | RewindResync(delta: HintDeltaBundle, from: nat)
    | RewindCollect
    | RewindQuery(ask: Ask)
    | PatchDelta(delta: HintDeltaBundle)
    | PatchSetup(from: nat)
    | PatchResync(delta: HintDeltaBundle, from: nat)
    | PatchQuery(ask: Ask)

  /** Events that hand the rewind client a setup bundle. */
  predicate ResetsRewind(e: Event) { e.RewindSetup? || e.RewindResync? }

  predicate ResetsPatch(e: Event) { e.PatchSetup? || e.PatchResync? }

  ghost predicate WorldOk(w: World, p: CuckooParams, dim: nat)
    requires Served(p)
  {
    && HistoryOk(w.h, p, dim)
    && RewindSynced(w.rewind, w.h, p, dim) && RewindOk(w.rewind) && PendingInRange(w.rewind)
    && PatchSynced(w.patch, w.h, p, dim) && PatchOk(w.patch)
    && (w.rewindAsk.Some? ==> AskOk(w.rewindAsk.value, w.rewind.states, w.rewind.epoch, p))
    && (w.patchAsk.Some? ==> AskOk(w.patchAsk.value, w.patch.states, w.patch.epoch, p))
  }

  /** The latest query still matches the secrets in flight and was made no later than now. */
  ghost predicate AskOk(ask: Ask, states: seq<ClientState>, epoch: nat, p: CuckooParams)
    requires p.Legal()
  {
    ask.query.epoch <= epoch && QueryShape(ask.query, p) && Asks(states, ask.query, ask.digest, p)
  }

  /** A client's first step of a round: fresh secrets in flight, everything else kept. */
  ghost predicate BuildsQuery(before: seq<ClientState>, after: seq<ClientState>, epoch: nat, ask: Ask, p: CuckooParams)
    requires p.Legal()
  {
    && SameButInFlight(before, after)
    && ask.query.epoch == epoch && QueryShape(ask.query, p) && Asks(after, ask.query, ask.digest, p)
  }

  ghost predicate Appends(h: History, h': History, v: Version, p: CuckooParams, dim: nat)
    requires p.Legal() && HistoryOk(h, p, dim)
  {
    && h' == h + [v] && VersionOk(v, p, dim)
    && (v.committed ==> v.matrices == h[|h| - 1].matrices)
  }

  /** One step.  Deltas are genuine but may be any the server ever issued, setup bundles those of any
      version. */
  ghost predicate Step(w: World, e: Event, w': World, p: CuckooParams, dim: nat)
    requires Served(p) && WorldOk(w, p, dim)
  {
    match e
    case Commit(v) => v.committed && Appends(w.h, w'.h, v, p, dim) && w' == w.(h := w'.h)
    case Rebuild(v) => !v.committed && Appends(w.h, w'.h, v, p, dim) && w' == w.(h := w'.h)
    case RewindDelta(d) =>
      GenuineDelta(w.h, d, p) && w' == w.(rewind := w'.rewind) && exists r :: Accumulates(w.rewind, d, w'.rewind, r)
    case RewindSetup(from) =>
      from < |w.h| && w' == w.(rewind := RewindFromSetup(SetupOf(w.h[from], from, p, dim)), rewindAsk := None)
    case RewindResync(d, from) =>
      GenuineDelta(w.h, d, p) && d.epoch > w.rewind.epoch + 1
      && from < |w.h| && w' == w.(rewind := RewindFromSetup(SetupOf(w.h[from], from, p, dim)), rewindAsk := None)
    case RewindCollect => w' == w.(rewind := Collected(w.rewind))
    case RewindQuery(ask) =>
      BuildsQuery(w.rewind.states, w'.rewind.states, w.rewind.epoch, ask, p)
      && w' == w.(rewind := w.rewind.(states := w'.rewind.states), rewindAsk := Some(ask))
    case PatchDelta(d) =>
      GenuineDelta(w.h, d, p) && w' == w.(patch := w'.patch) && exists r :: Applies(w.patch, d, w'.patch, r)
    case PatchSetup(from) =>
      from < |w.h| && w' == w.(patch := PatchFromSetup(SetupOf(w.h[from], from, p, dim)), patchAsk := None)
    case PatchResync(d, from) =>
      GenuineDelta(w.h, d, p) && d.epoch > w.patch.epoch + 1
      && from < |w.h| && w' == w.(patch := PatchFromSetup(SetupOf(w.h[from], from, p, dim)), patchAsk := None)
    case PatchQuery(ask) =>
      BuildsQuery(w.patch.states, w'.patch.states, w.patch.epoch, ask, p)
      && w' == w.(patch := w.patch.(states := w'.patch.states), patchAsk := Some(ask))
  }

  /** The start: a freshly built server and two clients set up from it. */
  ghost predicate Init(w: World, p: CuckooParams, dim: nat)
    requires Served(p)
  {
    && |w.h| == 1 && VersionOk(w.h[0], p, dim)
    && w.rewind == RewindFromSetup(SetupOf(w.h[0], 0, p, dim)) && w.rewindAsk.None?
    && w.patch == PatchFromSetup(SetupOf(w.h[0], 0, p, dim)) && w.patchAsk.None?
  }

  ghost predicate Run(worlds: seq<World>, events: seq<Event>, p: CuckooParams, dim: nat)
    requires Served(p)
  {
    && |worlds| == |events| + 1 && Init(worlds[0], p, dim)
    && forall i :: 0 <= i < |events| ==>
         WorldOk(worlds[i], p, dim) ==> Step(worlds[i], events[i], worlds[i + 1], p, dim)
  }

  // ---------- safety ----------

  lemma {:induction false} InitSafe(w: World, p: CuckooParams, dim: nat)
    requires Served(p) && Init(w, p, dim)
    ensures WorldOk(w, p, dim)
  {
    SetupSyncs(w.h, 0, p, dim);
    SyncedIsOk(w.rewind, w.h, p, dim);
    PatchSyncedIsOk(w.patch, w.h, p, dim);
  }

  /** A longer history changes nothing for the clients. */
  lemma {:induction false} AppendSafe(w: World, v: Version, w': World, p: CuckooParams, dim: nat)
    requires Served(p) && WorldOk(w, p, dim) && Appends(w.h, w'.h, v, p, dim) && w' == w.(h := w'.h)
    ensures WorldOk(w', p, dim)
  {
    var h, h' := w.h, w'.h;
    forall e | 1 <= e < |h'| && h'[e].committed ensures h'[e].matrices == h'[e - 1].matrices {
    }
  }

  lemma {:induction false} RewindDeltaSafe(w: World, d: HintDeltaBundle, w': World, p: CuckooParams, dim: nat)
    requires Served(p) && WorldOk(w, p, dim) && Step(w, RewindDelta(d), w', p, dim)
    ensures WorldOk(w', p, dim)
    ensures w'.rewind.epoch == (if d.epoch == w.rewind.epoch + 1 then d.epoch else w.rewind.epoch)
  {
    if d.epoch == w.rewind.epoch + 1 {
      AccumulateSyncs(w.rewind, w.h, d, p, dim);
      SyncedIsOk(w'.rewind, w'.h, p, dim);
    }
  }

  lemma {:induction false} PatchDeltaSafe(w: World, d: HintDeltaBundle, w': World, p: CuckooParams, dim: nat)
    requires Served(p) && WorldOk(w, p, dim) && Step(w, PatchDelta(d), w', p, dim)
    ensures WorldOk(w', p, dim)
    ensures w'.patch.epoch == (if d.epoch == w.patch.epoch + 1 then d.epoch else w.patch.epoch)
  {
    var r :| Applies(w.patch, d, w'.patch, r);
    if d.epoch == w.patch.epoch + 1 {
      ApplySyncs(w.patch, w.h, d, w'.patch, r, p, dim);
      PatchSyncedIsOk(w'.patch, w'.h, p, dim);
      if w.patchAsk.Some? { PatchKeepsAsks(w.patch, d, w'.patch, r, w.patchAsk.value, p); }
    }
  }

  lemma {:induction false} PatchKeepsAsks(c: PatchState, d: HintDeltaBundle, c': PatchState, r: Outcome<()>, ask: Ask,
                                          p: CuckooParams)
    requires PatchOk(c) && c.params == p && Applies(c, d, c', r) && AskOk(ask, c.states, c.epoch, p)
         && c'.epoch >= c.epoch
    ensures AskOk(ask, c'.states, c'.epoch, p)
  {
    forall j | 0 <= j < p.Arity()
      ensures SegmentAsks(c'.states[j], ask.query.queries[j], KeyRow(p, ask.digest, j), p.plaintextBits)
    {
      assert SegmentAsks(c.states[j], ask.query.queries[j], KeyRow(p, ask.digest, j), p.plaintextBits);
    }
  }

  lemma {:induction false} CollectSafe(w: World, w': World, p: CuckooParams, dim: nat)
    requires Served(p) && WorldOk(w, p, dim) && w' == w.(rewind := Collected(w.rewind))
    ensures WorldOk(w', p, dim)
  {
    CollectSyncs(w.rewind, w.h, p, dim);
    SyncedIsOk(w'.rewind, w'.h, p, dim);
    if w.rewindAsk.Some? {
      var ask := w.rewindAsk.value;
      forall j | 0 <= j < p.Arity()
        ensures SegmentAsks(w'.rewind.states[j], ask.query.queries[j], KeyRow(p, ask.digest, j), p.plaintextBits)
      {
        assert SegmentAsks(w.rewind.states[j], ask.query.queries[j], KeyRow(p, ask.digest, j), p.plaintextBits);
      }
    }
  }

  lemma {:induction false} SetupSafe(w: World, from: nat, p: CuckooParams, dim: nat)
    requires Served(p) && WorldOk(w, p, dim) && from < |w.h|
    ensures WorldOk(w.(rewind := RewindFromSetup(SetupOf(w.h[from], from, p, dim)), rewindAsk := None), p, dim)
    ensures WorldOk(w.(patch := PatchFromSetup(SetupOf(w.h[from], from, p, dim)), patchAsk := None), p, dim)
  {
    SetupSyncs(w.h, from, p, dim);
    SyncedIsOk(RewindFromSetup(SetupOf(w.h[from], from, p, dim)), w.h, p, dim);
    PatchSyncedIsOk(PatchFromSetup(SetupOf(w.h[from], from, p, dim)), w.h, p, dim);
  }

  lemma {:induction false} RewindQuerySafe(w: World, ask: Ask, w': World, p: CuckooParams, dim: nat)
    requires Served(p) && WorldOk(w, p, dim) && Step(w, RewindQuery(ask), w', p, dim)
    ensures WorldOk(w', p, dim)
  {
    var c, c', h := w.rewind, w'.rewind, w.h;
    forall j | 0 <= j < p.Arity()
      ensures SegmentPinned(c'.states[j], c'.pending[j], h[c.epoch].matrices[j], h[c.pinEpoch].db[j], h[c.epoch].db[j],
                            p, dim)
    {
      assert SegmentPinned(c.states[j], c.pending[j], h[c.epoch].matrices[j], h[c.pinEpoch].db[j], h[c.epoch].db[j], p,
                           dim);
      assert SegmentAsks(c'.states[j], ask.query.queries[j], KeyRow(p, ask.digest, j), p.plaintextBits);
    }
    SyncedIsOk(c', h, p, dim);
  }

  lemma {:induction false} PatchQuerySafe(w: World, ask: Ask, w': World, p: CuckooParams, dim: nat)
    requires Served(p) && WorldOk(w, p, dim) && Step(w, PatchQuery(ask), w', p, dim)
    ensures WorldOk(w', p, dim)
  {
    var c, c', h := w.patch, w'.patch, w.h;
    forall j | 0 <= j < p.Arity()
      ensures SegmentPatched(c'.states[j], h[c.epoch].matrices[j], h[c.epoch].db[j], p, dim)
    {
      assert SegmentPatched(c.states[j], h[c.epoch].matrices[j], h[c.epoch].db[j], p, dim);
      assert SegmentAsks(c'.states[j], ask.query.queries[j], KeyRow(p, ask.digest, j), p.plaintextBits);
    }
    PatchSyncedIsOk(c', h, p, dim);
  }

  lemma {:induction false} StepSafe(w: World, e: Event, w': World, p: CuckooParams, dim: nat)
    requires Served(p) && WorldOk(w, p, dim) && Step(w, e, w', p, dim)
    ensures WorldOk(w', p, dim)
  {
    match e {
      case Commit(v) => AppendSafe(w, v, w', p, dim);
      case Rebuild(v) => AppendSafe(w, v, w', p, dim);
      case RewindDelta(d) => RewindDeltaSafe(w, d, w', p, dim);
      case RewindSetup(from) => SetupSafe(w, from, p, dim);
      case RewindResync(d, from) => SetupSafe(w, from, p, dim);
      case RewindCollect => CollectSafe(w, w', p, dim);
      case RewindQuery(ask) => RewindQuerySafe(w, ask, w', p, dim);
      case PatchDelta(d) => PatchDeltaSafe(w, d, w', p, dim);
      case PatchSetup(from) => SetupSafe(w, from, p, dim);
      case PatchResync(d, from) => SetupSafe(w, from, p, dim);
      case PatchQuery(ask) => PatchQuerySafe(w, ask, w', p, dim);
    }
  }

  /** In every run, at every moment: the rewind client's hint is that of its pinned cells and its
      pending edits lead to the cells of its epoch; the patching client's hint is that of the cells of
      its epoch; and each latest query matches the secrets in flight. */
  lemma {:induction false} RunSafe(worlds: seq<World>, events: seq<Event>, p: CuckooParams, dim: nat, i: nat)
    requires Served(p) && Run(worlds, events, p, dim) && i < |worlds|
    ensures WorldOk(worlds[i], p, dim)
  {
    if i == 0 {
      InitSafe(worlds[0], p, dim);
    } else {
      RunSafe(worlds, events, p, dim, i - 1);
      StepSafe(worlds[i - 1], events[i - 1], worlds[i], p, dim);
    }
  }

  // ---------- duplicates ----------

  /** A delta a client has passed, delivered to it again. */
  predicate IsDuplicate(w: World, e: Event) {
    || (e.RewindDelta? && e.delta.epoch <= w.rewind.epoch)
    || (e.PatchDelta? && e.delta.epoch <= w.patch.epoch)
  }

  /** Such a delivery changes nothing, and can never be taken for a gap that calls for a resync. */
  lemma {:induction false} DuplicateHarmless(w: World, e: Event, w': World, p: CuckooParams, dim: nat)
    requires Served(p) && WorldOk(w, p, dim) && Step(w, e, w', p, dim)
    ensures IsDuplicate(w, e) ==> w' == w
    ensures e.RewindResync? ==> e.delta.epoch > w.rewind.epoch + 1
    ensures e.PatchResync? ==> e.delta.epoch > w.patch.epoch + 1
  {
  }

  /** In every run, a stretch of duplicates, however long, leaves the world as it was. */
  lemma {:induction false} DuplicatesHarmless(worlds: seq<World>, events: seq<Event>, p: CuckooParams, dim: nat,
                                              i: nat, k: nat)
    requires Served(p) && Run(worlds, events, p, dim) && i <= k < |worlds|
    requires forall n :: i <= n < k ==> IsDuplicate(worlds[i], events[n])
    ensures worlds[k] == worlds[i]
    decreases k
  {
    if i < k {
      DuplicatesHarmless(worlds, events, p, dim, i, k - 1);
      RunSafe(worlds, events, p, dim, k - 1);
      DuplicateHarmless(worlds[k - 1], events[k - 1], worlds[k], p, dim);
    }
  }

  // ---------- deltas on the wire ----------

  /** Every delta the server issues is one the wire encoder accepts, and decoding what was encoded
      delivers exactly it. */
  lemma {:induction false} GenuineDeltaTravels(h: History, d: HintDeltaBundle, p: CuckooParams)
    requires Served(p) && GenuineDelta(h, d, p) && d.epoch < Pow2(64)
    ensures DecodeBits(Padded(BundleBits(d)), p) == Success(d)
  {
    WireTheorems.RoundTrip(d);
  }

  // ---------- rebuilds ----------

  /** Without a reset a client only ever moves to the next epoch, and only to a committed one. */
  lemma {:induction false} NoStepCrossesRebuild(w: World, e: Event, w': World, p: CuckooParams, dim: nat, epoch: nat)
    requires Served(p) && WorldOk(w, p, dim) && Step(w, e, w', p, dim)
    requires epoch < |w.h| && !w.h[epoch].committed
    ensures epoch < |w'.h| && !w'.h[epoch].committed
    ensures !ResetsRewind(e) && w.rewind.epoch < epoch ==> w'.rewind.epoch < epoch
    ensures !ResetsPatch(e) && w.patch.epoch < epoch ==> w'.patch.epoch < epoch
  {
    match e {
      case RewindDelta(d) => RewindDeltaSafe(w, d, w', p, dim);
      case PatchDelta(d) => PatchDeltaSafe(w, d, w', p, dim);
      case _ =>
    }
  }

  /** In every run, a client that is behind a rebuild stays behind it until it is reset. */
  lemma {:induction false} NoClientCrossesRebuild(worlds: seq<World>, events: seq<Event>, p: CuckooParams, dim: nat,
                                                  i: nat, k: nat, epoch: nat)
    requires Served(p) && Run(worlds, events, p, dim) && i <= k < |worlds|
    requires epoch < |worlds[i].h| && !worlds[i].h[epoch].committed
    ensures epoch < |worlds[k].h| && !worlds[k].h[epoch].committed
    ensures worlds[i].rewind.epoch < epoch && (forall n :: i <= n < k ==> !ResetsRewind(events[n])) ==>
         worlds[k].rewind.epoch < epoch
    ensures worlds[i].patch.epoch < epoch && (forall n :: i <= n < k ==> !ResetsPatch(events[n])) ==>
         worlds[k].patch.epoch < epoch
    decreases k
  {
    if i < k {
      NoClientCrossesRebuild(worlds, events, p, dim, i, k - 1, epoch);
      RunSafe(worlds, events, p, dim, k - 1);
      NoStepCrossesRebuild(worlds[k - 1], events[k - 1], worlds[k], p, dim, epoch);
    }
  }

  // ---------- decoding ----------

  /** The server's answer to a query: it answers only queries of its current epoch. */
  ghost function ServerAnswer(w: World, ask: Ask, p: CuckooParams, dim: nat): PirResponseBundle
    requires Served(p) && WorldOk(w, p, dim) && ask.query.epoch < |w.h| && QueryShape(ask.query, p)
  {
    AnswerOf(w.h[ask.query.epoch], ask.query, p, dim)
  }

  /** The rows of the version the query was made for that can hold its key. */
  ghost function RowsAsked(w: World, ask: Ask, p: CuckooParams, dim: nat): seq<seq<nat>>
    requires Served(p) && WorldOk(w, p, dim) && ask.query.epoch < |w.h|
  {
    CandidateRows(w.h[ask.query.epoch], ask.digest, p, dim)
  }

  /** Whatever the rewind client may return for the server's answer to its latest query. */
  ghost predicate RewindMayReturn(w: World, c: RewindState, r: Outcome<Option<seq<Byte>>>, p: CuckooParams, dim: nat)
    requires Served(p) && w.rewindAsk.Some?
  {
    var ask := w.rewindAsk.value;
    WorldOk(w, p, dim) && CanDecode(c, ask.query, ServerAnswer(w, ask, p, dim)) ==>
      RewindDecodes(c, ask.digest, ask.query, ServerAnswer(w, ask, p, dim), r)
  }

  /** Whatever the hint-patching client may return for the server's answer to its latest query. */
  ghost predicate PatchMayReturn(w: World, r: Outcome<Option<seq<Byte>>>, p: CuckooParams, dim: nat)
    requires Served(p) && w.patchAsk.Some?
  {
    var ask := w.patchAsk.value;
    WorldOk(w, p, dim) && PatchCanDecode(w.patch, ServerAnswer(w, ask, p, dim)) ==>
      PatchDecodes(w.patch, ask.digest, ServerAnswer(w, ask, p, dim), r)
  }

  /** The look-up in the cells of the query's epoch, if that is still the client's, else a mismatch. */
  ghost predicate IsOutcome(w: World, ask: Ask, epoch: nat, r: Outcome<Option<seq<Byte>>>, p: CuckooParams, dim: nat)
    requires Served(p) && WorldOk(w, p, dim) && ask.query.epoch < |w.h|
  {
    if ask.query.epoch == epoch then
      r.Done? && RowsOk(RowsAsked(w, ask, p, dim), p)
      && IsLookup(r.value, RowsAsked(w, ask, p, dim), KeyFingerprint(p, ask.digest), p)
    else r == Failed(EpochMismatch(epoch, ask.query.epoch))
  }

  /** In every run, whenever the rewind client decodes the answer to its latest query, it gets the
      look-up in the cells the server served at that epoch, and never another error; if it has moved
      on since, it gets an epoch mismatch.  Garbage may be collected at any point in between. */
  lemma {:induction false} RewindEndToEnd(worlds: seq<World>, events: seq<Event>, p: CuckooParams, dim: nat, i: nat,
                                          r: Outcome<Option<seq<Byte>>>)
    requires Served(p) && Run(worlds, events, p, dim) && i < |worlds|
    requires NoiseBounded(p.SegmentSize(), p.plaintextBits)
    requires worlds[i].rewindAsk.Some? && RewindMayReturn(worlds[i], worlds[i].rewind, r, p, dim)
    ensures WorldOk(worlds[i], p, dim)
    ensures IsOutcome(worlds[i], worlds[i].rewindAsk.value, worlds[i].rewind.epoch, r, p, dim)
  {
    RunSafe(worlds, events, p, dim, i);
    RewindOutcome(worlds[i], worlds[i].rewind, r, p, dim);
  }

  /** In one state, for the client itself or any other in step at the same epoch with the same secrets. */
  lemma {:induction false} RewindOutcome(w: World, c: RewindState, r: Outcome<Option<seq<Byte>>>, p: CuckooParams,
                                         dim: nat)
    requires Served(p) && WorldOk(w, p, dim) && NoiseBounded(p.SegmentSize(), p.plaintextBits)
    requires w.rewindAsk.Some? && RewindMayReturn(w, c, r, p, dim)
    requires RewindSynced(c, w.h, p, dim) && AskOk(w.rewindAsk.value, c.states, c.epoch, p)
    ensures IsOutcome(w, w.rewindAsk.value, c.epoch, r, p, dim)
  {
    var ask := w.rewindAsk.value;
    CanDecodeAnswer(c, w.h, ask.query, ask.digest, ask.query.epoch, p, dim);
    hide WorldOk, RewindSynced, CanDecode, OnePerSegment, AreHeadRows, FirstFailure, IsLookup, Asks, QueryShape,
         HistoryOk;
    if ask.query.epoch == c.epoch { RewindDecodesCurrent(c, w.h, ask.query, ask.digest, p, dim, r); }
  }

  /** The same for the hint-patching client. */
  lemma {:induction false} PatchEndToEnd(worlds: seq<World>, events: seq<Event>, p: CuckooParams, dim: nat, i: nat,
                                         r: Outcome<Option<seq<Byte>>>)
    requires Served(p) && Run(worlds, events, p, dim) && i < |worlds|
    requires NoiseBounded(p.SegmentSize(), p.plaintextBits)
    requires worlds[i].patchAsk.Some? && PatchMayReturn(worlds[i], r, p, dim)
    ensures WorldOk(worlds[i], p, dim)
    ensures IsOutcome(worlds[i], worlds[i].patchAsk.value, worlds[i].patch.epoch, r, p, dim)
  {
    RunSafe(worlds, events, p, dim, i);
    var w, ask := worlds[i], worlds[i].patchAsk.value;
    PatchCanDecodeAnswer(w.patch, w.h, ask.query, ask.digest, ask.query.epoch, p, dim);
    hide PatchCanDecode, FullWidth, AreDecodedRows, IsLookup, Asks, QueryShape;
    if ask.query.epoch == w.patch.epoch { PatchDecodesCurrent(w.patch, w.h, ask.query, ask.digest, p, dim, r); }
  }

  /** Asked for the same key at the same epoch, both clients return the same result. */
  lemma {:induction false} ClientsAgree(worlds: seq<World>, events: seq<Event>, p: CuckooParams, dim: nat, i: nat,
                                        r: Outcome<Option<seq<Byte>>>, r': Outcome<Option<seq<Byte>>>)
    requires Served(p) && Run(worlds, events, p, dim) && i < |worlds|
    requires NoiseBounded(p.SegmentSize(), p.plaintextBits)
    requires worlds[i].rewindAsk.Some? && worlds[i].patchAsk.Some?
    requires var w := worlds[i];
             w.rewindAsk.value.digest == w.patchAsk.value.digest
             && w.rewind.epoch == w.patch.epoch == w.rewindAsk.value.query.epoch == w.patchAsk.value.query.epoch
    requires RewindMayReturn(worlds[i], worlds[i].rewind, r, p, dim) && PatchMayReturn(worlds[i], r', p, dim)
    ensures r == r'
  {
    var w := worlds[i];
    RewindEndToEnd(worlds, events, p, dim, i, r);
    PatchEndToEnd(worlds, events, p, dim, i, r');
    LookupUnique(r.value, r'.value, RowsAsked(w, w.rewindAsk.value, p, dim),
                 KeyFingerprint(p, w.rewindAsk.value.digest), p);
  }

  /** Collecting garbage changes no later decode: in every run, with the same query and answer, the
      client that collects first and the one that does not return the same result. */
  lemma {:induction false} CollectInvisible(worlds: seq<World>, events: seq<Event>, p: CuckooParams, dim: nat, i: nat,
                                            r: Outcome<Option<seq<Byte>>>, r': Outcome<Option<seq<Byte>>>)
    requires Served(p) && Run(worlds, events, p, dim) && i < |worlds|
    requires NoiseBounded(p.SegmentSize(), p.plaintextBits)
    requires worlds[i].rewindAsk.Some? && RewindMayReturn(worlds[i], worlds[i].rewind, r, p, dim)
    requires RewindOk(worlds[i].rewind) ==> RewindMayReturn(worlds[i], Collected(worlds[i].rewind), r', p, dim)
    ensures r == r'
  {
    RunSafe(worlds, events, p, dim, i);
    var w, c := worlds[i], worlds[i].rewind;
    var ask := w.rewindAsk.value;
    CollectSafe(w, w.(rewind := Collected(c)), p, dim);
    CollectSyncs(c, w.h, p, dim);
    RewindOutcome(w, c, r, p, dim);
    RewindOutcome(w, Collected(c), r', p, dim);
    if ask.query.epoch == c.epoch {
      LookupUnique(r.value, r'.value, RowsAsked(w, ask, p, dim), KeyFingerprint(p, ask.digest), p);
    }
  }
}
