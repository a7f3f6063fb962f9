/** What keeps a client in step with the server, and why decoding then returns the server's cells. */
module ClientSync {
  import opened Words
  import opened Geometry
  import opened WireFormat
  import opened LinearAlgebra
  import opened Lwe
  import opened Fields
  import opened Lookup
  import opened Deltas
  import opened Messages
  import opened ClientSpec

  // ---------- the synchronisation invariants ----------

  /** One segment of a rewind client: the hint is that of the pinned cells, and what is pending leads
      from the pinned cells to the current ones. */
  ghost predicate SegmentPinned(s: ClientState, m: DeltaMap, a: Matrix, pinned: Matrix, head: Matrix, p: CuckooParams,
                                dim: nat)
    requires p.Legal() && Shape(a, |pinned|, dim) && Shape(pinned, |pinned|, p.RowWidth())
  {
    && s.params == SegmentParams(a, p, dim)
    && s.hint == HintOf(a, pinned, dim, p.RowWidth())
    && (s.inFlight.Some? ==> |s.inFlight.value| == dim)
    && IsPending(m, pinned, head)
  }

  /** A rewind client at some epoch of the history, pinned at an earlier one with no rebuild between. */
  ghost predicate RewindSynced(c: RewindState, h: History, p: CuckooParams, dim: nat)
    requires Served(p) && HistoryOk(h, p, dim)
  {
    && c.params == p && |c.states| == |c.pending| == p.Arity()
    && c.pinEpoch <= c.epoch < |h|
    && (forall e :: c.pinEpoch < e <= c.epoch ==> h[e].committed)
    && h[c.pinEpoch].matrices == h[c.epoch].matrices
    && forall j :: 0 <= j < p.Arity() ==>
         VersionOk(h[c.epoch], p, dim) && VersionOk(h[c.pinEpoch], p, dim)
         && SegmentPinned(c.states[j], c.pending[j], h[c.epoch].matrices[j], h[c.pinEpoch].db[j], h[c.epoch].db[j], p,
                          dim)
  }

  /** One segment of a hint-patching client: the hint is that of the current cells. */
  ghost predicate SegmentPatched(s: ClientState, a: Matrix, head: Matrix, p: CuckooParams, dim: nat)
    requires p.Legal() && Shape(a, |head|, dim) && Shape(head, |head|, p.RowWidth())
  {
    && s.params == SegmentParams(a, p, dim)
    && s.hint == HintOf(a, head, dim, p.RowWidth())
    && (s.inFlight.Some? ==> |s.inFlight.value| == dim)
  }

  ghost predicate PatchSynced(c: PatchState, h: History, p: CuckooParams, dim: nat)
    requires Served(p) && HistoryOk(h, p, dim)
  {
    && c.params == p && |c.states| == p.Arity() && c.epoch < |h|
    && VersionOk(h[c.epoch], p, dim)
    && forall j :: 0 <= j < p.Arity() ==> SegmentPatched(c.states[j], h[c.epoch].matrices[j], h[c.epoch].db[j], p, dim)
  }

  lemma {:induction false} PinnedOk(s: ClientState, m: DeltaMap, a: Matrix, pinned: Matrix, head: Matrix,
                                    p: CuckooParams, dim: nat)
    requires p.Legal() && Shape(a, p.SegmentSize(), dim)
    requires Shape(pinned, p.SegmentSize(), p.RowWidth()) && Shape(head, p.SegmentSize(), p.RowWidth())
    requires SegmentPinned(s, m, a, pinned, head, p, dim)
    ensures StateOk(s, p) && ZeroFree(m) && MapInRange(m, p)
  {
    forall k | k in m ensures k.0 < p.SegmentSize() && k.1 < p.RowWidth() {
      assert MapAt(m, k.0, k.1) == CellChange(pinned, head, k.0, k.1);
    }
  }

  lemma {:induction false} SyncedIsOk(c: RewindState, h: History, p: CuckooParams, dim: nat)
    requires Served(p) && HistoryOk(h, p, dim) && RewindSynced(c, h, p, dim)
    ensures RewindOk(c) && PendingInRange(c)
  {
    forall j | 0 <= j < p.Arity()
      ensures StateOk(c.states[j], p) && ZeroFree(c.pending[j]) && MapInRange(c.pending[j], p)
    {
      PinnedOk(c.states[j], c.pending[j], h[c.epoch].matrices[j], h[c.pinEpoch].db[j], h[c.epoch].db[j], p, dim);
    }
  }

  lemma {:induction false} PatchSyncedIsOk(c: PatchState, h: History, p: CuckooParams, dim: nat)
    requires Served(p) && HistoryOk(h, p, dim) && PatchSynced(c, h, p, dim)
    ensures PatchOk(c)
  {
    forall j | 0 <= j < p.Arity() ensures StateOk(c.states[j], p) {
      assert SegmentPatched(c.states[j], h[c.epoch].matrices[j], h[c.epoch].db[j], p, dim);
    }
  }

  // ---------- setup ----------

  lemma {:induction false} NothingPending(db: Matrix)
    ensures IsPending(map[], db, db)
  {
  }

  /** A client built from any version's setup bundle is in step with that version. */
  lemma {:induction false} SetupSyncs(h: History, e: nat, p: CuckooParams, dim: nat)
    requires Served(p) && HistoryOk(h, p, dim) && e < |h|
    ensures RewindSynced(RewindFromSetup(SetupOf(h[e], e, p, dim)), h, p, dim)
    ensures PatchSynced(PatchFromSetup(SetupOf(h[e], e, p, dim)), h, p, dim)
  {
    var c := RewindFromSetup(SetupOf(h[e], e, p, dim));
    forall j | 0 <= j < p.Arity()
      ensures SegmentPinned(c.states[j], c.pending[j], h[e].matrices[j], h[e].db[j], h[e].db[j], p, dim)
    {
      NothingPending(h[e].db[j]);
    }
  }

  // ---------- taking deltas ----------

  /** A genuine delta for the next epoch is always taken, and keeps the rewind client in step. */
  lemma {:induction false} AccumulateSyncs(c: RewindState, h: History, d: HintDeltaBundle, p: CuckooParams, dim: nat)
    requires Served(p) && HistoryOk(h, p, dim) && RewindSynced(c, h, p, dim)
    requires GenuineDelta(h, d, p) && d.epoch == c.epoch + 1
    ensures DeltaError(c.params, c.epoch, d).None? && MergesFit(c.pending, d.perSegmentRowDeltas)
    ensures RewindSynced(c.(pending := MergeAll(c.pending, d.perSegmentRowDeltas), epoch := d.epoch), h, p, dim)
  {
    var c' := c.(pending := MergeAll(c.pending, d.perSegmentRowDeltas), epoch := d.epoch);
    assert h[d.epoch].matrices == h[c.epoch].matrices;
    forall j | 0 <= j < p.Arity()
      ensures MergeRows(c.pending[j], d.perSegmentRowDeltas[j]).1
      ensures SegmentPinned(c'.states[j], c'.pending[j], h[c'.epoch].matrices[j], h[c'.pinEpoch].db[j],
                            h[c'.epoch].db[j], p, dim)
    {
      assert SegmentPinned(c.states[j], c.pending[j], h[c.epoch].matrices[j], h[c.pinEpoch].db[j], h[c.epoch].db[j], p,
                           dim);
      PendingGrows(c.pending[j], d.perSegmentRowDeltas[j], h[c.pinEpoch].db[j], h[c.epoch].db[j], h[d.epoch].db[j], p);
    }
  }

  /** Applying a genuine delta to the hint keeps the hint-patching client in step. */
  lemma {:induction false} ApplySyncs(c: PatchState, h: History, d: HintDeltaBundle, c': PatchState, r: Outcome<()>,
                                      p: CuckooParams, dim: nat)
    requires Served(p) && HistoryOk(h, p, dim) && PatchSynced(c, h, p, dim) && PatchOk(c)
    requires GenuineDelta(h, d, p) && d.epoch == c.epoch + 1 && Applies(c, d, c', r)
    ensures r.Done? && PatchSynced(c', h, p, dim)
  {
    assert h[d.epoch].matrices == h[c.epoch].matrices;
    forall j | 0 <= j < p.Arity()
      ensures SegmentPatched(c'.states[j], h[d.epoch].matrices[j], h[d.epoch].db[j], p, dim)
    {
      PatchOneSegment(c.states[j], d.perSegmentRowDeltas[j], h[c.epoch].matrices[j], h[c.epoch].db[j], h[d.epoch].db[j],
                      p, dim);
    }
  }

  lemma {:induction false} PatchOneSegment(s: ClientState, rows: SegmentRowDeltas, a: Matrix, db0: Matrix, db1: Matrix,
                                           p: CuckooParams, dim: nat)
    requires p.Legal() && Shape(a, p.SegmentSize(), dim)
    requires Shape(db0, p.SegmentSize(), p.RowWidth()) && Shape(db1, p.SegmentSize(), p.RowWidth())
    requires StateOk(s, p) && SegmentPatched(s, a, db0, p, dim) && IsDelta(rows, db0, db1, p)
    ensures SegmentPatched(PatchSegment(s, rows, p), a, db1, p, dim)
  {
    if rows == [] {
      SameCells(db0, db1, p.SegmentSize(), p.RowWidth(), rows);
    } else {
      DeltaIsDiff(rows, db0, db1, p);
      PatchFollows(a, db0, db1, dim, p.RowWidth());
    }
  }

  /** No edits, no change. */
  lemma {:induction false} SameCells(db0: Matrix, db1: Matrix, n: nat, w: nat, rows: SegmentRowDeltas)
    requires Shape(db0, n, w) && Shape(db1, n, w) && rows == []
    requires forall row: nat, off: nat :: RowsAt(rows, row, off) == CellChange(db0, db1, row, off)
    ensures db0 == db1
  {
    forall i | 0 <= i < n ensures db0[i] == db1[i] {
      forall j | 0 <= j < w ensures db0[i][j] == db1[i][j] { assert RowsAt(rows, i, j) == CellChange(db0, db1, i, j); }
    }
  }

  // ---------- garbage collection ----------

  /** Collecting garbage moves the pin to the current version. */
  lemma {:induction false} CollectSyncs(c: RewindState, h: History, p: CuckooParams, dim: nat)
    requires Served(p) && HistoryOk(h, p, dim) && RewindSynced(c, h, p, dim) && RewindOk(c)
    ensures RewindSynced(Collected(c), h, p, dim)
    ensures Collected(c).pinEpoch == Collected(c).epoch == c.epoch
  {
    var c' := Collected(c);
    if c.pinEpoch != c.epoch {
      forall j | 0 <= j < p.Arity()
        ensures SegmentPinned(c'.states[j], c'.pending[j], h[c.epoch].matrices[j], h[c.epoch].db[j], h[c.epoch].db[j],
                              p, dim)
      {
        CollectOneSegment(c.states[j], c.pending[j], h[c.epoch].matrices[j], h[c.pinEpoch].db[j], h[c.epoch].db[j], p,
                          dim);
      }
    }
  }

  lemma {:induction false} CollectOneSegment(s: ClientState, m: DeltaMap, a: Matrix, db0: Matrix, db1: Matrix,
                                             p: CuckooParams, dim: nat)
    requires p.Legal() && Shape(a, p.SegmentSize(), dim)
    requires Shape(db0, p.SegmentSize(), p.RowWidth()) && Shape(db1, p.SegmentSize(), p.RowWidth())
    requires StateOk(s, p) && SegmentPinned(s, m, a, db0, db1, p, dim)
    ensures SegmentPinned(CollectSegment(s, m, p), map[], a, db1, db1, p, dim)
  {
    NothingPending(db1);
    if m == map[] {
      forall row: nat, off: nat
        ensures RowsAt([], row, off) == CellChange(db0, db1, row, off)
      {
        assert MapAt(m, row, off) == 0;
      }
      SameCells(db0, db1, p.SegmentSize(), p.RowWidth(), []);
    } else {
      PendingIsDiff(m, db0, db1, p.SegmentSize(), p.RowWidth());
      PatchFollows(a, db0, db1, dim, p.RowWidth());
    }
  }

  /** A client pinned at its own epoch has nothing pending. */
  lemma {:induction false} PinnedAtHeadIsEmpty(c: RewindState, h: History, p: CuckooParams, dim: nat, j: nat)
    requires Served(p) && HistoryOk(h, p, dim) && RewindSynced(c, h, p, dim) && c.pinEpoch == c.epoch && j < p.Arity()
    ensures c.pending[j] == map[]
  {
    NoChange(h[c.epoch].db[j], c.pending[j]);
  }

  // ---------- decoding ----------

  /** The rows of a version that can hold a key: one candidate bucket in each segment. */
  ghost function CandidateRows(v: Version, digest: nat, p: CuckooParams, dim: nat): (r: seq<seq<nat>>)
    requires p.Legal() && VersionOk(v, p, dim)
    ensures |r| == p.Arity()
    ensures forall j :: 0 <= j < p.Arity() ==> r[j] == v.db[j][KeyRow(p, digest, j)]
  {
    seq(p.Arity(), j requires 0 <= j < p.Arity() => v.db[j][KeyRow(p, digest, j)])
  }

  lemma {:induction false} CandidateRowsOk(v: Version, digest: nat, p: CuckooParams, dim: nat)
    requires p.Legal() && VersionOk(v, p, dim)
    ensures RowsOk(CandidateRows(v, digest, p, dim), p)
  {
    var rows := CandidateRows(v, digest, p, dim);
    forall j | 0 <= j < p.Arity() ensures |rows[j]| == p.RowWidth() && Fit(rows[j], p.plaintextBits) {
      assert Shape(v.db[j], p.SegmentSize(), p.RowWidth()) && CellsFit(v.db[j], p.plaintextBits);
      var r := KeyRow(p, digest, j);
      forall i | 0 <= i < |rows[j]|
        ensures rows[j][i] < Pow2(p.plaintextBits)
      {
        assert v.db[j][r][i] < Pow2(p.plaintextBits);
      }
    }
  }

  /** One segment: rewinding to the pin, decoding there and moving the row forward gives the current row. */
  lemma {:induction false} HeadRowIsCurrent(s: ClientState, m: DeltaMap, q: seq<nat>, row: nat, a: Matrix,
                                            pinned: Matrix, head: Matrix,
                                            p: CuckooParams, dim: nat)
    requires Served(p) && Shape(a, p.SegmentSize(), dim)
    requires Shape(pinned, p.SegmentSize(), p.RowWidth()) && CellsFit(pinned, p.plaintextBits)
    requires Shape(head, p.SegmentSize(), p.RowWidth())
    requires StateOk(s, p) && SegmentPinned(s, m, a, pinned, head, p, dim)
    requires row < p.SegmentSize() && SegmentAsks(s, q, row, p.plaintextBits)
    requires NoiseBounded(p.SegmentSize(), p.plaintextBits)
    ensures |q| == p.SegmentSize()
    ensures HeadRow(s, m, q, Answer(head, q, p.RowWidth()), row, p) == head[row]
  {
    var n, w := p.SegmentSize(), p.RowWidth();
    Lwe.RewoundDecodes(s.params.a, s.inFlight.value, q, row, p.plaintextBits, pinned, head, w);
    PendingIsDiff(m, pinned, head, n, w);
    var v := HeadRow(s, m, q, Answer(head, q, w), row, p);
    var diff := Diff(pinned, head, n, w);
    assert v == Plus(pinned[row], diff[row]);
    forall j | 0 <= j < w ensures v[j] == head[row][j] {
      assert diff[row][j] == Sub(head[row][j], pinned[row][j]);
    }
  }

  lemma {:induction false} AnswersAreWords(v: Version, q: PirQueryBundle, p: CuckooParams, dim: nat)
    requires p.Legal() && VersionOk(v, p, dim) && QueryShape(q, p)
    ensures AreResponses(AnswerOf(v, q, p, dim)) && FullWidth(AnswerOf(v, q, p, dim), p)
  {
    var resp := AnswerOf(v, q, p, dim);
    forall j, i | 0 <= j < |resp.responses| && 0 <= i < |resp.responses[j]| ensures resp.responses[j][i] < U32 {
      assert resp.responses[j] == Answer(v.db[j], q.queries[j], p.RowWidth());
    }
  }

  /** A client in step can decode the answer of any version to its latest query. */
  lemma {:induction false} CanDecodeAnswer(c: RewindState, h: History, q: PirQueryBundle, digest: nat, e: nat,
                                           p: CuckooParams, dim: nat)
    requires Served(p) && HistoryOk(h, p, dim) && RewindSynced(c, h, p, dim) && e < |h|
    requires Asks(c.states, q, digest, p) && QueryShape(q, p)
    ensures RewindOk(c) && CanDecode(c, q, AnswerOf(h[e], q, p, dim))
  {
    SyncedIsOk(c, h, p, dim);
    AnswersAreWords(h[e], q, p, dim);
    hide AnswerOf, KeyRow, Shape;
    forall j | 0 <= j < p.Arity() ensures c.states[j].inFlight.Some? {
      assert SegmentAsks(c.states[j], q.queries[j], KeyRow(p, digest, j), p.plaintextBits);
    }
  }

  /** The rewind client's corrected rows are the server's current candidate rows. */
  lemma {:induction false} HeadRowsAreCandidates(c: RewindState, h: History, q: PirQueryBundle, digest: nat,
                                                 p: CuckooParams, dim: nat)
    requires Served(p) && HistoryOk(h, p, dim) && RewindSynced(c, h, p, dim)
    requires Asks(c.states, q, digest, p) && QueryShape(q, p) && q.epoch == c.epoch
    requires NoiseBounded(p.SegmentSize(), p.plaintextBits)
    ensures CanDecode(c, q, AnswerOf(h[c.epoch], q, p, dim))
    ensures AreHeadRows(CandidateRows(h[c.epoch], digest, p, dim), c, digest, q, AnswerOf(h[c.epoch], q, p, dim))
  {
    var v, resp := h[c.epoch], AnswerOf(h[c.epoch], q, p, dim);
    CanDecodeAnswer(c, h, q, digest, c.epoch, p, dim);
    CandidateRowsOk(v, digest, p, dim);
    var rows := CandidateRows(v, digest, p, dim);
    hide CanDecode, RowsOk, HeadRowOf, AnswerOf, CandidateRows;
    forall j | 0 <= j < p.Arity()
      ensures |resp.responses[j]| == p.RowWidth() && rows[j] == HeadRowOf(c, digest, q, resp, j)
    {
      SegmentIsCurrent(c, h, q, digest, p, dim, j);
    }
  }

  lemma {:induction false} SegmentIsCurrent(c: RewindState, h: History, q: PirQueryBundle, digest: nat, p: CuckooParams,
                                            dim: nat, j: nat)
    requires Served(p) && HistoryOk(h, p, dim) && RewindSynced(c, h, p, dim)
    requires Asks(c.states, q, digest, p) && QueryShape(q, p) && q.epoch == c.epoch
    requires NoiseBounded(p.SegmentSize(), p.plaintextBits) && j < p.Arity()
    requires CanDecode(c, q, AnswerOf(h[c.epoch], q, p, dim))
    ensures HeadRowOf(c, digest, q, AnswerOf(h[c.epoch], q, p, dim), j) == CandidateRows(h[c.epoch], digest, p, dim)[j]
  {
    var v := h[c.epoch];
    assert SegmentAsks(c.states[j], q.queries[j], KeyRow(p, digest, j), p.plaintextBits);
    HeadRowIsCurrent(c.states[j], c.pending[j], q.queries[j], KeyRow(p, digest, j), v.matrices[j], h[c.pinEpoch].db[j],
                     v.db[j], p, dim);
  }

  /** The rewind client's decoding of the server's answer returns the look-up in the server's current
      cells, never an error. */
  lemma {:induction false} RewindDecodesCurrent(c: RewindState, h: History, q: PirQueryBundle, digest: nat,
                                                p: CuckooParams, dim: nat,
                                                r: Outcome<Option<seq<Byte>>>)
    requires Served(p) && HistoryOk(h, p, dim) && RewindSynced(c, h, p, dim)
    requires Asks(c.states, q, digest, p) && QueryShape(q, p) && q.epoch == c.epoch
    requires NoiseBounded(p.SegmentSize(), p.plaintextBits)
    requires var resp := AnswerOf(h[c.epoch], q, p, dim);
             CanDecode(c, q, resp) ==> ClientSpec.RewindDecodes(c, digest, q, resp, r)
    ensures r.Done? && RowsOk(CandidateRows(h[c.epoch], digest, p, dim), p)
            && IsLookup(r.value, CandidateRows(h[c.epoch], digest, p, dim), KeyFingerprint(p, digest), p)
  {
    var resp, rows := AnswerOf(h[c.epoch], q, p, dim), CandidateRows(h[c.epoch], digest, p, dim);
    HeadRowsAreCandidates(c, h, q, digest, p, dim);
    assert OnePerSegment(c, q, resp) && resp.epoch == c.epoch == q.epoch;
    hide HeadRowOf, KeyRow, IsLookup, AnswerOf, KeyFingerprint, AreHeadRows, CanDecode, FirstFailure;
    if r.Done? {
      var rows' :| AreHeadRows(rows', c, digest, q, resp) && IsLookup(r.value, rows', KeyFingerprint(p, digest), p);
      HeadRowsUnique(rows, rows', c, digest, q, resp);
    } else {
      var j :| FirstFailure(r.error, c, digest, q, resp, j);
      NoFailure(rows, c, digest, q, resp, r.error, j);
    }
  }

  /** Corrected rows in range leave no segment to fail. */
  lemma {:induction false} NoFailure(rows: seq<seq<nat>>, c: RewindState, digest: nat, q: PirQueryBundle,
                                     resp: PirResponseBundle,
                                     e: ClientError, j: nat)
    requires CanDecode(c, q, resp) && OnePerSegment(c, q, resp) && AreHeadRows(rows, c, digest, q, resp)
    ensures !FirstFailure(e, c, digest, q, resp, j)
  {
    hide HeadRowOf, CanDecode, KeyRow;
    if j < c.params.Arity() { assert rows[j] == HeadRowOf(c, digest, q, resp, j); }
  }

  lemma {:induction false} HeadRowsUnique(a: seq<seq<nat>>, b: seq<seq<nat>>, c: RewindState, digest: nat,
                                          q: PirQueryBundle,
                                          resp: PirResponseBundle)
    requires CanDecode(c, q, resp) && OnePerSegment(c, q, resp)
    requires AreHeadRows(a, c, digest, q, resp) && AreHeadRows(b, c, digest, q, resp)
    ensures a == b
  {
    hide HeadRowOf, CanDecode;
    forall j | 0 <= j < |a| ensures a[j] == b[j] {
    }
  }

  lemma {:induction false} PatchCanDecodeAnswer(c: PatchState, h: History, q: PirQueryBundle, digest: nat, e: nat,
                                                p: CuckooParams, dim: nat)
    requires Served(p) && HistoryOk(h, p, dim) && PatchSynced(c, h, p, dim) && e < |h|
    requires Asks(c.states, q, digest, p) && QueryShape(q, p)
    ensures PatchCanDecode(c, AnswerOf(h[e], q, p, dim)) && FullWidth(AnswerOf(h[e], q, p, dim), p)
  {
    PatchSyncedIsOk(c, h, p, dim);
    AnswersAreWords(h[e], q, p, dim);
    hide AnswerOf, KeyRow, Shape;
    forall j | 0 <= j < p.Arity() ensures c.states[j].inFlight.Some? {
      assert SegmentAsks(c.states[j], q.queries[j], KeyRow(p, digest, j), p.plaintextBits);
    }
  }

  /** The hint-patching client's decoding of the server's answer returns the same look-up. */
  lemma {:induction false} PatchDecodesCurrent(c: PatchState, h: History, q: PirQueryBundle, digest: nat,
                                               p: CuckooParams, dim: nat,
                                               r: Outcome<Option<seq<Byte>>>)
    requires Served(p) && HistoryOk(h, p, dim) && PatchSynced(c, h, p, dim)
    requires Asks(c.states, q, digest, p) && QueryShape(q, p) && q.epoch == c.epoch
    requires NoiseBounded(p.SegmentSize(), p.plaintextBits)
    requires var resp := AnswerOf(h[c.epoch], q, p, dim); PatchCanDecode(c, resp) ==> PatchDecodes(c, digest, resp, r)
    ensures r.Done? && RowsOk(CandidateRows(h[c.epoch], digest, p, dim), p)
            && IsLookup(r.value, CandidateRows(h[c.epoch], digest, p, dim), KeyFingerprint(p, digest), p)
  {
    var v, resp := h[c.epoch], AnswerOf(h[c.epoch], q, p, dim);
    PatchCanDecodeAnswer(c, h, q, digest, c.epoch, p, dim);
    CandidateRowsOk(v, digest, p, dim);
    hide IsLookup, KeyFingerprint, KeyRow;
    var rows :| AreDecodedRows(rows, c, resp) && IsLookup(r.value, rows, KeyFingerprint(p, digest), p);
    var cand := CandidateRows(v, digest, p, dim);
    forall j | 0 <= j < p.Arity() ensures rows[j] == cand[j] {
      var s, row := c.states[j], KeyRow(p, digest, j);
      assert SegmentPatched(s, v.matrices[j], v.db[j], p, dim);
      DecodeRecovers(s.params.a, s.inFlight.value, q.queries[j], row, p.plaintextBits, v.db[j], p.RowWidth());
    }
    assert rows == cand;
  }
}
