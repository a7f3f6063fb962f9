/** The client that keeps its hint pinned, accumulates public edits and rewinds responses over them. */
module RewindClient {
  import opened Words
  import opened Geometry
  import opened WireFormat
  import opened LinearAlgebra
  import opened Fields
  import opened Lookup
  import opened Deltas
  import opened Pending
  import opened Messages
  import opened ClientSpec
  import opened ClientSteps
  import opened BackendEdits

  class Client {
    var params: CuckooParams
    var states: seq<ClientState>
    var epoch: nat
    var pending: PendingDelta
    var pinEpoch: nat

    ghost function Abs(): RewindState
      reads this, pending
    {
      RewindState(params, states, pending.perSegment, epoch, pinEpoch)
    }

    ghost predicate Valid()
      reads this, pending
    {
      RewindOk(Abs()) && pending.Valid()
    }

    constructor FromSetup(bundle: ServerSetupBundle)
      requires BundleOk(bundle)
      ensures Valid() && fresh(pending) && Abs() == RewindFromSetup(bundle)
    {
      params, states, epoch, pinEpoch := bundle.params, FreshStates(bundle), bundle.epoch, bundle.epoch;
      pending := new PendingDelta(bundle.params.Arity());
      new;
      assert pending.perSegment == NoPending(params.Arity());
    }

    /** Start over from a setup bundle. */
    method ResetFrom(bundle: ServerSetupBundle)
      requires BundleOk(bundle)
      modifies this
      ensures Valid() && fresh(pending) && Abs() == RewindFromSetup(bundle)
    {
      params, states, epoch, pinEpoch := bundle.params, FreshStates(bundle), bundle.epoch, bundle.epoch;
      pending := new PendingDelta(bundle.params.Arity());
      assert pending.perSegment == NoPending(params.Arity());
    }

    method BuildQuery(digest: nat) returns (q: PirQueryBundle)
      requires Valid()
      modifies this`states
      ensures Valid() && SameButInFlight(old(states), states)
      ensures q.epoch == epoch && QueryShape(q, params) && Asks(states, q, digest, params)
    {
      states, q := BuildQueries(states, digest, epoch, params);
    }

    /** Take the delta of the next epoch. */
    method AccumulateDelta(delta: HintDeltaBundle) returns (r: Outcome<()>)
      requires Valid()
      modifies this`epoch, pending
      ensures Valid() && pending == old(pending)
      ensures delta.epoch <= old(epoch) ==>
                r == Failed(StaleDelta(old(epoch) + 1, delta.epoch)) && Abs() == old(Abs())
      ensures delta.epoch > old(epoch) + 1 ==>
                r == Failed(FutureDelta(old(epoch) + 1, delta.epoch)) && Abs() == old(Abs())
      ensures delta.epoch == old(epoch) + 1 && !SameGeometry(delta, params) ==>
                r == Failed(MalformedBundle) && Abs() == old(Abs())
      ensures delta.epoch == old(epoch) + 1 && SameGeometry(delta, params) ==>
                if MergesFit(old(pending.perSegment), delta.perSegmentRowDeltas) then
                  r == Done(()) && Abs() == old(Abs()).(pending := MergeAll(old(pending.perSegment),
                                                                            delta.perSegmentRowDeltas),
                                                        epoch := delta.epoch)
                else r == Failed(MalformedBundle) && Abs() == old(Abs()).(pending := pending.perSegment)
      ensures Accumulates(old(Abs()), delta, Abs(), r)
      ensures old(PendingInRange(Abs())) && BundleInRange(delta, params) ==> PendingInRange(Abs())
    {
      var error := DeltaError(params, epoch, delta);
      if error.Some? { return Failed(error.value); }
      var fits := pending.Merge(delta.perSegmentRowDeltas);
      if old(PendingInRange(Abs())) && BundleInRange(delta, params) {
        KeysStayInRange(delta, old(pending.perSegment), pending.perSegment);
      }
      if !fits { return Failed(MalformedBundle); }
      assert pending.perSegment == MergeAll(old(pending.perSegment), delta.perSegmentRowDeltas);
      epoch := delta.epoch;
      return Done(());
    }

    /** Edits inside their segments stay so. */
    lemma {:induction false} KeysStayInRange(delta: HintDeltaBundle, before: seq<DeltaMap>, after: seq<DeltaMap>)
      requires Served(params) && delta.params == params && BundleInRange(delta, params)
      requires |before| == |after| == |delta.perSegmentRowDeltas| == params.Arity()
      requires forall j :: 0 <= j < |before| ==> MapInRange(before[j], params)
      requires forall j, k :: 0 <= j < |after| && k in after[j] ==>
           k in before[j] || Lists(delta.perSegmentRowDeltas[j], k)
      ensures forall j :: 0 <= j < |after| ==> MapInRange(after[j], params)
    {
      forall j, k | 0 <= j < |after| && k in after[j] ensures k.0 < params.SegmentSize() && k.1 < params.RowWidth() {
        var rows := delta.perSegmentRowDeltas[j];
        if k !in before[j] {
          var i :| 0 <= i < |rows| && rows[i].row == k.0 && ListsCell(rows[i].cells, k.1);
          assert CellsInRange(rows[i].cells, params.RowWidth());
        }
      }
    }

    /** Bring the hints up to date with what is pending and pin the current epoch. */
    method CollectGarbage()
      requires Valid() && PendingInRange(Abs())
      modifies this`states, this`pinEpoch, pending
      ensures Valid() && PendingInRange(Abs()) && pending == old(pending) && Abs() == Collected(old(Abs()))
    {
      if pinEpoch == epoch { return; }
      for j := 0 to |states|
        invariant |states| == params.Arity() && StatesOk(states, params)
        invariant pending == old(pending) && pending.perSegment == old(pending.perSegment)
        invariant forall i :: 0 <= i < j ==> states[i] == CollectSegment(old(states)[i], pending.perSegment[i], params)
        invariant forall i :: j <= i < |states| ==> states[i] == old(states)[i]
      {
        var rowDeltas := pending.AsRowDeltas(j);
        SameEdits(rowDeltas, pending.perSegment[j]);
        if rowDeltas != [] {
          var s := states[j];
          var h := PatchedHint(s.hint, s.params.a, rowDeltas, EntryLevel, s.params.lweDim, params.RowWidth());
          states := states[j := s.(hint := h)];
        }
      }
      ghost var was := old(Abs());
      assert states == seq(|was.states|, j requires 0 <= j < |was.states| =>
                             CollectSegment(was.states[j], was.pending[j], was.params));
      pinEpoch := epoch;
      pending.Clear();
      assert pending.perSegment == NoPending(params.Arity());
    }

    /** The row form of a pending map edits the same cells. */
    lemma {:induction false} SameEdits(rows: SegmentRowDeltas, m: DeltaMap)
      requires params.Legal() && ZeroFree(m) && MapInRange(m, params) && Tidy(rows)
      requires forall r: nat, j: nat :: RowsAt(rows, r, j) == MapAt(m, r, j)
      ensures rows == [] <==> m == map[]
      ensures RowsInRange(rows, params.SegmentSize(), params.RowWidth())
      ensures RowsDense(rows, params.SegmentSize(), params.RowWidth())
           == MapDense(m, params.SegmentSize(), params.RowWidth())
    {
      var n, w := params.SegmentSize(), params.RowWidth();
      forall i, c | 0 <= i < |rows| && 0 <= c < |rows[i].cells| ensures (rows[i].row, rows[i].cells[c].offset) in m {
        RowsAtEntry(rows, i, rows[i].cells[c].offset);
        CellsAtEntry(rows[i].cells, c);
      }
      if rows != [] { assert (rows[0].row, rows[0].cells[0].offset) in m; }
      forall i | 0 <= i < |rows| ensures rows[i].row < n && CellsInRange(rows[i].cells, w) {
        assert TidyCells(rows[i].cells);
        assert (rows[i].row, rows[i].cells[0].offset) in m;
        forall c | 0 <= c < |rows[i].cells| ensures rows[i].cells[c].offset < w {
          assert (rows[i].row, rows[i].cells[c].offset) in m;
        }
      }
      if k :| k in m { assert RowsAt(rows, k.0, k.1) != 0; }
      forall r | 0 <= r < n ensures RowsDense(rows, n, w)[r] == MapDense(m, n, w)[r] {
      }
    }

    /** Take the delta, or start over from `fetched` when deltas in between are missing. */
    method TryAccumulateDeltaOrResync(delta: HintDeltaBundle, fetched: ServerSetupBundle)
        returns (r: Outcome<DeltaApplyOutcome>)
      requires Valid() && BundleOk(fetched)
      modifies this, pending
      ensures Valid()
      ensures r == Done(Resynced) <==> delta.epoch > old(epoch) + 1
      ensures r == Done(Resynced) ==> Abs() == RewindFromSetup(fetched)
      ensures delta.epoch <= old(epoch) ==>
                r == Failed(StaleDelta(old(epoch) + 1, delta.epoch)) && Abs() == old(Abs())
      ensures delta.epoch == old(epoch) + 1 && !SameGeometry(delta, old(params)) ==>
                r == Failed(MalformedBundle) && Abs() == old(Abs())
      ensures delta.epoch == old(epoch) + 1 && SameGeometry(delta, old(params)) ==>
                if MergesFit(old(pending.perSegment), delta.perSegmentRowDeltas) then
                  r == Done(Synced) && Abs() == old(Abs()).(pending := MergeAll(old(pending.perSegment),
                                                                                delta.perSegmentRowDeltas),
                                                            epoch := delta.epoch)
                else r == Failed(MalformedBundle) && Abs() == old(Abs()).(pending := pending.perSegment)
      ensures r == Done(Synced) ==> Accumulates(old(Abs()), delta, Abs(), Done(()))
      ensures r.Failed? ==> Accumulates(old(Abs()), delta, Abs(), Failed(r.error))
    {
      var taken := AccumulateDelta(delta);
      if taken.Done? { return Done(Synced); }
      if taken.error.FutureDelta? {
        ResetFrom(fetched);
        return Done(Resynced);
      }
      return Failed(taken.error);
    }

    /** Decode the answer to the latest query: rewind, decode at the pin, move the queried row
        forward, scan. */
    method Decode(digest: nat, query: PirQueryBundle, resp: PirResponseBundle) returns (r: Outcome<Option<seq<Byte>>>)
      requires Valid() && CanDecode(Abs(), query, resp)
      ensures ClientSpec.RewindDecodes(Abs(), digest, query, resp, r)
    {
      if resp.epoch != epoch { return Failed(EpochMismatch(epoch, resp.epoch)); }
      if query.epoch != resp.epoch { return Failed(MalformedBundle); }
      if |resp.responses| != params.Arity() || |query.queries| != params.Arity() { return Failed(MalformedBundle); }
      var ok, value, error;
      ghost var rows, bad;
      ok, value, error, rows, bad := DecodeRows(digest, query, resp, Abs());
      return if ok then Done(value) else Failed(error);
    }

    /** Correct and scan every segment's row, stopping at the first that does not decode. */
    method DecodeRows(digest: nat, query: PirQueryBundle, resp: PirResponseBundle, ghost c: RewindState)
        returns (ok: bool, value: Option<seq<Byte>>, error: ClientError, ghost rows: seq<seq<nat>>, ghost at: nat)
      requires Valid() && c == Abs() && CanDecode(c, query, resp) && OnePerSegment(c, query, resp)
      ensures ok ==>
           AreHeadRows(rows, c, digest, query, resp)
                && IsLookup(value, rows, KeyFingerprint(c.params, digest), c.params)
      ensures !ok ==> FirstFailure(error, c, digest, query, resp, at)
    {
      hide *;
      Opened(c, query, resp);
      var fp := KeyFingerprint(params, digest);
      KeyFingerprintFits(params, digest);
      rows, at := SafeRows(c, digest, query, resp), 0;
      var acc := new Byte[params.ValueSizeInBytes()](_ => 0);
      var found: nat := 0;
      NothingScanned(acc[..], rows, fp, params);
      NoneYet(c, digest, query, resp);
      for j := 0 to params.Arity()
        invariant Scanned(acc[..], found, rows, fp, params, j, 0)
        invariant FirstGood(c, digest, query, resp, j)
      {
        var bad;
        ok, found, bad := ScanSegment(digest, query, resp, j, fp, acc, found, rows, c);
        if !ok {
          FailsAt(c, digest, query, resp, j, bad);
          return false, None, ErrorAt(params, digest, |resp.responses[j]|, j, bad), rows, j;
        }
        OneMoreGood(c, digest, query, resp, j);
      }
      AllScanned(acc[..], found, rows, fp, params);
      AllCorrected(rows, c, digest, query, resp);
      return true, if found != 0 then Some(acc[..]) else None, MalformedBundle, rows, 0;
    }

    lemma {:induction false} Opened(c: RewindState, query: PirQueryBundle, resp: PirResponseBundle)
      requires c == Abs() && CanDecode(c, query, resp) && OnePerSegment(c, query, resp)
      ensures params == c.params && params.Legal() && params.Arity() <= 4 && |resp.responses| == params.Arity()
    {
    }

    /** Check, correct and scan one segment's row. */
    method ScanSegment(digest: nat, query: PirQueryBundle, resp: PirResponseBundle, j: nat, fp: nat, acc: array<Byte>,
                       found0: nat,
                       ghost rows: seq<seq<nat>>, ghost c: RewindState) returns (ok: bool, found: nat, bad: nat)
      requires Valid() && c == Abs() && CanDecode(c, query, resp) && OnePerSegment(c, query, resp)
      requires j < c.params.Arity() && fp < U64 && rows == SafeRows(c, digest, query, resp)
      requires Scanned(acc[..], found0, rows, fp, c.params, j, 0)
      modifies acc
      ensures ok ==> GoodSegment(c, digest, query, resp, j) && Scanned(acc[..], found, rows, fp, c.params, j + 1, 0)
      ensures !ok ==> BadCell(c, digest, query, resp, j, bad)
    {
      if |resp.responses[j]| != params.RowWidth() { return false, found0, 0; }
      var row := KeyRow(params, digest, j);
      var edits := pending.Row(j, row);
      var cells;
      ok, cells, bad :=
        CorrectedRow(states[j], pending.perSegment[j], query.queries[j], resp.responses[j], edits, row, params);
      found := found0;
      if ok {
        assert GoodSegment(c, digest, query, resp, j);
        assert rows[j] == cells;
        found := ScanRow(params, fp, cells, acc, found, rows, j);
      }
    }
  }

  /** The corrected rows, with cells that are out of range replaced, and rows of the wrong width. */
  ghost function SafeRows(c: RewindState, digest: nat, q: PirQueryBundle, resp: PirResponseBundle)
    : (rows: seq<seq<nat>>)
    requires CanDecode(c, q, resp) && OnePerSegment(c, q, resp)
    ensures |rows| == c.params.Arity() && RowsOk(rows, c.params)
    ensures forall j :: 0 <= j < |rows| && GoodSegment(c, digest, q, resp, j) ==>
         rows[j] == HeadRowOf(c, digest, q, resp, j)
  {
    seq(c.params.Arity(), j requires 0 <= j < c.params.Arity() => SafeRow(c, digest, q, resp, j))
  }

  ghost function SafeRow(c: RewindState, digest: nat, q: PirQueryBundle, resp: PirResponseBundle, j: nat)
    : (row: seq<nat>)
    requires CanDecode(c, q, resp) && OnePerSegment(c, q, resp) && j < c.params.Arity()
    ensures |row| == c.params.RowWidth() && Fit(row, c.params.plaintextBits)
    ensures GoodSegment(c, digest, q, resp, j) ==> row == HeadRowOf(c, digest, q, resp, j)
  {
    if |resp.responses[j]| == c.params.RowWidth() then Safe(HeadRowOf(c, digest, q, resp, j), c.params.plaintextBits)
    else Zeros(c.params.RowWidth())
  }

  /** The first `n` segments decode. */
  ghost predicate FirstGood(c: RewindState, digest: nat, q: PirQueryBundle, resp: PirResponseBundle, n: nat)
    requires CanDecode(c, q, resp) && OnePerSegment(c, q, resp) && n <= c.params.Arity()
  {
    forall i :: 0 <= i < n ==> GoodSegment(c, digest, q, resp, i)
  }

  lemma {:induction false} NoneYet(c: RewindState, digest: nat, q: PirQueryBundle, resp: PirResponseBundle)
    requires CanDecode(c, q, resp) && OnePerSegment(c, q, resp)
    ensures FirstGood(c, digest, q, resp, 0)
  {
  }

  lemma {:induction false} OneMoreGood(c: RewindState, digest: nat, q: PirQueryBundle, resp: PirResponseBundle, n: nat)
    requires CanDecode(c, q, resp) && OnePerSegment(c, q, resp) && n < c.params.Arity()
    requires FirstGood(c, digest, q, resp, n) && GoodSegment(c, digest, q, resp, n)
    ensures FirstGood(c, digest, q, resp, n + 1)
  {
    hide GoodSegment;
  }

  lemma {:induction false} AllCorrected(rows: seq<seq<nat>>, c: RewindState, digest: nat, q: PirQueryBundle,
                                        resp: PirResponseBundle)
    requires CanDecode(c, q, resp) && OnePerSegment(c, q, resp)
    requires rows == SafeRows(c, digest, q, resp)
    requires FirstGood(c, digest, q, resp, c.params.Arity())
    ensures AreHeadRows(rows, c, digest, q, resp)
  {
    forall j | 0 <= j < |rows|
      ensures |resp.responses[j]| == c.params.RowWidth() && rows[j] == HeadRowOf(c, digest, q, resp, j)
    {
      assert GoodSegment(c, digest, q, resp, j);
    }
  }

  /** The error of segment `j`, whose corrected row is out of range at `bad` unless its width is wrong. */
  function ErrorAt(params: CuckooParams, digest: nat, width: nat, j: nat, bad: nat): ClientError
    requires params.Legal() && j < 4
  {
    if width != params.RowWidth() then MalformedBundle else CellOutOfRange(j, KeyRow(params, digest, j), bad)
  }

  ghost predicate BadCell(c: RewindState, digest: nat, q: PirQueryBundle, resp: PirResponseBundle, j: nat, bad: nat)
    requires CanDecode(c, q, resp) && OnePerSegment(c, q, resp) && j < c.params.Arity()
  {
    |resp.responses[j]| == c.params.RowWidth() ==>
      FirstOutside(HeadRowOf(c, digest, q, resp, j), c.params.plaintextBits, bad)
  }

  lemma {:induction false} FailsAt(c: RewindState, digest: nat, q: PirQueryBundle, resp: PirResponseBundle, j: nat,
                                   bad: nat)
    requires CanDecode(c, q, resp) && OnePerSegment(c, q, resp) && j < c.params.Arity()
    requires FirstGood(c, digest, q, resp, j) && BadCell(c, digest, q, resp, j, bad)
    ensures FirstFailure(ErrorAt(c.params, digest, |resp.responses[j]|, j, bad), c, digest, q, resp, j)
  {
    hide GoodSegment;
  }

  ghost function Safe(v: Vector, pb: nat): (r: seq<nat>)
    ensures |r| == |v| && Fit(r, pb)
    ensures InCellRange(v, pb) ==> r == v
  {
    seq(|v|, i requires 0 <= i < |v| => if 0 <= v[i] < Pow2(pb) then v[i] else 0)
  }

  /** One segment's cells: the response rewound over the pending edits, decoded with the pinned hint,
      and the queried row's edits applied; false with the offset of the first cell that leaves its range. */
  method CorrectedRow(s: ClientState, m: DeltaMap, q: seq<nat>, resp: seq<nat>, edits: seq<Cell>, row: nat,
                      p: CuckooParams)
      returns (ok: bool, cells: seq<nat>, bad: nat)
    requires Served(p) && StateOk(s, p) && s.inFlight.Some? && MapInRange(m, p)
    requires |q| == p.SegmentSize() && |resp| == p.RowWidth() && row < p.SegmentSize()
    requires forall i :: 0 <= i < |resp| ==> resp[i] < U32
    requires Ascending(edits) && forall off: nat :: CellsAt(edits, off) == MapAt(m, row, off)
    requires forall i :: 0 <= i < |edits| ==> (row, edits[i].offset) in m
    ensures ok ==> cells == HeadRow(s, m, q, resp, row, p) && InCellRange(cells, p.plaintextBits)
    ensures !ok ==> FirstOutside(HeadRow(s, m, q, resp, row, p), p.plaintextBits, bad)
  {
    var pb := p.plaintextBits;
    var corrected := new nat[|resp|](i requires 0 <= i < |resp| => resp[i]);
    assert corrected[..] == resp;
    RewindResponse(q, corrected, m);
    var base := ClientDecodes(s, corrected[..], p);
    ghost var head := HeadRow(s, m, q, resp, row, p);
    assert forall i :: 0 <= i < |base| ==> head[i] == base[i] + MapAt(m, row, i);
    ok, cells, bad := ApplyEdits(base, edits, pb);
  }

  /** Apply a row's edits to its cells, checking each. */
  method ApplyEdits(base: seq<nat>, edits: seq<Cell>, pb: nat) returns (ok: bool, cells: seq<nat>, bad: nat)
    requires Fit(base, pb) && Ascending(edits)
    requires forall off: nat :: off >= |base| ==> CellsAt(edits, off) == 0
    requires forall i :: 0 <= i < |edits| ==> edits[i].offset < |base|
    ensures ok ==> |cells| == |base| && Fit(cells, pb) && forall i :: 0 <= i < |base| ==>
         cells[i] == base[i] + CellsAt(edits, i)
    ensures !ok ==> bad < |base| && !(0 <= base[bad] + CellsAt(edits, bad) < Pow2(pb))
    ensures !ok ==> forall i :: 0 <= i < bad ==> 0 <= base[i] + CellsAt(edits, i) < Pow2(pb)
  {
    cells := base;
    for k := 0 to |edits|
      invariant |cells| == |base| && Fit(cells, pb)
      invariant forall i :: 0 <= i < |base| ==> cells[i] == base[i] + CellsAt(edits[..k], i)
    {
      var idx, d := edits[k].offset, edits[k].delta;
      assert edits[..k + 1][..k] == edits[..k];
      AbsentOffset(edits[..k], idx);
      CellsAtEntry(edits, k);
      var correctedCell := cells[idx] + d;
      if correctedCell < 0 || correctedCell >= Pow2(pb) {
        forall i | 0 <= i < idx ensures 0 <= base[i] + CellsAt(edits, i) < Pow2(pb) { EarlierOffset(edits, k, i); }
        return false, cells, idx;
      }
      cells := cells[idx := correctedCell];
    }
    assert edits[..|edits|] == edits;
    ok, bad := true, 0;
  }
}
