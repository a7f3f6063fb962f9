/** The client that patches its own hint with every delta. */
module HintPatchClient {
  import opened Words
  import opened Geometry
  import opened WireFormat
  import opened Lwe
  import opened Fields
  import opened Lookup
  import opened Messages
  import opened ClientSpec
  import opened ClientSteps
  import opened BackendEdits

  class Client {
    var params: CuckooParams
    var states: seq<ClientState>
    var epoch: nat
    var hintPatchMode: HintPatchMode

    ghost function Abs(): PatchState
      reads this
    {
      PatchState(params, states, epoch)
    }

    ghost predicate Valid()
      reads this
    {
      PatchOk(Abs())
    }

    constructor FromSetup(bundle: ServerSetupBundle)
      requires BundleOk(bundle)
      ensures Valid() && Abs() == PatchFromSetup(bundle) && hintPatchMode == EntryLevel
    {
      params, states, epoch, hintPatchMode := bundle.params, FreshStates(bundle), bundle.epoch, EntryLevel;
    }

    /** Start over from a setup bundle; only the patch mode survives. */
    method ResetFrom(bundle: ServerSetupBundle)
      requires BundleOk(bundle)
      modifies this
      ensures Valid() && Abs() == PatchFromSetup(bundle) && hintPatchMode == old(hintPatchMode)
    {
      params, states, epoch := bundle.params, FreshStates(bundle), bundle.epoch;
    }

    method BuildQuery(digest: nat) returns (q: PirQueryBundle)
      requires Valid()
      modifies this`states
      ensures Valid() && SameButInFlight(old(states), states)
      ensures q.epoch == epoch && QueryShape(q, params) && Asks(states, q, digest, params)
    {
      states, q := BuildQueries(states, digest, epoch, params);
    }

    /** Take the delta of the next epoch, in either mode. */
    method ApplyDelta(delta: HintDeltaBundle) returns (r: Outcome<()>)
      requires Valid()
      requires delta.epoch == epoch + 1 && SameGeometry(delta, params) ==> BundleInRange(delta, params)
      modifies this`states, this`epoch
      ensures Valid() && Applies(old(Abs()), delta, Abs(), r)
      ensures delta.epoch <= old(epoch) ==>
                r == Failed(StaleDelta(old(epoch) + 1, delta.epoch)) && Abs() == old(Abs())
      ensures delta.epoch > old(epoch) + 1 ==>
                r == Failed(FutureDelta(old(epoch) + 1, delta.epoch)) && Abs() == old(Abs())
      ensures delta.epoch == old(epoch) + 1 && !SameGeometry(delta, params) ==>
                r == Failed(MalformedBundle) && Abs() == old(Abs())
      ensures delta.epoch == old(epoch) + 1 && SameGeometry(delta, params) ==>
                && r == Done(()) && epoch == delta.epoch
                && forall j :: 0 <= j < params.Arity() ==>
                     states[j] == PatchSegment(old(states)[j], delta.perSegmentRowDeltas[j], params)
    {
      var error := DeltaError(params, epoch, delta);
      if error.Some? { return Failed(error.value); }
      for j := 0 to params.Arity()
        invariant StatesOk(states, params)
        invariant forall i :: 0 <= i < j ==>
             states[i] == PatchSegment(old(states)[i], delta.perSegmentRowDeltas[i], params)
        invariant forall i :: j <= i < params.Arity() ==> states[i] == old(states)[i]
      {
        var rows := delta.perSegmentRowDeltas[j];
        if rows != [] {
          var s := states[j];
          var h := PatchedHint(s.hint, s.params.a, rows, hintPatchMode, s.params.lweDim, params.RowWidth());
          states := states[j := s.(hint := h)];
        }
      }
      epoch := delta.epoch;
      return Done(());
    }

    /** Take the delta, or start over from `fetched` when deltas in between are missing. */
    method TryApplyDeltaOrResync(delta: HintDeltaBundle, fetched: ServerSetupBundle)
        returns (r: Outcome<DeltaApplyOutcome>)
      requires Valid() && BundleOk(fetched)
      requires delta.epoch == epoch + 1 && SameGeometry(delta, params) ==> BundleInRange(delta, params)
      modifies this
      ensures Valid()
      ensures r == Done(Resynced) <==> delta.epoch > old(epoch) + 1
      ensures r == Done(Resynced) ==> Abs() == PatchFromSetup(fetched)
      ensures r == Done(Synced) <==> delta.epoch == old(epoch) + 1 && SameGeometry(delta, old(params))
      ensures r == Done(Synced) ==> Applies(old(Abs()), delta, Abs(), Done(()))
      ensures delta.epoch <= old(epoch) ==>
                r == Failed(StaleDelta(old(epoch) + 1, delta.epoch)) && Abs() == old(Abs())
      ensures delta.epoch == old(epoch) + 1 && !SameGeometry(delta, old(params)) ==>
                r == Failed(MalformedBundle) && Abs() == old(Abs())
    {
      var applied := ApplyDelta(delta);
      if applied.Done? { return Done(Synced); }
      if applied.error.FutureDelta? {
        ResetFrom(fetched);
        return Done(Resynced);
      }
      return Failed(applied.error);
    }

    /** Decode the answer to the latest query and scan it for the key. */
    method Decode(digest: nat, resp: PirResponseBundle) returns (r: Outcome<Option<seq<Byte>>>)
      requires PatchCanDecode(Abs(), resp)
      ensures PatchDecodes(Abs(), digest, resp, r)
    {
      if resp.epoch != epoch { return Failed(EpochMismatch(epoch, resp.epoch)); }
      if |resp.responses| != params.Arity() { return Failed(MalformedBundle); }
      var ok, value;
      ghost var rows;
      ok, value, rows := DecodeRows(digest, resp, Abs());
      return if ok then Done(value) else Failed(MalformedBundle);
    }

    /** Decode and scan every segment's row, stopping at the first of the wrong width. */
    method DecodeRows(digest: nat, resp: PirResponseBundle, ghost c: PatchState)
        returns (ok: bool, value: Option<seq<Byte>>, ghost rows: seq<seq<nat>>)
      requires c == Abs() && PatchCanDecode(c, resp) && |resp.responses| == c.params.Arity()
      ensures ok <==> FullWidth(resp, c.params)
      ensures ok ==> AreDecodedRows(rows, c, resp) && IsLookup(value, rows, KeyFingerprint(c.params, digest), c.params)
    {
      hide *;
      Opened(c, resp);
      var fp := KeyFingerprint(params, digest);
      KeyFingerprintFits(params, digest);
      rows := DecodedRows(c, resp);
      var width := params.RowWidth();
      var acc := new Byte[params.ValueSizeInBytes()](_ => 0);
      var found := 0;
      NothingScanned(acc[..], rows, fp, params);
      for j := 0 to params.Arity()
        invariant Scanned(acc[..], found, rows, fp, params, j, 0)
        invariant forall i :: 0 <= i < j ==> |resp.responses[i]| == width
      {
        if |resp.responses[j]| != width {
          WrongWidth(resp, params, j);
          return false, None, rows;
        }
        found := ScanSegment(resp, j, fp, acc, found, rows, c);
      }
      AllScanned(acc[..], found, rows, fp, params);
      AllDecoded(rows, c, resp);
      return true, if found != 0 then Some(acc[..]) else None, rows;
    }

    lemma {:induction false} Opened(c: PatchState, resp: PirResponseBundle)
      requires c == Abs() && PatchCanDecode(c, resp)
      ensures params == c.params && states == c.states && params.Legal() && params.Arity() <= 4
    {
    }

    /** Decode and scan one segment's row. */
    method ScanSegment(resp: PirResponseBundle, j: nat, fp: nat, acc: array<Byte>, found0: nat,
                       ghost rows: seq<seq<nat>>, ghost c: PatchState)
        returns (found: nat)
      requires c == Abs() && PatchCanDecode(c, resp) && |resp.responses| == c.params.Arity()
      requires j < c.params.Arity() && |resp.responses[j]| == c.params.RowWidth() && fp < U64
           && rows == DecodedRows(c, resp)
      requires Scanned(acc[..], found0, rows, fp, c.params, j, 0)
      modifies acc
      ensures Scanned(acc[..], found, rows, fp, c.params, j + 1, 0)
    {
      hide Scanned;
      var cells := ClientDecodes(states[j], resp.responses[j], params);
      assert rows[j] == cells;
      found := ScanRow(params, fp, cells, acc, found0, rows, j);
    }
  }

  lemma {:induction false} WrongWidth(resp: PirResponseBundle, p: CuckooParams, j: nat)
    requires p.Legal() && j < |resp.responses| && |resp.responses[j]| != p.RowWidth()
    ensures !FullWidth(resp, p)
  {
  }

  lemma {:induction false} AllDecoded(rows: seq<seq<nat>>, c: PatchState, resp: PirResponseBundle)
    requires PatchCanDecode(c, resp) && |resp.responses| == c.params.Arity() && rows == DecodedRows(c, resp)
    requires forall i :: 0 <= i < c.params.Arity() ==> |resp.responses[i]| == c.params.RowWidth()
    ensures FullWidth(resp, c.params) && AreDecodedRows(rows, c, resp)
  {
  }

  /** The rows the client decodes, before scanning; zeros for a response of the wrong width. */
  ghost function DecodedRows(c: PatchState, resp: PirResponseBundle): (rows: seq<seq<nat>>)
    requires PatchCanDecode(c, resp) && |resp.responses| == c.params.Arity()
    ensures |rows| == c.params.Arity() && RowsOk(rows, c.params)
    ensures forall j :: 0 <= j < |rows| && |resp.responses[j]| == c.params.RowWidth() ==>
              rows[j] == DecodeCells(resp.responses[j], c.states[j].hint, c.states[j].inFlight.value,
                                     c.params.plaintextBits)
  {
    seq(c.params.Arity(), j requires 0 <= j < c.params.Arity() => DecodedRow(c.states[j], resp.responses[j], c.params))
  }

  ghost function DecodedRow(s: ClientState, response: seq<nat>, p: CuckooParams): (row: seq<nat>)
    requires Served(p) && StateOk(s, p) && s.inFlight.Some?
    ensures |row| == p.RowWidth() && Fit(row, p.plaintextBits)
    ensures |response| == p.RowWidth() ==> row == DecodeCells(response, s.hint, s.inFlight.value, p.plaintextBits)
  {
    if |response| != p.RowWidth() then Zeros(p.RowWidth())
    else
      DecodedFits(response, s.hint, s.inFlight.value, p.plaintextBits);
      DecodeCells(response, s.hint, s.inFlight.value, p.plaintextBits)
  }
}
