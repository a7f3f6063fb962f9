/** The server: cells, one hint per segment, and an epoch that counts committed batches and rebuilds. */
module Server {
  import opened Words
  import opened Geometry
  import opened WireFormat
  import opened LinearAlgebra
  import opened Lwe
  import opened Deltas
  import opened HintFold
  import opened Messages
  import opened ClientSync
  import opened BackendEdits
  import ClientSpec
  import CuckooFilter
  import Store
  import opened Scheme
  import opened CellTable
  import opened ValueCodec
  import opened CellBits
  import opened StoreLog
  import opened StoreSpec
  import opened KickChains
  import opened Matvec

  datatype ServerError = StaleEpoch(expected: nat, got: nat) | MalformedQuery | TableFull | NotFound | InvalidInput

  datatype Reply<+T> = Granted(value: T) | Refused(error: ServerError)

  function MapCuckooErr(e: CuckooFilter.CuckooError): ServerError {
    match e
    case TableFull => TableFull
    case NotFound => NotFound
    case InvalidParams => InvalidInput
  }

  /** The number of cells of a segment. */
  function SegmentCells(p: CuckooParams): nat
    requires p.Legal()
  {
    p.SegmentSize() * p.RowWidth()
  }

  /** The flat cells of a segment are its matrix, row by row. */
  lemma {:induction false} SegmentSlice(cells: seq<nat>, p: CuckooParams, j: nat)
    requires p.Legal() && |cells| == TotalCells(p) && j < p.Arity()
    ensures Base(j, SegmentCells(p)) + SegmentCells(p) <= |cells|
    ensures IsFlat(cells[Base(j, SegmentCells(p))..Base(j, SegmentCells(p)) + SegmentCells(p)], DatabaseOf(cells, p)[j],
                   p.RowWidth())
  {
    SegmentInside(p, j);
    var db, start := DatabaseOf(cells, p)[j], Base(j, SegmentCells(p));
    var slice := cells[start..start + SegmentCells(p)];
    hide Base;
    forall r, o | 0 <= r < p.SegmentSize() && 0 <= o < p.RowWidth() ensures At(slice, p.RowWidth(), r, o) == db[r][o] {
      CellOfSegment(cells, p, j, r, o);
    }
  }

  lemma {:induction false} CellOfSegment(cells: seq<nat>, p: CuckooParams, j: nat, r: nat, o: nat)
    requires p.Legal() && |cells| == TotalCells(p) && j < p.Arity() && r < p.SegmentSize() && o < p.RowWidth()
    requires Base(j, SegmentCells(p)) + SegmentCells(p) <= |cells|
    ensures At(cells[Base(j, SegmentCells(p))..Base(j, SegmentCells(p)) + SegmentCells(p)], p.RowWidth(), r, o)
         == DatabaseOf(cells, p)[j][r][o]
  {
    RowInside(p, j, r);
    var n, w := p.SegmentSize(), p.RowWidth();
    RowOfSegment(j, n, w, r, o);
    assert RowStart(p, j, r) == Base(j * n + r, w);
    assert DatabaseOf(cells, p)[j][r][o] == cells[RowStart(p, j, r) + o];
    CellInSlice(cells, Base(j, SegmentCells(p)), n, w, r, o);
    hide *;
  }

  lemma {:induction false} CellInSlice(cells: seq<nat>, start: nat, n: nat, w: nat, r: nat, o: nat)
    requires start + n * w <= |cells| && r < n && o < w
    ensures start + (r * w + o) < |cells|
    ensures At(cells[start..start + n * w], w, r, o) == cells[start + (r * w + o)]
  {
    AtInside(cells[start..start + n * w], w, n, r, o);
  }

  lemma {:induction false} SegmentInside(p: CuckooParams, j: nat)
    requires p.Legal() && j < p.Arity()
    ensures Base(j, SegmentCells(p)) + SegmentCells(p) <= TotalCells(p)
  {
    LayoutSegments(p);
    AllRows(p);
    BlockInside(j, p.Arity(), p.SegmentSize(), p.RowWidth());
  }

  lemma {:induction false} BlockInside(j: nat, k: nat, n: nat, w: nat)
    requires j < k
    ensures Base(j, n * w) + n * w <= (k * n) * w
  {
    MulMonotone(n * w, j + 1, k);
    assert (n * w) * (j + 1) == j * (n * w) + n * w;
    assert (n * w) * k == (k * n) * w;
  }

  lemma {:induction false} RowOfSegment(j: nat, n: nat, w: nat, r: nat, o: nat)
    ensures Base(j, n * w) + (r * w + o) == Base(j * n + r, w) + o
  {
    assert (j * n + r) * w == j * (n * w) + r * w;
  }

  /** Any matrix of the given shape (the expansion of a fresh seed). */
  method SampleMatrix(rows: nat, cols: nat) returns (a: Matrix)
    ensures Shape(a, rows, cols)
  {
    a := [];
    for i := 0 to rows
      invariant Shape(a, i, cols)
    {
      var row: seq<nat> := [];
      for k := 0 to cols
        invariant |row| == k
      {
        var word: nat :| word < U32;
        row := row + [word];
      }
      a := a + [row];
    }
  }

  class Server {
    const params: CuckooParams
    const lweDim: nat

    const store: Store.Store
    var backendParams: seq<BackendParams>
    var hintMaterial: seq<Option<Matrix>>
    var hints: seq<Matrix>
    var epoch: nat
    var hintPatchMode: HintPatchMode

    /** Every version served so far; the last one is the current one. */
    ghost var history: History

    /** Each hint is the hint of its segment in `db`, under the segment's matrix. */
    ghost predicate HintsOf(db: Database)
      reads this
    {
      && Served(params) && DatabaseOk(db, params)
      && |backendParams| == |hintMaterial| == |hints| == params.Arity()
      && forall j :: 0 <= j < params.Arity() ==>
           && Shape(backendParams[j].a, params.SegmentSize(), lweDim)
           && backendParams[j] == SegmentParams(backendParams[j].a, params, lweDim)
           && (hintMaterial[j].Some? ==> hintMaterial[j].value == backendParams[j].a)
           && hints[j] == HintOf(backendParams[j].a, db[j], lweDim, params.RowWidth())
    }

    /** The current version is what the fields say. */
    ghost predicate Serves(db: Database)
      reads this
    {
      && Served(params) && HistoryOk(history, params, lweDim)
      && epoch == |history| - 1
      && history[epoch].db == db
      && |history[epoch].matrices| == |backendParams|
      && forall j :: 0 <= j < |backendParams| ==> history[epoch].matrices[j] == backendParams[j].a
    }

    ghost predicate Valid()
      reads this, store, store.table.cells
    {
      && store.Valid() && store.p == params && store.log == []
      && HintsOf(Cells()) && Serves(Cells())
    }

    /** The rows served: the store's cells, one matrix a segment. */
    ghost function Cells(): (db: Database)
      reads store.table.cells
      requires store.Shape()
      ensures DatabaseOk(db, store.p)
    {
      store.Rows()
    }

    /** Fresh matrices and their hints for every segment. */
    method SetUpSegments()
      requires Served(params) && store.Shape() && store.p == params
      modifies this`backendParams, this`hintMaterial, this`hints
      ensures HintsOf(Cells()) && forall j :: 0 <= j < params.Arity() ==> hintMaterial[j].Some?
    {
      var cells := DatabaseOf(store.table.cells[..], params);
      assert cells == Cells();
      var newParams: seq<BackendParams>, newMaterial: seq<Option<Matrix>>, newHints: seq<Matrix> := [], [], [];
      for j := 0 to params.Arity()
        invariant |newParams| == |newMaterial| == |newHints| == j
        invariant forall i :: 0 <= i < j ==>
                    && Shape(newParams[i].a, params.SegmentSize(), lweDim)
                    && newParams[i] == SegmentParams(newParams[i].a, params, lweDim)
                    && newMaterial[i] == Some(newParams[i].a)
                    && newHints[i] == HintOf(newParams[i].a, cells[i], lweDim, params.RowWidth())
      {
        var a := SampleMatrix(params.SegmentSize(), lweDim);
        newParams := newParams + [SegmentParams(a, params, lweDim)];
        newMaterial := newMaterial + [Some(a)];
        newHints := newHints + [HintOf(a, cells[j], lweDim, params.RowWidth())];
      }
      backendParams, hintMaterial, hints := newParams, newMaterial, newHints;
    }

    ghost function Matrices(): (r: seq<Matrix>)
      reads this
      ensures |r| == |backendParams| && forall j :: 0 <= j < |r| ==> r[j] == backendParams[j].a
    {
      seq(|backendParams|, j requires 0 <= j < |backendParams| reads this => backendParams[j].a)
    }

    /** A server over a store, whose log it empties. */
    constructor Build(store: Store.Store, lweDim: nat)
      requires store.Valid() && Served(store.p)
      modifies store`log
      ensures Valid() && this.store == store && params == store.p && this.lweDim == lweDim
      ensures epoch == 0 && |history| == 1
    {
      this.store, params, this.lweDim := store, store.p, lweDim;
      backendParams, hintMaterial, hints := [], [], [];
      epoch, hintPatchMode := 0, EntryLevel;
      new;
      SetUpSegments();
      history := [Version(Matrices(), Cells(), false)];
      var _ := store.DrainMutations();
    }

    /** The setup bundle of the current version. */
    method Setup() returns (b: ServerSetupBundle)
      requires Valid()
      ensures b == SetupOf(history[epoch], epoch, params, lweDim)
      ensures ClientSpec.BundleOk(b)
    {
      b := ServerSetupBundle(params, backendParams, hints, epoch);
      assert b.backendParams == SetupOf(history[epoch], epoch, params, lweDim).backendParams;
      assert b.hints == SetupOf(history[epoch], epoch, params, lweDim).hints;
    }

    /** The backend's answer from one segment's slice of the cells. */
    method AnswerSegment(j: nat, query: seq<nat>) returns (response: seq<nat>)
      requires store.Shape() && store.p == params && j < params.Arity() && |query| == params.SegmentSize()
      ensures response == Lwe.Answer(Cells()[j], query, params.RowWidth())
    {
      var cells := store.table.cells[..];
      SegmentSlice(cells, params, j);
      hide Base, SegmentCells, IsFlat;
      var start, n := Base(j, SegmentCells(params)), SegmentCells(params);
      var x86: bool := *;
      var answer := ServerAnswer(cells[start..start + n], params.RowWidth(), query, x86, Cells()[j]);
      response := answer[..];
    }

    /** Answers queries of the current epoch, from the current version, and no others. */
    method Answer(q: PirQueryBundle) returns (r: Reply<PirResponseBundle>)
      requires Valid()
      requires |q.queries| == params.Arity() ==> QueryShape(q, params)
      ensures q.epoch != epoch ==> r == Refused(StaleEpoch(epoch, q.epoch))
      ensures q.epoch == epoch && |q.queries| != params.Arity() ==> r == Refused(MalformedQuery)
      ensures q.epoch == epoch && |q.queries| == params.Arity() ==>
                QueryShape(q, params) && r == Granted(AnswerOf(history[epoch], q, params, lweDim))
    {
      if q.epoch != epoch { return Refused(StaleEpoch(epoch, q.epoch)); }
      if |q.queries| != params.Arity() { return Refused(MalformedQuery); }
      hide *;
      Parts();
      var responses := AnswerAll(q);
      AnswerIs(responses, q);
      return Granted(PirResponseBundle(epoch, responses));
    }

    method AnswerAll(q: PirQueryBundle) returns (responses: seq<seq<nat>>)
      requires store.Shape() && store.p == params && QueryShape(q, params)
      ensures |responses| == params.Arity()
      ensures forall i :: 0 <= i < params.Arity() ==>
           responses[i] == Lwe.Answer(Cells()[i], q.queries[i], params.RowWidth())
    {
      hide Server.Cells;
      responses := [];
      for j := 0 to params.Arity()
        invariant |responses| == j
        invariant forall i :: 0 <= i < j ==> responses[i] == Lwe.Answer(Cells()[i], q.queries[i], params.RowWidth())
      {
        var response := AnswerSegment(j, q.queries[j]);
        responses := responses + [response];
      }
    }

    lemma {:induction false} AnswerIs(responses: seq<seq<nat>>, q: PirQueryBundle)
      requires Valid() && QueryShape(q, params) && q.epoch == epoch && |responses| == params.Arity()
      requires forall i :: 0 <= i < params.Arity() ==>
           responses[i] == Lwe.Answer(Cells()[i], q.queries[i], params.RowWidth())
      ensures epoch < |history| && VersionOk(history[epoch], params, lweDim)
      ensures PirResponseBundle(epoch, responses) == AnswerOf(history[epoch], q, params, lweDim)
    {
      hide Server.Cells, Store.Store.Valid, Store.Store.Shape, Server.HintsOf;
      assert responses == AnswerOf(history[epoch], q, params, lweDim).responses;
    }

    /** New matrices and hints for the current cells, under the next epoch.  No delta is issued. */
    method FullRebuild() returns (b: ServerSetupBundle)
      requires Valid()
      modifies this, store`log
      ensures Valid() && epoch == old(epoch) + 1
      ensures history == old(history) + [Version(Matrices(), Cells(), false)]
      ensures b == SetupOf(history[epoch], epoch, params, lweDim)
    {
      SetUpSegments();
      var _ := store.DrainMutations();
      epoch := epoch + 1;
      ghost var matrices := Matrices();
      history := history + [Version(matrices, Cells(), false)];
      HistoryGrows(old(history), history[epoch]);
      assert Matrices() == matrices;
      b := Setup();
    }

    lemma {:induction false} HistoryGrows(h: History, v: Version)
      requires Served(params) && HistoryOk(h, params, lweDim) && VersionOk(v, params, lweDim)
      requires v.committed ==> v.matrices == h[|h| - 1].matrices
      ensures HistoryOk(h + [v], params, lweDim)
    {
    }

    /** Forget the expanded matrices; the hints stay. */
    method DropHintMaterial()
      requires Valid()
      modifies this`hintMaterial
      ensures Valid() && forall j :: 0 <= j < params.Arity() ==> hintMaterial[j].None?
    {
      for j := 0 to |hintMaterial|
        invariant |hintMaterial| == params.Arity()
        invariant forall i :: 0 <= i < j ==> hintMaterial[i].None?
        invariant forall i :: j <= i < params.Arity() ==> hintMaterial[i] == old(hintMaterial)[i]
      {
        hintMaterial := hintMaterial[j := None];
      }
    }

    /** The current version is one commit after `before`, and the bundle is its delta. */
    ghost predicate Committed(before: History, d: HintDeltaBundle)
      reads this, store, store.table.cells
    {
      && Valid() && before != []
      && history == before + [Version(before[|before| - 1].matrices, Cells(), true)]
      && d.epoch == epoch && GenuineDelta(history, d, params)
    }

    /** Insert into the store and commit what it logged.  A refusal changes nothing. */
    method Insert(digest: nat, value: seq<Byte>) returns (r: Reply<HintDeltaBundle>)
      requires Valid() && ZeroEmpty(store.Slots(), params)
      modifies this, store, store.table.cells
      ensures Valid() && ZeroEmpty(store.Slots(), params)
      ensures r == Refused(InvalidInput) <==> |value| != params.ValueSizeInBytes()
      ensures r.Granted? ==> Committed(old(history), r.value)
      ensures r.Granted? ==>
           Adds(SchemeOf(params), old(store.Slots()), store.Slots(), store.ClassOf(digest), ValueBitsOf(value, params))
      ensures r.Refused? ==> epoch == old(epoch) && history == old(history) && Cells() == old(Cells())
      ensures r.Refused? ==> r.error == InvalidInput || r.error == TableFull
      ensures r == Refused(TableFull) ==>
           && (forall b :: b in store.ClassOf(digest).orbit ==> b < params.numBuckets && Full(store.Slots(), b))
           && GivesUp(SchemeOf(params), Prints(old(store.Slots()), None), store.ClassOf(digest), store.maxKicks)
      ensures |value| == params.ValueSizeInBytes() ==>
           && store.TakesFirstFree(old(store.Slots()), digest, r.Granted?, store.Slots())
           && (store.KickHelps(old(store.Slots()), digest, store.maxKicks) ==> r.Granted?)
      ensures store.maxKicks == old(store.maxKicks)
    {
      hide *;
      Parts();
      ghost var v0, base, c := store.Slots(), Cells(), store.ClassOf(digest);
      var stored, added := store.Insert(digest, value);
      Parts();
      assert store.log == added;
      EmptiesStayZero(v0, added, store.Slots(), params);
      if stored.Ok? { InsertedAdds(v0, added, store.Slots(), c, ValueBitsOf(value, params), params); }
      r := Conclude(stored, base, v0);
    }

    /** Replace a value in the store and commit what it logged. */
    method Update(digest: nat, value: seq<Byte>) returns (r: Reply<HintDeltaBundle>)
      requires Valid()
      modifies this, store, store.table.cells
      ensures Valid() && (old(ZeroEmpty(store.Slots(), params)) ==> ZeroEmpty(store.Slots(), params))
      ensures r == Refused(InvalidInput) <==> |value| != params.ValueSizeInBytes()
      ensures r.Granted? <==> |value| == params.ValueSizeInBytes() && old(store.Has(digest))
      ensures r.Granted? ==> Committed(old(history), r.value)
      ensures r.Granted? ==> store.Updated(old(store.Slots()), digest, value, store.Slots())
      ensures r.Refused? ==> r.error == InvalidInput || r.error == NotFound
      ensures r.Refused? ==> epoch == old(epoch) && history == old(history) && Cells() == old(Cells())
    {
      hide *;
      Parts();
      ghost var v0, base := store.Slots(), Cells();
      var stored, added := store.Update(digest, value);
      Parts();
      assert store.log == added;
      EmptiesStayZero(v0, added, store.Slots(), params);
      r := Conclude(stored, base, v0);
    }

    /** Delete from the store and commit what it logged. */
    method Delete(digest: nat) returns (r: Reply<HintDeltaBundle>)
      requires Valid()
      modifies this, store, store.table.cells
      ensures Valid() && (old(ZeroEmpty(store.Slots(), params)) ==> ZeroEmpty(store.Slots(), params))
      ensures r.Granted? <==> old(store.Has(digest))
      ensures r.Granted? ==> Committed(old(history), r.value)
      ensures r.Granted? ==> store.Removed(old(store.Slots()), digest, store.Slots())
      ensures r.Refused? ==> r == Refused(NotFound)
                             && epoch == old(epoch) && history == old(history) && Cells() == old(Cells())
    {
      hide *;
      Parts();
      ghost var v0, base := store.Slots(), Cells();
      var stored, added := store.Delete(digest);
      Parts();
      assert store.log == added;
      EmptiesStayZero(v0, added, store.Slots(), params);
      r := Conclude(stored, base, v0);
    }

    /** Pass on the store's error, or commit what it logged. */
    method Conclude(stored: CuckooFilter.Result<()>, ghost base: Database, ghost v0: View)
        returns (r: Reply<HintDeltaBundle>)
      requires HintsOf(base) && Serves(base) && store.Valid() && store.p == params
      requires Logged(v0, store.log, store.Slots(), params) && Mirrors(base, v0, params)
      requires stored.Err? ==> store.log == [] && Cells() == base
      modifies this, store`log
      ensures Valid() && store.Slots() == old(store.Slots())
      ensures stored.Err? ==> r == Refused(MapCuckooErr(stored.error)) && epoch == old(epoch) && history == old(history)
      ensures stored.Ok? ==> r.Granted? && Committed(old(history), r.value)
      ensures r == Refused(InvalidInput) <==> stored == CuckooFilter.Err(CuckooFilter.InvalidParams)
      ensures r == Refused(NotFound) <==> stored == CuckooFilter.Err(CuckooFilter.NotFound)
      ensures r == Refused(TableFull) <==> stored == CuckooFilter.Err(CuckooFilter.TableFull)
      ensures store.maxKicks == old(store.maxKicks)
    {
      hide Server.Valid, Server.HintsOf, Server.Serves, Server.Cells, Server.Committed, Store.Store.Valid,
           Store.Store.Shape,
           Store.Store.Slots, Logged, Mirrors;
      Parts();
      if stored.Err? { return Refused(MapCuckooErr(stored.error)); }
      var d := CommitMutations(base, v0);
      return Granted(d);
    }

    lemma {:induction false} Parts()
      ensures Valid() <==> store.Valid() && store.p == params && store.log == [] && HintsOf(Cells()) && Serves(Cells())
      ensures store.Valid() ==> store.Shape()
      ensures store.Shape() ==> Cells() == store.Rows()
      ensures store.Shape() ==> store.p.Legal() && SchemeOf(store.p).Valid() && Mirrors(Cells(), store.Slots(), store.p)
    {
    }

    /** Fold the log, bring the hints of the touched segments up to date, and issue the delta of the
        next epoch. */
    method CommitMutations(ghost base: Database, ghost v0: View) returns (d: HintDeltaBundle)
      requires HintsOf(base) && Serves(base) && store.Valid() && store.p == params
      requires Logged(v0, store.log, store.Slots(), params) && Mirrors(base, v0, params)
      modifies this, store`log
      ensures Valid() && Committed(old(history), d) && store.Slots() == old(store.Slots())
    {
      hide Replay, Consistent, IsFold, IsDelta, LogOk, Logged, Mirrors, Store.Store.Valid, Store.Store.Shape,
           Store.Store.Slots, Store.Store.Rows, ZeroEmpty;
      Parts();
      ghost var after := Cells();
      var muts := store.DrainMutations();
      RowsFollow(base, v0, muts, after, store.Slots(), params);
      var rowDeltas := FoldMutationsIntoRowDeltas(muts, params);
      ExpandTouched(rowDeltas, base);
      PatchHints(rowDeltas, base, after, muts);
      epoch := epoch + 1;
      d := HintDeltaBundle(epoch, rowDeltas, params);
      history := history + [Version(history[epoch - 1].matrices, after, true)];
      HistoryGrows(old(history), history[epoch]);
      forall j | 0 <= j < params.Arity() ensures IsDelta(rowDeltas[j], base[j], after[j], params) {
        FoldIsDelta(rowDeltas[j], base, muts, params, j);
      }
      Parts();
    }

    /** Phase 1: expand the material of every segment about to be patched. */
    method ExpandTouched(rowDeltas: seq<SegmentRowDeltas>, ghost base: Database)
      requires HintsOf(base) && |rowDeltas| == params.Arity()
      modifies this`hintMaterial
      ensures HintsOf(base)
      ensures forall j :: 0 <= j < params.Arity() && rowDeltas[j] != [] ==> hintMaterial[j].Some?
    {
      for j := 0 to |rowDeltas|
        invariant HintsOf(base)
        invariant forall i :: 0 <= i < j && rowDeltas[i] != [] ==> hintMaterial[i].Some?
      {
        if rowDeltas[j] != [] && hintMaterial[j].None? {
          hintMaterial := hintMaterial[j := Some(backendParams[j].a)];
        }
      }
    }

    /** Phase 2: patch the hints of the touched segments. */
    method PatchHints(rowDeltas: seq<SegmentRowDeltas>, ghost base: Database, ghost cells: Database,
                      ghost muts: seq<SlotMutation>)
      requires HintsOf(base) && LogOk(muts, params) && Consistent(base, muts, params)
           && cells == Replay(base, muts, params)
      requires |rowDeltas| == params.Arity() && forall j :: 0 <= j < |rowDeltas| ==>
           IsFold(rowDeltas[j], muts, params, j)
      requires forall j :: 0 <= j < params.Arity() && rowDeltas[j] != [] ==> hintMaterial[j].Some?
      modifies this`hints
      ensures HintsOf(cells)
    {
      hide Replay, Consistent, LogOk, IsFold;
      for j := 0 to |rowDeltas|
        invariant |hints| == params.Arity()
        invariant forall i :: 0 <= i < j ==> hints[i] == HintOf(backendParams[i].a, cells[i], lweDim, params.RowWidth())
        invariant forall i :: j <= i < params.Arity() ==>
             hints[i] == HintOf(backendParams[i].a, base[i], lweDim, params.RowWidth())
      {
        FoldIsDelta(rowDeltas[j], base, muts, params, j);
        hide *;
        var h := NextHint(hints[j], hintMaterial[j], rowDeltas[j], backendParams[j].a, base[j], cells[j]);
        hints := hints[j := h];
      }
    }

    /** The hint of one segment, patched if the segment was touched. */
    method NextHint(hint: Matrix, material: Option<Matrix>, rows: SegmentRowDeltas, ghost a: Matrix, ghost db0: Matrix,
                    ghost db1: Matrix)
        returns (h: Matrix)
      requires params.Legal() && Shape(a, params.SegmentSize(), lweDim)
      requires Shape(db0, params.SegmentSize(), params.RowWidth())
           && Shape(db1, params.SegmentSize(), params.RowWidth())
      requires IsDelta(rows, db0, db1, params) && (rows != [] ==> material == Some(a))
      requires hint == HintOf(a, db0, lweDim, params.RowWidth())
      ensures h == HintOf(a, db1, lweDim, params.RowWidth())
    {
      if rows == [] {
        SameCells(db0, db1, params.SegmentSize(), params.RowWidth(), rows);
        return hint;
      }
      hide IsDelta;
      PatchableDelta(rows, db0, db1, params);
      PatchFollows(a, db0, db1, lweDim, params.RowWidth());
      h := PatchedHint(hint, material.value, rows, hintPatchMode, lweDim, params.RowWidth());
    }
  }

  /** The fold of a consistent log is the canonical delta of each segment. */
  lemma {:induction false} FoldIsDelta(rows: SegmentRowDeltas, base: Database, muts: seq<SlotMutation>, p: CuckooParams,
                                       j: nat)
    requires p.Legal() && DatabaseOk(base, p) && LogOk(muts, p) && Consistent(base, muts, p)
    requires j < p.Arity() && IsFold(rows, muts, p, j)
    ensures IsDelta(rows, base[j], Replay(base, muts, p)[j], p)
  {
    FoldIsCanonical(rows, base, muts, p, j);
    var after := Replay(base, muts, p);
    forall row: nat, off: nat ensures RowsAt(rows, row, off) == CellChange(base[j], after[j], row, off) {
      if row < p.SegmentSize() && off < p.RowWidth() {
        Telescopes(base, muts, p, j, row, off);
      } else {
        LogInRange(muts, p, j, row, off);
      }
    }
  }

  /** A canonical delta stays inside the segment, and means the difference. */
  lemma {:induction false} PatchableDelta(rows: SegmentRowDeltas, db0: Matrix, db1: Matrix, p: CuckooParams)
    requires p.Legal() && Shape(db0, p.SegmentSize(), p.RowWidth()) && Shape(db1, p.SegmentSize(), p.RowWidth())
    requires IsDelta(rows, db0, db1, p)
    ensures RowsInRange(rows, p.SegmentSize(), p.RowWidth())
    ensures RowsDense(rows, p.SegmentSize(), p.RowWidth()) == Diff(db0, db1, p.SegmentSize(), p.RowWidth())
  {
    DeltaIsDiff(rows, db0, db1, p);
    CanonicalInRange(rows, p);
  }

  lemma {:induction false} CanonicalInRange(rows: SegmentRowDeltas, p: CuckooParams)
    requires p.Legal() && CanonicalSegment(rows, ForParams(p))
    ensures RowsInRange(rows, p.SegmentSize(), p.RowWidth())
  {
    var l := ForParams(p);
    forall i | 0 <= i < |rows| ensures rows[i].row < p.SegmentSize() && CellsInRange(rows[i].cells, p.RowWidth()) {
      assert CanonicalCells(rows[i].cells, l);
      forall c | 0 <= c < |rows[i].cells|
        ensures rows[i].cells[c].offset < p.RowWidth()
      {
        assert CellInRange(rows[i].cells[c], l);
      }
    }
  }
}
