/** Messages between server and clients, and the history of server versions they are taken from. */
module Messages {
  import opened Words
  import opened Geometry
  import opened WireFormat
  import opened LinearAlgebra
  import opened Lwe
  import opened Deltas
  import opened HintFold
  import Pending

  /** Public parameters of one segment.  The seed is represented by the matrix it expands to. */
  datatype BackendParams = BackendParams(a: Matrix, lweDim: nat, nRows: nat, rowWidth: nat)

  datatype ServerSetupBundle = ServerSetupBundle(
    params: CuckooParams, backendParams: seq<BackendParams>, hints: seq<Matrix>, epoch: nat)

  datatype PirQueryBundle = PirQueryBundle(epoch: nat, queries: seq<seq<nat>>)

  datatype PirResponseBundle = PirResponseBundle(epoch: nat, responses: seq<seq<nat>>)

  /** A geometry the LWE backend can serve: plaintexts leave at least one bit of room. */
  ghost predicate Served(p: CuckooParams) { p.Legal() && p.plaintextBits <= 31 }

  // ---------- versions ----------

  /** What the server serves at one epoch; `committed` when it came from the previous version by a
      commit rather than a rebuild. */
  datatype Version = Version(matrices: seq<Matrix>, db: Database, committed: bool)

  type History = seq<Version>

  ghost predicate VersionOk(v: Version, p: CuckooParams, dim: nat)
    requires p.Legal()
  {
    && |v.matrices| == p.Arity()
    && (forall j :: 0 <= j < |v.matrices| ==> Shape(v.matrices[j], p.SegmentSize(), dim))
    && DatabaseOk(v.db, p)
  }

  /** Commits keep the matrices; a rebuild may change them. */
  ghost predicate HistoryOk(h: History, p: CuckooParams, dim: nat)
    requires p.Legal()
  {
    && h != []
    && (forall e :: 0 <= e < |h| ==> VersionOk(h[e], p, dim))
    && forall e :: 1 <= e < |h| && h[e].committed ==> h[e].matrices == h[e - 1].matrices
  }

  function SegmentParams(a: Matrix, p: CuckooParams, dim: nat): BackendParams
    requires p.Legal()
  {
    BackendParams(a, dim, p.SegmentSize(), p.RowWidth())
  }

  /** The setup bundle of a version. */
  function SetupOf(v: Version, epoch: nat, p: CuckooParams, dim: nat): (b: ServerSetupBundle)
    requires p.Legal() && VersionOk(v, p, dim)
    ensures |b.backendParams| == |b.hints| == p.Arity()
  {
    ServerSetupBundle(
      p,
      seq(p.Arity(), j requires 0 <= j < p.Arity() => SegmentParams(v.matrices[j], p, dim)),
      seq(p.Arity(), j requires 0 <= j < p.Arity() => HintOf(v.matrices[j], v.db[j], dim, p.RowWidth())),
      epoch)
  }

  /** A query bundle has one word per row in each segment. */
  ghost predicate QueryShape(q: PirQueryBundle, p: CuckooParams)
    requires p.Legal()
  {
    |q.queries| == p.Arity() && forall j :: 0 <= j < |q.queries| ==> |q.queries[j]| == p.SegmentSize()
  }

  /** The answer of a version. */
  function AnswerOf(v: Version, q: PirQueryBundle, p: CuckooParams, dim: nat): (r: PirResponseBundle)
    requires p.Legal() && VersionOk(v, p, dim) && QueryShape(q, p)
    ensures |r.responses| == p.Arity() && forall j :: 0 <= j < p.Arity() ==> |r.responses[j]| == p.RowWidth()
  {
    PirResponseBundle(
      q.epoch, seq(p.Arity(), j requires 0 <= j < p.Arity() => Answer(v.db[j], q.queries[j], p.RowWidth())))
  }

  // ---------- edits between versions ----------

  /** The change of one cell; nothing outside the segment changes. */
  function CellChange(db0: Matrix, db1: Matrix, row: nat, off: nat): int {
    if row < |db0| && row < |db1| && off < |db0[row]| && off < |db1[row]| then Sub(db1[row][off], db0[row][off]) else 0
  }

  /** `rows` is the canonical list of the changes from `db0` to `db1`. */
  ghost predicate IsDelta(rows: SegmentRowDeltas, db0: Matrix, db1: Matrix, p: CuckooParams)
    requires p.Legal()
  {
    && CanonicalSegment(rows, ForParams(p))
    && forall row: nat, off: nat :: RowsAt(rows, row, off) == CellChange(db0, db1, row, off)
  }

  /** `m` holds exactly the changes from `db0` to `db1`. */
  ghost predicate IsPending(m: DeltaMap, db0: Matrix, db1: Matrix) {
    && ZeroFree(m)
    && forall row: nat, off: nat :: MapAt(m, row, off) == CellChange(db0, db1, row, off)
  }

  /** A delta bundle the server issued: a commit's changes under the epoch it produced.  A rebuild
      issues none, so its epoch is a hole. */
  ghost predicate GenuineDelta(h: History, d: HintDeltaBundle, p: CuckooParams)
    requires p.Legal()
  {
    && 1 <= d.epoch < |h| && h[d.epoch].committed
    && d.params == p && |d.perSegmentRowDeltas| == p.Arity()
    && |h[d.epoch].db| == |h[d.epoch - 1].db| == p.Arity()
    && forall j :: 0 <= j < p.Arity() ==>
         IsDelta(d.perSegmentRowDeltas[j], h[d.epoch - 1].db[j], h[d.epoch].db[j], p)
  }

  // ---------- facts ----------

  lemma {:induction false} ChangeIsDiff(db0: Matrix, db1: Matrix, n: nat, w: nat)
    requires Shape(db0, n, w) && Shape(db1, n, w)
    ensures forall r, o :: 0 <= r < n && 0 <= o < w ==> Diff(db0, db1, n, w)[r][o] == CellChange(db0, db1, r, o)
  {
  }

  lemma {:induction false} PendingIsDiff(m: DeltaMap, db0: Matrix, db1: Matrix, n: nat, w: nat)
    requires Shape(db0, n, w) && Shape(db1, n, w) && IsPending(m, db0, db1)
    ensures MapDense(m, n, w) == Diff(db0, db1, n, w)
  {
    ChangeIsDiff(db0, db1, n, w);
    forall r | 0 <= r < n ensures MapDense(m, n, w)[r] == Diff(db0, db1, n, w)[r] {
    }
  }

  lemma {:induction false} DeltaIsDiff(rows: SegmentRowDeltas, db0: Matrix, db1: Matrix, p: CuckooParams)
    requires p.Legal() && Shape(db0, p.SegmentSize(), p.RowWidth()) && Shape(db1, p.SegmentSize(), p.RowWidth())
    requires IsDelta(rows, db0, db1, p)
    ensures RowsDense(rows, p.SegmentSize(), p.RowWidth()) == Diff(db0, db1, p.SegmentSize(), p.RowWidth())
  {
    var n, w := p.SegmentSize(), p.RowWidth();
    ChangeIsDiff(db0, db1, n, w);
    forall r | 0 <= r < n ensures RowsDense(rows, n, w)[r] == Diff(db0, db1, n, w)[r] {
    }
  }

  lemma {:induction false} ChangesAdd(db0: Matrix, db1: Matrix, db2: Matrix, n: nat, w: nat, row: nat, off: nat)
    requires Shape(db0, n, w) && Shape(db1, n, w) && Shape(db2, n, w)
    ensures CellChange(db0, db2, row, off) == CellChange(db0, db1, row, off) + CellChange(db1, db2, row, off)
  {
  }

  lemma {:induction false} ChangeFits(db0: Matrix, db1: Matrix, pb: nat, row: nat, off: nat)
    requires pb <= 32 && CellsFit(db0, pb) && CellsFit(db1, pb)
    ensures FitsI64(CellChange(db0, db1, row, off))
  {
    Pow2Monotone(pb, 32);
    PowersOfTwo();
  }

  /** Merging a genuine delta into what is pending from the pin cannot overflow, and what is pending
      then reaches one version further. */
  lemma {:induction false} PendingGrows(m: DeltaMap, rows: SegmentRowDeltas, db0: Matrix, db1: Matrix, db2: Matrix,
                                        p: CuckooParams)
    requires p.Legal()
    requires Shape(db0, p.SegmentSize(), p.RowWidth()) && CellsFit(db0, p.plaintextBits)
    requires Shape(db1, p.SegmentSize(), p.RowWidth()) && CellsFit(db1, p.plaintextBits)
    requires Shape(db2, p.SegmentSize(), p.RowWidth()) && CellsFit(db2, p.plaintextBits)
    requires IsPending(m, db0, db1) && IsDelta(rows, db1, db2, p)
    ensures MergeRows(m, rows).1 && IsPending(MergeRows(m, rows).0, db0, db2)
  {
    var n, w := p.SegmentSize(), p.RowWidth();
    forall row: nat, off: nat
      ensures CellChange(db0, db2, row, off) == MapAt(m, row, off) + RowsAt(rows, row, off)
      ensures FitsI64(MapAt(m, row, off)) && FitsI64(MapAt(m, row, off) + RowsAt(rows, row, off))
    {
      ChangesAdd(db0, db1, db2, n, w, row, off);
      ChangeFits(db0, db1, p.plaintextBits, row, off);
      ChangeFits(db0, db2, p.plaintextBits, row, off);
    }
    Pending.CanonicalTidy(rows, ForParams(p));
    hide CellChange, MergeRows, MapAt, RowsAt, FitsI64;
    MergeTidy(m, rows);
  }

  lemma {:induction false} NoChange(db: Matrix, m: DeltaMap)
    requires IsPending(m, db, db)
    ensures m == map[]
  {
    forall k: (nat, nat) ensures k !in m { assert MapAt(m, k.0, k.1) == CellChange(db, db, k.0, k.1) == 0; }
  }
}
