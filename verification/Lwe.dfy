/** The lattice backend as linear algebra modulo `2^32`: hints, queries, answers, decoding, and the
    two ways an edited database is followed (patching the hint, rewinding the response).

    A segment's database has one row per bucket.  The public matrix `a`, the secrets and the ternary
    errors are arbitrary. */
module Lwe {
  import opened Words
  import opened Window
  import opened LinearAlgebra

  // ---------- scaling between plaintexts and words ----------

  /** `x << (32 - pb)`. */
  function RoundPToQ(x: nat, pb: nat): nat
    requires 1 <= pb <= 31
  {
    Shl(x, 32 - pb, 32)
  }

  /** Wrapping addition of half a step, then `>> (32 - pb)`. */
  function RoundQToP(y: int, pb: nat): nat
    requires 1 <= pb <= 31
  {
    Shr(W(y + Pow2(31 - pb)), 32 - pb)
  }

  lemma {:induction false} ShiftedBound(x: nat, s: nat, w: nat)
    requires s <= w && x < Pow2(w - s)
    ensures 0 <= x * Pow2(s) < Pow2(w)
  {
    Pow2Add(w - s, s);
    var p, r := Pow2(s), Pow2(w - s);
    MulMonotone(p, x + 1, r);
    assert p * (x + 1) == x * p + p;
  }

  lemma {:induction false} ShlIsMul(x: nat, s: nat, w: nat)
    requires s <= w && x < Pow2(w - s)
    ensures Shl(x, s, w) == x * Pow2(s)
  {
    ShiftedBound(x, s, w);
    hide Pow2;
    forall i | 0 <= i < w ensures BitOf(Shl(x, s, w), i) == BitOf(x * Pow2(s), i) {
      ShlBits(x, s, w, i);
      LowByte(0, x, i, s);
      BitOfZero(i);
    }
    ValBound(seq(w, i requires 0 <= i < w => s <= i && BitOf(x, i - s)));
    SameBits(Shl(x, s, w), x * Pow2(s), w);
  }

  lemma {:induction false} StepSizes(pb: nat)
    requires 1 <= pb <= 31
    ensures Pow2(32 - pb) == 2 * Pow2(31 - pb)
    ensures Pow2(pb) * Pow2(32 - pb) == U32
  {
    Pow2Add(pb, 32 - pb);
    PowersOfTwo();
  }

  /** Rounding recovers a scaled plaintext through any noise of less than half a step, including
      where the noise wraps around zero. */
  lemma {:induction false} RoundRecovers(x: nat, noise: int, pb: nat)
    requires 1 <= pb <= 31 && x < Pow2(pb)
    requires 0 - Pow2(31 - pb) <= noise < Pow2(31 - pb)
    ensures RoundQToP(W(RoundPToQ(x, pb) + noise), pb) == x
  {
    hide *;
    var step, half := Pow2(32 - pb), Pow2(31 - pb);
    StepSizes(pb);
    ShlIsMul(x, 32 - pb, 32);
    StepRange(x, noise + half, step, Pow2(pb));
    WAdd(x * step + noise, half);
    RoundedAt(step * x + (noise + half), x, noise + half, pb);
    RoundingSteps(x, W(x * step + noise), pb);
  }

  lemma {:induction false} RoundingSteps(x: nat, y: int, pb: nat)
    requires 1 <= pb <= 31
    ensures RoundPToQ(x, pb) == Shl(x, 32 - pb, 32) && RoundQToP(y, pb) == Shr(W(y + Pow2(31 - pb)), 32 - pb)
  {
  }

  /** The `x`-th step of `n` equal steps lies inside their range. */
  lemma {:induction false} StepRange(x: nat, rest: int, step: nat, n: nat)
    requires x < n && n * step == U32 && 0 <= rest < step
    ensures 0 <= step * x + rest < U32 && step * x == x * step
  {
    MulMonotone(step, x + 1, n);
    assert step * (x + 1) == step * x + step;
  }

  /** Rounding down a word between `x` and `x + 1` steps. */
  lemma {:induction false} RoundedAt(v: int, x: nat, rest: int, pb: nat)
    requires 1 <= pb <= 31 && 0 <= v < U32 && v == Pow2(32 - pb) * x + rest && 0 <= rest < Pow2(32 - pb)
    ensures W(v) == v && Shr(v, 32 - pb) == x
  {
    DivModUnique(v, U32, 0, v);
    ShrIsDiv(v, 32 - pb);
    DivModUnique(v, Pow2(32 - pb), x, rest);
  }

  // ---------- hint, query, answer, decode ----------

  ghost predicate Ternary(e: Vector) {
    forall i :: 0 <= i < |e| ==> -1 <= e[i] <= 1
  }

  /** `b = a·s + e + step·u_row`. */
  function Query(a: Matrix, s: Vector, e: Vector, row: nat, pb: nat): (r: seq<nat>)
    requires Shape(a, |e|, |s|) && 1 <= pb <= 31
    ensures |r| == |e|
  {
    seq(|e|, i requires 0 <= i < |e| => W(Dot(a[i], s) + e[i] + (if i == row then RoundPToQ(1, pb) else 0)))
  }

  /** Some ternary error makes `q` the query for `row` under secret `s`. */
  ghost predicate IsQuery(q: seq<nat>, a: Matrix, s: Vector, row: nat, pb: nat) {
    && 1 <= pb <= 31 && row < |a| && Shape(a, |a|, |s|)
    && exists e :: |e| == |a| && Ternary(e) && q == Query(a, s, e, row, pb)
  }

  /** `bᵀ·D`. */
  function Answer(db: Matrix, q: seq<nat>, width: nat): (r: seq<nat>)
    requires Shape(db, |q|, width)
    ensures |r| == width
  {
    seq(width, j requires 0 <= j < width => W(Dot(q, Column(db, j))))
  }

  /** Every entry is a u32. */
  ghost predicate AreWords(m: Matrix) {
    forall i, j :: 0 <= i < |m| && 0 <= j < |m[i]| ==> m[i][j] < U32
  }

  /** `H = aᵀ·D`. */
  function HintOf(a: Matrix, db: Matrix, dim: nat, width: nat): (h: Matrix)
    requires Shape(a, |db|, dim) && Shape(db, |db|, width)
    ensures Shape(h, dim, width) && AreWords(h)
  {
    seq(dim, k requires 0 <= k < dim =>
      seq(width, j requires 0 <= j < width => W(Dot(Column(a, k), Column(db, j)))))
  }

  /** Round `response - sᵀ·H`. */
  function DecodeCells(response: seq<nat>, hint: Matrix, s: Vector, pb: nat): (r: seq<nat>)
    requires Shape(hint, |s|, |response|) && 1 <= pb <= 31
    ensures |r| == |response|
  {
    seq(|response|, j requires 0 <= j < |response| => RoundQToP(W(response[j] - Dot(s, Column(hint, j))), pb))
  }

  /** Cells of `pb` bits. */
  ghost predicate CellsFit(db: Matrix, pb: nat) {
    forall i, j :: 0 <= i < |db| && 0 <= j < |db[i]| ==> db[i][j] < Pow2(pb)
  }

  /** The noise of an answer stays below half a step whatever the errors are. */
  ghost predicate NoiseBounded(rows: nat, pb: nat) {
    1 <= pb <= 31 && rows * (Pow2(pb) - 1) < Pow2(31 - pb)
  }

  /** The query is the sum of its three parts, modulo `2^32`. */
  lemma {:induction false} QueryParts(a: Matrix, s: Vector, e: Vector, row: nat, pb: nat, d: Vector)
    requires Shape(a, |e|, |s|) && 1 <= pb <= 31 && |d| == |e| && row < |e|
    ensures W(Dot(Query(a, s, e, row, pb), d)) == W(Dot(MatVec(a, s), d) + (Dot(e, d) + RoundPToQ(1, pb) * d[row]))
  {
    var n, step := |e|, RoundPToQ(1, pb);
    var mask := Plus(MatVec(a, s), Plus(e, Unit(n, row, step)));
    forall i | 0 <= i < n ensures W(Query(a, s, e, row, pb)[i]) == W(mask[i]) {
      WAdd(mask[i], 0);
    }
    DotCong(Query(a, s, e, row, pb), mask, d);
    hide MatVec, Query, Plus, Unit;
    DotComm(mask, d);
    DotPlus(d, MatVec(a, s), Plus(e, Unit(n, row, step)));
    DotPlus(d, e, Unit(n, row, step));
    DotComm(d, MatVec(a, s));
    DotComm(d, e);
    DotComm(d, Unit(n, row, step));
    DotUnit(n, row, step, d);
  }

  /** `sᵀ·H` is the masking part of the answer. */
  lemma {:induction false} HintMasks(a: Matrix, s: Vector, db: Matrix, width: nat, j: nat)
    requires Shape(a, |db|, |s|) && Shape(db, |db|, width) && j < width
    ensures W(Dot(s, Column(HintOf(a, db, |s|, width), j))) == W(Dot(MatVec(a, s), Column(db, j)))
  {
    var d, h := Column(db, j), Column(HintOf(a, db, |s|, width), j);
    forall k | 0 <= k < |s| ensures W(h[k]) == W(VecMat(d, a, |s|)[k]) {
      DotComm(Column(a, k), d);
      WAdd(Dot(d, Column(a, k)), 0);
    }
    DotCongBoth(s, s, h, VecMat(d, a, |s|));
    Exchange(a, s, d);
  }

  lemma {:induction false} Cancel(x: int, y: int, m: int, h: int)
    requires W(x) == W(m + y) && W(h) == W(m)
    ensures W(W(x) - h) == W(y)
  {
    WSub(W(x), h);
    WSub(W(x), m);
    WAdd(x, 0 - m);
    WAdd(m + y, 0 - m);
  }

  /** What is left of one answer cell after unmasking: the scaled plaintext and the noise. */
  lemma {:induction false} Residual(a: Matrix, s: Vector, e: Vector, row: nat, pb: nat, db: Matrix, width: nat, j: nat)
    requires Shape(a, |db|, |s|) && Shape(db, |db|, width) && |e| == |db| && row < |db| && j < width && 1 <= pb <= 31
    ensures var q := Query(a, s, e, row, pb);
            W(Answer(db, q, width)[j] - Dot(s, Column(HintOf(a, db, |s|, width), j)))
            == W(RoundPToQ(1, pb) * db[row][j] + Dot(e, Column(db, j)))
  {
    var d := Column(db, j);
    QueryParts(a, s, e, row, pb, d);
    HintMasks(a, s, db, width, j);
    Cancel(Dot(Query(a, s, e, row, pb), d), Dot(e, d) + RoundPToQ(1, pb) * d[row], Dot(MatVec(a, s), d),
           Dot(s, Column(HintOf(a, db, |s|, width), j)));
  }

  /** Decoding the answer with the current hint returns the queried row. */
  lemma {:induction false} DecodeRecovers(a: Matrix, s: Vector, q: seq<nat>, row: nat, pb: nat, db: Matrix, width: nat)
    requires IsQuery(q, a, s, row, pb) && |a| == |db| && Shape(db, |db|, width)
    requires CellsFit(db, pb) && NoiseBounded(|db|, pb)
    ensures DecodeCells(Answer(db, q, width), HintOf(a, db, |s|, width), s, pb) == db[row]
  {
    var e :| |e| == |a| && Ternary(e) && q == Query(a, s, e, row, pb);
    hide *;
    DecodeWith(a, s, e, row, pb, db, width);
  }

  lemma {:induction false} DecodeWith(a: Matrix, s: Vector, e: Vector, row: nat, pb: nat, db: Matrix, width: nat)
    requires Shape(a, |db|, |s|) && Shape(db, |db|, width) && |e| == |db| && Ternary(e) && row < |db|
    requires CellsFit(db, pb) && NoiseBounded(|db|, pb)
    ensures DecodeCells(Answer(db, Query(a, s, e, row, pb), width), HintOf(a, db, |s|, width), s, pb) == db[row]
  {
    var response, hint := Answer(db, Query(a, s, e, row, pb), width), HintOf(a, db, |s|, width);
    var cells := DecodeCells(response, hint, s, pb);
    assert |db[row]| == width && |cells| == |response| == width;
    hide *;
    forall j | 0 <= j < width ensures cells[j] == db[row][j] {
      DecodedAt(response, hint, s, pb, j);
      DecodeCell(a, s, e, row, pb, db, width, j);
    }
  }

  lemma {:induction false} DecodedAt(response: seq<nat>, hint: Matrix, s: Vector, pb: nat, j: nat)
    requires Shape(hint, |s|, |response|) && 1 <= pb <= 31 && j < |response|
    ensures DecodeCells(response, hint, s, pb)[j] == RoundQToP(W(response[j] - Dot(s, Column(hint, j))), pb)
  {
  }

  lemma {:induction false} DecodeCell(a: Matrix, s: Vector, e: Vector, row: nat, pb: nat, db: Matrix, width: nat,
                                      j: nat)
    requires Shape(a, |db|, |s|) && Shape(db, |db|, width) && |e| == |db| && Ternary(e) && row < |db| && j < width
    requires CellsFit(db, pb) && NoiseBounded(|db|, pb)
    ensures var q := Query(a, s, e, row, pb);
            RoundQToP(W(Answer(db, q, width)[j] - Dot(s, Column(HintOf(a, db, |s|, width), j))), pb) == db[row][j]
  {
    Residual(a, s, e, row, pb, db, width, j);
    NoiseSmall(e, Column(db, j), pb);
    ScaledCell(db[row][j], pb);
    assert 1 <= pb <= 31 && db[row][j] < Pow2(pb);
    hide *;
    RoundRecovers(db[row][j], Dot(e, Column(db, j)), pb);
  }

  lemma {:induction false} NoiseSmall(e: Vector, d: seq<nat>, pb: nat)
    requires Ternary(e) && |e| == |d| && NoiseBounded(|d|, pb)
    requires forall i :: 0 <= i < |d| ==> d[i] < Pow2(pb)
    ensures 0 - Pow2(31 - pb) <= Dot(e, d) < Pow2(31 - pb)
  {
    DotBound(e, d, Pow2(pb) - 1);
  }

  lemma {:induction false} ScaledCell(x: nat, pb: nat)
    requires 1 <= pb <= 31 && x < Pow2(pb)
    ensures RoundPToQ(1, pb) * x == RoundPToQ(x, pb)
  {
    assert 1 < Pow2(pb);
    ShlIsMul(1, 32 - pb, 32);
    ShlIsMul(x, 32 - pb, 32);
  }

  // ---------- following edits ----------

  /** The change from one database to another, cell by cell. */
  function Diff(db0: Matrix, db1: Matrix, rows: nat, width: nat): (r: seq<Vector>)
    requires Shape(db0, rows, width) && Shape(db1, rows, width)
    ensures |r| == rows && forall i :: 0 <= i < rows ==> |r[i]| == width
    ensures forall i, j :: 0 <= i < rows && 0 <= j < width ==> r[i][j] == Sub(db1[i][j], db0[i][j])
  {
    seq(rows, i requires 0 <= i < rows => seq(width, j requires 0 <= j < width => Sub(db1[i][j], db0[i][j])))
  }

  function Sub(x: int, y: int): int { x - y }

  ghost predicate DeltaShape(delta: seq<Vector>, rows: nat, width: nat) {
    |delta| == rows && forall i :: 0 <= i < rows ==> |delta[i]| == width
  }

  function DeltaColumn(delta: seq<Vector>, j: nat): (r: Vector)
    requires forall i :: 0 <= i < |delta| ==> j < |delta[i]|
    ensures |r| == |delta| && forall i :: 0 <= i < |delta| ==> r[i] == delta[i][j]
  {
    seq(|delta|, i requires 0 <= i < |delta| => delta[i][j])
  }

  /** `response - bᵀ·delta`. */
  function Rewind(response: seq<nat>, q: seq<nat>, delta: seq<Vector>): (r: seq<nat>)
    requires DeltaShape(delta, |q|, |response|)
    ensures |r| == |response|
  {
    seq(|response|, j requires 0 <= j < |response| => W(response[j] - Dot(q, DeltaColumn(delta, j))))
  }

  /** `H + aᵀ·delta`. */
  function PatchHint(hint: Matrix, a: Matrix, delta: seq<Vector>, dim: nat, width: nat): (h: Matrix)
    requires Shape(hint, dim, width) && Shape(a, |delta|, dim) && DeltaShape(delta, |delta|, width)
    ensures Shape(h, dim, width) && AreWords(h)
  {
    seq(dim, k requires 0 <= k < dim => PatchRow(hint[k], Column(a, k), delta))
  }

  /** One hint row with `uᵀ·delta` added. */
  function PatchRow(row: seq<nat>, u: seq<nat>, delta: seq<Vector>): (r: seq<nat>)
    requires |u| == |delta| && DeltaShape(delta, |delta|, |row|)
    ensures |r| == |row| && forall j :: 0 <= j < |r| ==> r[j] < U32
  {
    seq(|row|, j requires 0 <= j < |row| => W(row[j] + Dot(u, DeltaColumn(delta, j))))
  }

  /** A dot product with the new column is one with the old column plus one with the change. */
  lemma {:induction false} DotOfChange(u: Vector, db0: Matrix, db1: Matrix, width: nat, j: nat)
    requires Shape(db0, |u|, width) && Shape(db1, |u|, width) && j < width
    ensures Dot(u, Column(db1, j)) == Dot(u, Column(db0, j)) + Dot(u, DeltaColumn(Diff(db0, db1, |u|, width), j))
  {
    var change := DeltaColumn(Diff(db0, db1, |u|, width), j);
    assert Column(db1, j) == Plus(Column(db0, j), change);
    DotPlus(u, Column(db0, j), change);
  }

  /** Rewinding an answer over the edits since the pin gives the answer of the pinned database. */
  lemma {:induction false} RewindUndoes(q: seq<nat>, db0: Matrix, db1: Matrix, width: nat)
    requires Shape(db0, |q|, width) && Shape(db1, |q|, width)
    ensures Rewind(Answer(db1, q, width), q, Diff(db0, db1, |q|, width)) == Answer(db0, q, width)
  {
    var delta := Diff(db0, db1, |q|, width);
    forall j | 0 <= j < width ensures Rewind(Answer(db1, q, width), q, delta)[j] == Answer(db0, q, width)[j] {
      DotOfChange(q, db0, db1, width, j);
      WAdd(Dot(q, Column(db1, j)), 0 - Dot(q, DeltaColumn(delta, j)));
    }
  }

  /** Patching the hint with the edits gives the hint of the edited database. */
  lemma {:induction false} PatchFollows(a: Matrix, db0: Matrix, db1: Matrix, dim: nat, width: nat)
    requires Shape(a, |db0|, dim) && Shape(db0, |db0|, width) && Shape(db1, |db0|, width)
    ensures PatchHint(HintOf(a, db0, dim, width), a, Diff(db0, db1, |db0|, width), dim, width)
         == HintOf(a, db1, dim, width)
  {
    var delta := Diff(db0, db1, |db0|, width);
    var patched, h1 := PatchHint(HintOf(a, db0, dim, width), a, delta, dim, width), HintOf(a, db1, dim, width);
    forall k | 0 <= k < dim ensures patched[k] == h1[k] {
      forall j | 0 <= j < width ensures patched[k][j] == h1[k][j] {
        HintCellFollows(Column(a, k), db0, db1, width, j);
      }
    }
  }

  lemma {:induction false} HintCellFollows(u: Vector, db0: Matrix, db1: Matrix, width: nat, j: nat)
    requires Shape(db0, |u|, width) && Shape(db1, |u|, width) && j < width
    ensures W(W(Dot(u, Column(db0, j))) + Dot(u, DeltaColumn(Diff(db0, db1, |u|, width), j)))
         == W(Dot(u, Column(db1, j)))
  {
    DotOfChange(u, db0, db1, width, j);
    WAdd(Dot(u, Column(db0, j)), Dot(u, DeltaColumn(Diff(db0, db1, |u|, width), j)));
  }

  /** Rewinding and patching agree: both clients decode the same row. */
  lemma {:induction false} RewoundDecodes(a: Matrix, s: Vector, q: seq<nat>, row: nat, pb: nat, db0: Matrix,
                                          db1: Matrix, width: nat)
    requires IsQuery(q, a, s, row, pb) && |a| == |db0| && Shape(db0, |db0|, width) && Shape(db1, |db0|, width)
    requires CellsFit(db0, pb) && NoiseBounded(|db0|, pb)
    ensures |q| == |db0|
    ensures var corrected := Rewind(Answer(db1, q, width), q, Diff(db0, db1, |db0|, width));
            DecodeCells(corrected, HintOf(a, db0, |s|, width), s, pb) == db0[row]
  {
    RewindUndoes(q, db0, db1, width);
    DecodeRecovers(a, s, q, row, pb, db0, width);
  }
}
