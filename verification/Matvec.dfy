/** The blocked matrix-vector kernel and the backend steps built on it, over flat row-major buffers. */
module Matvec {
  import opened Words
  import opened LinearAlgebra
  import opened Lwe

  /** Cell `(i, j)` of a row-major matrix. */
  function At(d: seq<nat>, width: nat, i: nat, j: nat): nat {
    if i * width + j < |d| then d[i * width + j] else 0
  }

  lemma {:induction false} AtInside(d: seq<nat>, width: nat, n: nat, i: nat, j: nat)
    requires |d| == n * width && i < n && j < width
    ensures i * width + j < |d| && At(d, width, i, j) == d[i * width + j]
  {
    MulMonotone(width, i + 1, n);
    assert width * (i + 1) == i * width + width;
  }

  /** The first `n` cells of column `j`. */
  function FlatColumn(d: seq<nat>, width: nat, n: nat, j: nat): (r: seq<nat>)
    ensures |r| == n && forall i :: 0 <= i < n ==> r[i] == At(d, width, i, j)
  {
    seq(n, i requires 0 <= i < n => At(d, width, i, j))
  }

  /** The accumulator cell after the first `n` rows. */
  function Partial(a0: nat, q: seq<nat>, d: seq<nat>, width: nat, j: nat, n: nat): nat
    requires n <= |q|
  {
    W(a0 + Dot(q[..n], FlatColumn(d, width, n, j)))
  }

  lemma {:induction false} PartialNext(a0: nat, q: seq<nat>, d: seq<nat>, width: nat, j: nat, n: nat)
    requires n < |q|
    ensures Partial(a0, q, d, width, j, n + 1) == W(Partial(a0, q, d, width, j, n) + W(q[n] * At(d, width, n, j)))
  {
    assert q[..n + 1][..n] == q[..n];
    assert FlatColumn(d, width, n + 1, j)[..n] == FlatColumn(d, width, n, j);
    var sum, term := a0 + Dot(q[..n], FlatColumn(d, width, n, j)), q[n] * At(d, width, n, j);
    assert Dot(q[..n + 1], FlatColumn(d, width, n + 1, j)) == Dot(q[..n], FlatColumn(d, width, n, j)) + term;
    WAdd(sum, W(term));
    WAdd(term, sum);
  }

  /** Rows `from` to `from + count` folded into one accumulator cell. */
  method FoldRows(x0: nat, d: seq<nat>, q: seq<nat>, width: nat, j: nat, from: nat, count: nat, ghost a0: nat)
      returns (x: nat)
    requires from + count <= |q| && |d| == |q| * width && j < width
    requires x0 == Partial(a0, q, d, width, j, from)
    ensures x == Partial(a0, q, d, width, j, from + count)
  {
    x := x0;
    for r := 0 to count
      invariant x == Partial(a0, q, d, width, j, from + r)
    {
      PartialNext(a0, q, d, width, j, from + r);
      AtInside(d, width, |q|, from + r, j);
      x := W(x + W(q[from + r] * d[(from + r) * width + j]));
    }
  }

  /** One pass over the accumulator: rows `from` to `from + count` into every cell. */
  method FoldBlock(acc: array<nat>, d: seq<nat>, q: seq<nat>, from: nat, count: nat, ghost a0: seq<nat>)
    requires from + count <= |q| && |d| == |q| * acc.Length && |a0| == acc.Length
    requires forall j :: 0 <= j < acc.Length ==> acc[j] == Partial(a0[j], q, d, acc.Length, j, from)
    modifies acc
    ensures forall j :: 0 <= j < acc.Length ==> acc[j] == Partial(a0[j], q, d, acc.Length, j, from + count)
  {
    for j := 0 to acc.Length
      invariant forall k :: 0 <= k < j ==> acc[k] == Partial(a0[k], q, d, acc.Length, k, from + count)
      invariant forall k :: j <= k < acc.Length ==> acc[k] == Partial(a0[k], q, d, acc.Length, k, from)
    {
      var x := FoldRows(acc[j], d, q, acc.Length, j, from, count, a0[j]);
      acc[j] := x;
    }
  }

  /** Fold `blockRows` rows per pass, then the remaining rows one at a time: the plain product, for
      every block size and every tail. */
  method BlockPass(blockRows: nat, acc: array<nat>, d: seq<nat>, q: seq<nat>)
    requires blockRows > 0 && |d| == |q| * acc.Length
    requires forall j :: 0 <= j < acc.Length ==> acc[j] < U32
    modifies acc
    ensures forall j :: 0 <= j < acc.Length ==>
              acc[j] == W(old(acc[j]) + Dot(q, FlatColumn(d, acc.Length, |q|, j)))
  {
    ghost var a0 := acc[..];
    forall j | 0 <= j < acc.Length ensures acc[j] == Partial(a0[j], q, d, acc.Length, j, 0) {
      NothingFolded(a0[j], q, d, acc.Length, j);
    }
    var n, row := |q|, 0;
    while row + blockRows <= n
      invariant 0 <= row <= n
      invariant forall j :: 0 <= j < acc.Length ==> acc[j] == Partial(a0[j], q, d, acc.Length, j, row)
    {
      FoldBlock(acc, d, q, row, blockRows, a0);
      row := row + blockRows;
    }
    while row < n
      invariant 0 <= row <= n
      invariant forall j :: 0 <= j < acc.Length ==> acc[j] == Partial(a0[j], q, d, acc.Length, j, row)
    {
      FoldBlock(acc, d, q, row, 1, a0);
      row := row + 1;
    }
    assert q[..n] == q;
  }

  lemma {:induction false} NothingFolded(a0: nat, q: seq<nat>, d: seq<nat>, width: nat, j: nat)
    requires a0 < U32
    ensures Partial(a0, q, d, width, j, 0) == a0
  {
  }

  /** Block size by accumulator width and target. */
  method MatvecAccumulate(acc: array<nat>, d: seq<nat>, q: seq<nat>, x86: bool)
    requires |d| == |q| * acc.Length
    requires forall j :: 0 <= j < acc.Length ==> acc[j] < U32
    modifies acc
    ensures forall j :: 0 <= j < acc.Length ==>
              acc[j] == W(old(acc[j]) + Dot(q, FlatColumn(d, acc.Length, |q|, j)))
  {
    var width := acc.Length;
    if width == 0 { return; }
    var blockRows :=
      if width <= 128 then 16
      else if x86 then (if width <= 4096 then 1 else 8)
      else if width <= 256 then 8 else if width <= 512 then 4 else if width <= 1024 then 2 else 1;
    BlockPass(blockRows, acc, d, q);
  }

  // ---------- backend steps ----------

  /** `d` is the row-major form of `m`. */
  ghost predicate IsFlat(d: seq<nat>, m: Matrix, width: nat) {
    && |d| == |m| * width
    && Shape(m, |m|, width)
    && forall i, j :: 0 <= i < |m| && 0 <= j < width ==> At(d, width, i, j) == m[i][j]
  }

  /** The rows of a matrix, one after another. */
  function RowMajor(m: Matrix, width: nat): (d: seq<nat>)
    requires Shape(m, |m|, width)
    ensures |d| == |m| * width
  {
    if m == [] then [] else
    assert Shape(m[..|m| - 1], |m| - 1, width);
    assert |m| * width == (|m| - 1) * width + width;
    RowMajor(m[..|m| - 1], width) + m[|m| - 1]
  }

  lemma {:induction false} RowMajorIsFlat(m: Matrix, width: nat)
    requires Shape(m, |m|, width)
    ensures IsFlat(RowMajor(m, width), m, width)
  {
    if m != [] {
      var n, init := |m| - 1, m[..|m| - 1];
      RowMajorIsFlat(init, width);
      var d, rest := RowMajor(m, width), RowMajor(init, width);
      assert d == rest + m[n];
      forall i, j | 0 <= i < |m| && 0 <= j < width ensures At(d, width, i, j) == m[i][j] {
        AtInside(d, width, |m|, i, j);
        if i < n { AtInside(rest, width, n, i, j); }
      }
    }
  }

  lemma {:induction false} ColumnsAgree(d: seq<nat>, m: Matrix, width: nat, j: nat)
    requires IsFlat(d, m, width) && j < width
    ensures FlatColumn(d, width, |m|, j) == Column(m, j)
  {
  }

  /** The server's answer. */
  method ServerAnswer(db: seq<nat>, width: nat, query: seq<nat>, x86: bool, ghost m: Matrix) returns (a: array<nat>)
    requires IsFlat(db, m, width) && |query| == |m|
    ensures fresh(a) && a[..] == Answer(m, query, width)
  {
    a := new nat[width](_ => 0);
    MatvecAccumulate(a, db, query, x86);
    forall j | 0 <= j < width ensures a[j] == Answer(m, query, width)[j] { ColumnsAgree(db, m, width, j); }
  }

  lemma {:induction false} Negated(s: seq<nat>, neg: seq<nat>, h: seq<nat>, x: int)
    requires |s| == |neg| == |h| && forall k :: 0 <= k < |s| ==> neg[k] == W(Sub(0, s[k]))
    ensures W(x + Dot(neg, h)) == W(x - Dot(s, h))
  {
    var minus := Scale(-1, s);
    forall k | 0 <= k < |s| ensures W(neg[k]) == W(minus[k]) { WAdd(Sub(0, s[k]), 0); }
    DotCong(neg, minus, h);
    DotComm(minus, h);
    DotScale(h, -1, s);
    DotComm(h, s);
    WAdd(Dot(neg, h), x);
    WAdd(0 - Dot(s, h), x);
  }

  /** The client's decoding: subtracting `sᵀ·H` as adding `(-s)ᵀ·H`, then rounding every cell. */
  method ClientDecode(response: seq<nat>, hint: seq<nat>, secret: seq<nat>, pb: nat, x86: bool, ghost h: Matrix)
      returns (cells: array<nat>)
    requires 1 <= pb <= 31 && IsFlat(hint, h, |response|) && |secret| == |h|
    requires forall j :: 0 <= j < |response| ==> response[j] < U32
    ensures fresh(cells) && cells[..] == DecodeCells(response, h, secret, pb)
  {
    var width := |response|;
    cells := new nat[width](j requires 0 <= j < width => response[j]);
    var negSecret: seq<nat> := seq(|secret|, k requires 0 <= k < |secret| => W(Sub(0, secret[k])));
    MatvecAccumulate(cells, hint, negSecret, x86);
    forall j | 0 <= j < width ensures cells[j] == W(response[j] - Dot(secret, Column(h, j))) {
      ColumnsAgree(hint, h, width, j);
      Negated(secret, negSecret, Column(h, j), response[j]);
    }
    RoundCells(cells, pb);
  }

  method RoundCells(cells: array<nat>, pb: nat)
    requires 1 <= pb <= 31
    modifies cells
    ensures forall j :: 0 <= j < cells.Length ==> cells[j] == RoundQToP(old(cells[j]), pb)
  {
    for j := 0 to cells.Length
      invariant forall k :: 0 <= k < j ==> cells[k] == RoundQToP(old(cells[k]), pb)
      invariant forall k :: j <= k < cells.Length ==> cells[k] == old(cells[k])
    {
      cells[j] := RoundQToP(cells[j], pb);
    }
  }
}
