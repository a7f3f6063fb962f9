/** Integer vectors and matrices, and arithmetic modulo `2^32`.

    A matrix is a sequence of rows.  Everything the backend computes is a dot product reduced modulo
    `2^32`, so the theorems are proved over the integers and reduced at the end. */
module LinearAlgebra {
  import opened Words

  type Vector = seq<int>
  type Matrix = seq<seq<nat>>

  /** Reduction to a u32 word. */
  function W(x: int): (r: nat)
    ensures r < U32
  {
    x % U32
  }

  lemma {:induction false} WShift(x: int, k: int)
    ensures W(x + U32 * k) == W(x)
  {
    var q, r := x / U32, x % U32;
    DivModUnique(x + U32 * k, U32, q + k, r);
  }

  lemma {:induction false} WAdd(x: int, y: int)
    ensures W(W(x) + y) == W(x + y)
  {
    WShift(W(x) + y, x / U32);
  }

  lemma {:induction false} WSub(x: int, y: int)
    ensures W(x - W(y)) == W(x - y)
  {
    WShift(x - W(y), -(y / U32));
  }

  lemma {:induction false} WMul(x: int, y: int)
    ensures W(W(x) * y) == W(x * y)
  {
    var q := x / U32;
    assert x == U32 * q + W(x);
    assert x * y == W(x) * y + U32 * (q * y);
    WShift(W(x) * y, q * y);
  }

  // ---------- dot products ----------

  function Dot(u: Vector, v: Vector): int
    requires |u| == |v|
  {
    if |u| == 0 then 0 else Dot(u[..|u| - 1], v[..|v| - 1]) + u[|u| - 1] * v[|v| - 1]
  }

  function Plus(u: Vector, v: Vector): (r: Vector)
    requires |u| == |v|
    ensures |r| == |u| && forall i :: 0 <= i < |u| ==> r[i] == u[i] + v[i]
  {
    seq(|u|, i requires 0 <= i < |u| => u[i] + v[i])
  }

  function Scale(c: int, v: Vector): (r: Vector)
    ensures |r| == |v| && forall i :: 0 <= i < |v| ==> r[i] == c * v[i]
  {
    seq(|v|, i requires 0 <= i < |v| => c * v[i])
  }

  /** `c` at position `at`, zero elsewhere. */
  function Unit(n: nat, at: nat, c: int): (r: Vector)
    ensures |r| == n && forall i :: 0 <= i < n ==> r[i] == if i == at then c else 0
  {
    seq(n, i requires 0 <= i < n => if i == at then c else 0)
  }

  lemma {:induction false} DotComm(u: Vector, v: Vector)
    requires |u| == |v|
    ensures Dot(u, v) == Dot(v, u)
  {
    if |u| > 0 { DotComm(u[..|u| - 1], v[..|v| - 1]); }
  }

  lemma {:induction false} DotPlus(u: Vector, v: Vector, w: Vector)
    requires |u| == |v| == |w|
    ensures Dot(u, Plus(v, w)) == Dot(u, v) + Dot(u, w)
  {
    var n := |u|;
    if n > 0 {
      DotPlus(u[..n - 1], v[..n - 1], w[..n - 1]);
      assert Plus(v, w)[..n - 1] == Plus(v[..n - 1], w[..n - 1]);
      assert u[n - 1] * (v[n - 1] + w[n - 1]) == u[n - 1] * v[n - 1] + u[n - 1] * w[n - 1];
    }
  }

  lemma {:induction false} DotScale(u: Vector, c: int, v: Vector)
    requires |u| == |v|
    ensures Dot(u, Scale(c, v)) == c * Dot(u, v)
  {
    var n := |u|;
    if n > 0 {
      DotScale(u[..n - 1], c, v[..n - 1]);
      assert Scale(c, v)[..n - 1] == Scale(c, v[..n - 1]);
      assert u[n - 1] * (c * v[n - 1]) == c * (u[n - 1] * v[n - 1]);
      var d, t := Dot(u[..n - 1], v[..n - 1]), u[n - 1] * v[n - 1];
      assert c * (d + t) == c * d + c * t;
    }
  }

  lemma {:induction false} DotUnit(n: nat, at: nat, c: int, v: Vector)
    requires |v| == n
    ensures Dot(Unit(n, at, c), v) == if at < n then c * v[at] else 0
  {
    if n > 0 {
      DotUnit(n - 1, at, c, v[..n - 1]);
      assert Unit(n, at, c)[..n - 1] == Unit(n - 1, at, c);
    }
  }

  /** Dot products depend on the factors only modulo `2^32`. */
  lemma {:induction false} DotCong(u: Vector, u': Vector, v: Vector)
    requires |u| == |u'| == |v|
    requires forall i :: 0 <= i < |u| ==> W(u[i]) == W(u'[i])
    ensures W(Dot(u, v)) == W(Dot(u', v))
  {
    var n := |u|;
    if n > 0 {
      DotCong(u[..n - 1], u'[..n - 1], v[..n - 1]);
      var d, d', x, x', y := Dot(u[..n - 1], v[..n - 1]), Dot(u'[..n - 1], v[..n - 1]), u[n - 1], u'[n - 1], v[n - 1];
      WMul(x, y);
      WMul(x', y);
      WAdd(d, x * y);
      WAdd(d', x' * y);
      WAdd(x * y, W(d));
      WAdd(x' * y, W(d'));
    }
  }

  lemma {:induction false} DotCongBoth(u: Vector, u': Vector, v: Vector, v': Vector)
    requires |u| == |u'| == |v| == |v'|
    requires forall i :: 0 <= i < |u| ==> W(u[i]) == W(u'[i])
    requires forall i :: 0 <= i < |u| ==> W(v[i]) == W(v'[i])
    ensures W(Dot(u, v)) == W(Dot(u', v'))
  {
    DotCong(u, u', v);
    DotComm(u', v);
    DotCong(v, v', u');
    DotComm(u', v');
  }

  /** A vector of signs against a vector of cells: the noise of one answer cell. */
  lemma {:induction false} DotBound(e: Vector, v: Vector, max: nat)
    requires |e| == |v|
    requires forall i :: 0 <= i < |e| ==> -1 <= e[i] <= 1
    requires forall i :: 0 <= i < |v| ==> 0 <= v[i] <= max
    ensures 0 - |e| * max <= Dot(e, v) <= |e| * max
  {
    var n := |e|;
    if n > 0 {
      DotBound(e[..n - 1], v[..n - 1], max);
      assert 0 - max <= e[n - 1] * v[n - 1] <= max;
      assert n * max == (n - 1) * max + max;
    }
  }

  // ---------- matrices ----------

  ghost predicate Shape(m: Matrix, rows: nat, cols: nat) {
    |m| == rows && forall i :: 0 <= i < rows ==> |m[i]| == cols
  }

  function Column(m: Matrix, j: nat): (r: seq<nat>)
    requires forall i :: 0 <= i < |m| ==> j < |m[i]|
    ensures |r| == |m| && forall i :: 0 <= i < |m| ==> r[i] == m[i][j]
  {
    seq(|m|, i requires 0 <= i < |m| => m[i][j])
  }

  /** `m · s`. */
  function MatVec(m: Matrix, s: Vector): (r: Vector)
    requires Shape(m, |m|, |s|)
    ensures |r| == |m| && forall i :: 0 <= i < |m| ==> r[i] == Dot(m[i], s)
  {
    seq(|m|, i requires 0 <= i < |m| => Dot(m[i], s))
  }

  /** `vᵀ · m`. */
  function VecMat(v: Vector, m: Matrix, cols: nat): (r: Vector)
    requires Shape(m, |v|, cols)
    ensures |r| == cols && forall j :: 0 <= j < cols ==> r[j] == Dot(v, Column(m, j))
  {
    seq(cols, j requires 0 <= j < cols => Dot(v, Column(m, j)))
  }

  /** The last row's share of `vᵀ · m`. */
  lemma {:induction false} VecMatLast(d: Vector, m: Matrix, cols: nat)
    requires |d| > 0 && Shape(m, |d|, cols)
    ensures VecMat(d, m, cols) == Plus(VecMat(d[..|d| - 1], m[..|d| - 1], cols), Scale(d[|d| - 1], m[|d| - 1]))
  {
    var n := |d|;
    var part, added := VecMat(d[..n - 1], m[..n - 1], cols), Scale(d[n - 1], m[n - 1]);
    forall j | 0 <= j < cols ensures VecMat(d, m, cols)[j] == part[j] + added[j] {
      assert Column(m, j)[..n - 1] == Column(m[..n - 1], j);
    }
  }

  /** `(m·s) · d == s · (dᵀ·m)`: the exchange of sums behind every hint. */
  lemma {:induction false} Exchange(m: Matrix, s: Vector, d: Vector)
    requires Shape(m, |d|, |s|)
    ensures Dot(MatVec(m, s), d) == Dot(s, VecMat(d, m, |s|))
  {
    var n := |d|;
    if n == 0 {
      ZeroDot(s, VecMat(d, m, |s|));
    } else {
      var part, last, row := VecMat(d[..n - 1], m[..n - 1], |s|), d[n - 1], m[n - 1];
      Exchange(m[..n - 1], s, d[..n - 1]);
      assert MatVec(m, s)[..n - 1] == MatVec(m[..n - 1], s);
      VecMatLast(d, m, |s|);
      hide VecMat, MatVec, Plus, Scale;
      ExchangeStep(s, part, last, row);
    }
  }

  lemma {:induction false} ExchangeStep(s: Vector, part: Vector, last: int, row: Vector)
    requires |s| == |part| == |row|
    ensures Dot(s, Plus(part, Scale(last, row))) == Dot(s, part) + Dot(row, s) * last
  {
    DotPlus(s, part, Scale(last, row));
    DotScale(s, last, row);
    DotComm(row, s);
  }

  lemma {:induction false} ZeroDot(u: Vector, v: Vector)
    requires |u| == |v| && forall i :: 0 <= i < |v| ==> v[i] == 0
    ensures Dot(u, v) == 0
  {
    if |u| > 0 { ZeroDot(u[..|u| - 1], v[..|v| - 1]); }
  }
}
