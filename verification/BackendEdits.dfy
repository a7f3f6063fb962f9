/** Following edits in place: patching a hint matrix and rewinding a response. */
module BackendEdits {
  import opened Words
  import opened WireFormat
  import opened LinearAlgebra
  import opened Lwe
  import opened Deltas
  import OrderedKeys

  datatype HintPatchMode = EntryLevel | RowLevel

  // ---------- one row ----------

  /** A hint cell with one row's edit added. */
  function Patched(h: nat, aik: nat, delta: int): nat { W(h + aik * delta) }

  lemma {:induction false} PatchedMore(h: nat, aik: nat, x: int, y: int)
    ensures Patched(h, aik, x + y) == W(Patched(h, aik, x) + W(aik * W(y)))
  {
    assert aik * (x + y) == aik * x + aik * y;
    WAdd(h + aik * x, W(aik * W(y)));
    WMul(y, aik);
    assert aik * W(y) == W(y) * aik && aik * y == y * aik;
    WAdd(aik * y, h + aik * x);
    WAdd(aik * W(y), h + aik * x);
  }

  /** Entry level: every listed cell into every hint row. */
  method PatchRowByEntry(h: array2<nat>, aRow: seq<nat>, cells: seq<Cell>)
    requires |aRow| == h.Length0 && CellsInRange(cells, h.Length1)
    requires forall k, j :: 0 <= k < h.Length0 && 0 <= j < h.Length1 ==> h[k, j] < U32
    modifies h
    ensures forall k, j :: 0 <= k < h.Length0 && 0 <= j < h.Length1 ==>
              h[k, j] == Patched(old(h[k, j]), aRow[k], CellsAt(cells, j))
  {
    for k := 0 to h.Length0
      invariant forall r, j :: 0 <= r < k && 0 <= j < h.Length1 ==>
           h[r, j] == Patched(old(h[r, j]), aRow[r], CellsAt(cells, j))
      invariant forall r, j :: k <= r < h.Length0 && 0 <= j < h.Length1 ==> h[r, j] == old(h[r, j])
    {
      PatchOneRow(h, k, aRow[k], cells);
    }
  }

  method PatchOneRow(h: array2<nat>, k: nat, aik: nat, cells: seq<Cell>)
    requires k < h.Length0 && CellsInRange(cells, h.Length1)
    requires forall j :: 0 <= j < h.Length1 ==> h[k, j] < U32
    modifies h
    ensures forall j :: 0 <= j < h.Length1 ==> h[k, j] == Patched(old(h[k, j]), aik, CellsAt(cells, j))
    ensures forall r, j :: 0 <= r < h.Length0 && 0 <= j < h.Length1 && r != k ==> h[r, j] == old(h[r, j])
  {
    for c := 0 to |cells|
      invariant forall j :: 0 <= j < h.Length1 ==> h[k, j] == Patched(old(h[k, j]), aik, CellsAt(cells[..c], j))
      invariant forall r, j :: 0 <= r < h.Length0 && 0 <= j < h.Length1 && r != k ==> h[r, j] == old(h[r, j])
    {
      var off, delta := cells[c].offset, cells[c].delta;
      assert cells[..c + 1][..c] == cells[..c];
      PatchedMore(old(h[k, off]), aik, CellsAt(cells[..c], off), delta);
      h[k, off] := W(h[k, off] + W(aik * W(delta)));
    }
    assert cells[..|cells|] == cells;
  }

  /** Row level: the edits densified first, then added across every hint row. */
  method PatchRowDense(h: array2<nat>, aRow: seq<nat>, cells: seq<Cell>)
    requires |aRow| == h.Length0 && CellsInRange(cells, h.Length1)
    requires forall k, j :: 0 <= k < h.Length0 && 0 <= j < h.Length1 ==> h[k, j] < U32
    modifies h
    ensures forall k, j :: 0 <= k < h.Length0 && 0 <= j < h.Length1 ==>
              h[k, j] == Patched(old(h[k, j]), aRow[k], CellsAt(cells, j))
  {
    var deltaRow := DenseRow(cells, h.Length1);
    for k := 0 to h.Length0
      invariant forall r, j :: 0 <= r < k && 0 <= j < h.Length1 ==>
           h[r, j] == Patched(old(h[r, j]), aRow[r], CellsAt(cells, j))
      invariant forall r, j :: k <= r < h.Length0 && 0 <= j < h.Length1 ==> h[r, j] == old(h[r, j])
    {
      for j := 0 to h.Length1
        invariant forall r, c :: 0 <= r < k && 0 <= c < h.Length1 ==>
             h[r, c] == Patched(old(h[r, c]), aRow[r], CellsAt(cells, c))
        invariant forall c :: 0 <= c < j ==> h[k, c] == Patched(old(h[k, c]), aRow[k], CellsAt(cells, c))
        invariant forall c :: j <= c < h.Length1 ==> h[k, c] == old(h[k, c])
        invariant forall r, c :: k < r < h.Length0 && 0 <= c < h.Length1 ==> h[r, c] == old(h[r, c])
      {
        PatchedMore(h[k, j], aRow[k], 0, CellsAt(cells, j));
        PatchedZero(h[k, j], aRow[k]);
        h[k, j] := W(h[k, j] + W(aRow[k] * deltaRow[j]));
      }
    }
  }

  lemma {:induction false} PatchedZero(h: nat, aik: nat)
    requires h < U32
    ensures Patched(h, aik, 0) == h
  {
  }

  method DenseRow(cells: seq<Cell>, width: nat) returns (r: seq<nat>)
    requires CellsInRange(cells, width)
    ensures |r| == width && forall j :: 0 <= j < width ==> r[j] == W(CellsAt(cells, j))
  {
    r := seq(width, _ => 0);
    for c := 0 to |cells|
      invariant |r| == width && forall j :: 0 <= j < width ==> r[j] == W(CellsAt(cells[..c], j))
    {
      var off, delta := cells[c].offset, cells[c].delta;
      assert cells[..c + 1][..c] == cells[..c];
      WAdd(CellsAt(cells[..c], off), W(delta));
      WAdd(delta, CellsAt(cells[..c], off));
      r := r[off := W(r[off] + W(delta))];
    }
    assert cells[..|cells|] == cells;
  }

  // ---------- a whole segment ----------

  /** The contents of a hint buffer. */
  function Contents(h: array2<nat>): (m: Matrix)
    reads h
    ensures |m| == h.Length0 && forall k :: 0 <= k < h.Length0 ==> |m[k]| == h.Length1
    ensures forall k, j :: 0 <= k < h.Length0 && 0 <= j < h.Length1 ==> m[k][j] == h[k, j]
  {
    seq(h.Length0, k requires 0 <= k < h.Length0 reads h =>
      seq(h.Length1, j requires 0 <= j < h.Length1 reads h => h[k, j]))
  }

  /** One more row entry is one more unit column. */
  lemma {:induction false} RowsColumnNext(rows: SegmentRowDeltas, i: nat, n: nat, width: nat, u: Vector, j: nat)
    requires i < |rows| && rows[i].row < n && |u| == n && j < width
    ensures Dot(u, DeltaColumn(RowsDense(rows[..i + 1], n, width), j))
         == Dot(u, DeltaColumn(RowsDense(rows[..i], n, width), j)) + u[rows[i].row] * CellsAt(rows[i].cells, j)
  {
    var before, after := DeltaColumn(RowsDense(rows[..i], n, width), j),
        DeltaColumn(RowsDense(rows[..i + 1], n, width), j);
    var change := Unit(n, rows[i].row, CellsAt(rows[i].cells, j));
    assert rows[..i + 1][..i] == rows[..i];
    assert after == Plus(before, change);
    DotPlus(u, before, change);
    DotComm(u, change);
    DotUnit(n, rows[i].row, CellsAt(rows[i].cells, j), u);
  }

  lemma {:induction false} NoRowsColumn(n: nat, width: nat, u: Vector, j: nat)
    requires |u| == n && j < width
    ensures Dot(u, DeltaColumn(RowsDense([], n, width), j)) == 0
  {
    ZeroDot(u, DeltaColumn(RowsDense([], n, width), j));
  }

  /** A hint cell after the first `i` row entries. */
  ghost function PatchedUpTo(h0: nat, u: Vector, rows: SegmentRowDeltas, i: nat, n: nat, width: nat, j: nat): nat
    requires i <= |rows| && |u| == n && j < width
  {
    W(h0 + Dot(u, DeltaColumn(RowsDense(rows[..i], n, width), j)))
  }

  lemma {:induction false} PatchedNext(h0: nat, u: Vector, rows: SegmentRowDeltas, i: nat, n: nat, width: nat, j: nat)
    requires i < |rows| && |u| == n && j < width && rows[i].row < n && u[rows[i].row] >= 0
    ensures Patched(PatchedUpTo(h0, u, rows, i, n, width, j), u[rows[i].row], CellsAt(rows[i].cells, j))
         == PatchedUpTo(h0, u, rows, i + 1, n, width, j)
  {
    RowsColumnNext(rows, i, n, width, u, j);
    WAdd(h0 + Dot(u, DeltaColumn(RowsDense(rows[..i], n, width), j)), u[rows[i].row] * CellsAt(rows[i].cells, j));
  }

  /** Both modes compute `H + aᵀ·delta`. */
  method PatchHintInPlace(h: array2<nat>, a: Matrix, rows: SegmentRowDeltas, mode: HintPatchMode)
    requires Shape(a, |a|, h.Length0) && RowsInRange(rows, |a|, h.Length1)
    requires forall k, j :: 0 <= k < h.Length0 && 0 <= j < h.Length1 ==> h[k, j] < U32
    modifies h
    ensures Contents(h) == PatchHint(old(Contents(h)), a, RowsDense(rows, |a|, h.Length1), h.Length0, h.Length1)
  {
    ghost var n, w := |a|, h.Length1;
    ghost var h0 := Contents(h);
    forall k, j | 0 <= k < h.Length0 && 0 <= j < w
      ensures h[k, j] == PatchedUpTo(h0[k][j], Column(a, k), rows, 0, n, w, j)
    {
      NoRowsColumn(n, w, Column(a, k), j);
    }
    for i := 0 to |rows|
      invariant forall k, j :: 0 <= k < h.Length0 && 0 <= j < w ==>
           h[k, j] == PatchedUpTo(h0[k][j], Column(a, k), rows, i, n, w, j)
    {
      var aRow := a[rows[i].row];
      match mode {
        case EntryLevel => PatchRowByEntry(h, aRow, rows[i].cells);
        case RowLevel => PatchRowDense(h, aRow, rows[i].cells);
      }
      forall k, j | 0 <= k < h.Length0 && 0 <= j < w
        ensures h[k, j] == PatchedUpTo(h0[k][j], Column(a, k), rows, i + 1, n, w, j)
      {
        PatchedNext(h0[k][j], Column(a, k), rows, i, n, w, j);
      }
    }
    assert rows[..|rows|] == rows;
    ghost var patched := PatchHint(h0, a, RowsDense(rows, n, w), h.Length0, w);
    forall k | 0 <= k < h.Length0 ensures Contents(h)[k] == patched[k] {
    }
  }

  /** A patched copy of a hint. */
  method PatchedHint(hint: Matrix, a: Matrix, rows: SegmentRowDeltas, mode: HintPatchMode, dim: nat, width: nat)
      returns (h: Matrix)
    requires Shape(hint, dim, width) && AreWords(hint) && Shape(a, |a|, dim) && RowsInRange(rows, |a|, width)
    ensures h == PatchHint(hint, a, RowsDense(rows, |a|, width), dim, width)
  {
    var buf := new nat[dim, width]((k, j) requires 0 <= k < dim && 0 <= j < width => hint[k][j]);
    assert Contents(buf) == hint by {
      forall k | 0 <= k < dim ensures Contents(buf)[k] == hint[k] {
      }
    }
    PatchHintInPlace(buf, a, rows, mode);
    h := Contents(buf);
  }

  // ---------- rewinding ----------

  /** The edits of column `j` whose key is among `keys`. */
  function KeyColumn(keys: seq<(nat, nat)>, m: DeltaMap, n: nat, j: nat): (r: Vector)
    ensures |r| == n && forall i :: 0 <= i < n ==> r[i] == if (i, j) in keys then MapAt(m, i, j) else 0
  {
    seq(n, i requires 0 <= i < n => if (i, j) in keys then MapAt(m, i, j) else 0)
  }

  lemma {:induction false} KeyColumnNext(keys: seq<(nat, nat)>, i: nat, m: DeltaMap, q: seq<nat>, j: nat)
    requires i < |keys| && OrderedKeys.InOrder(keys) && keys[i] in m && keys[i].0 < |q|
    ensures Dot(q, KeyColumn(keys[..i + 1], m, |q|, j))
         == Dot(q, KeyColumn(keys[..i], m, |q|, j)) + (if j == keys[i].1 then q[keys[i].0] * m[keys[i]] else 0)
  {
    var n, key := |q|, keys[i];
    var before, after := KeyColumn(keys[..i], m, n, j), KeyColumn(keys[..i + 1], m, n, j);
    var change := Unit(n, key.0, if j == key.1 then m[key] else 0);
    assert keys[..i + 1] == keys[..i] + [key];
    forall k | 0 <= k < i ensures keys[k] != key { assert OrderedKeys.Less(keys[k], keys[i]); }
    assert after == Plus(before, change);
    DotPlus(q, before, change);
    DotComm(q, change);
    DotUnit(n, key.0, if j == key.1 then m[key] else 0, q);
  }

  /** Subtract `bᵀ·delta`, one edit at a time. */
  method RewindResponse(query: seq<nat>, resp: array<nat>, deltas: DeltaMap)
    requires forall k :: k in deltas ==> k.0 < |query| && k.1 < resp.Length
    requires forall j :: 0 <= j < resp.Length ==> resp[j] < U32
    modifies resp
    ensures resp[..] == Rewind(old(resp[..]), query, MapDense(deltas, |query|, resp.Length))
  {
    ghost var r0 := resp[..];
    var keys := OrderedKeys.KeysInOrder(deltas.Keys);
    forall k | 0 <= k < |keys| ensures keys[k] in deltas { assert keys[k] in keys; }
    forall j | 0 <= j < resp.Length ensures resp[j] == Rewound(r0[j], query, keys[..0], deltas, j) {
      ZeroDot(query, KeyColumn([], deltas, |query|, j));
    }
    for i := 0 to |keys|
      invariant forall j :: 0 <= j < resp.Length ==> resp[j] == Rewound(r0[j], query, keys[..i], deltas, j)
    {
      RewindOne(query, resp, deltas, keys, i, r0);
    }
    AllRewound(r0, resp[..], query, keys, deltas);
  }

  /** Subtract one edit. */
  method RewindOne(query: seq<nat>, resp: array<nat>, deltas: DeltaMap, keys: seq<(nat, nat)>, i: nat,
                   ghost r0: seq<nat>)
    requires OrderedKeys.InOrder(keys) && i < |keys| && |r0| == resp.Length
    requires forall k :: 0 <= k < |keys| ==> keys[k] in deltas
    requires keys[i].0 < |query| && keys[i].1 < resp.Length
    requires forall j :: 0 <= j < resp.Length ==> resp[j] == Rewound(r0[j], query, keys[..i], deltas, j)
    modifies resp
    ensures forall j :: 0 <= j < resp.Length ==> resp[j] == Rewound(r0[j], query, keys[..i + 1], deltas, j)
  {
    var (row, off) := keys[i];
    forall j | 0 <= j < resp.Length
      ensures Rewound(r0[j], query, keys[..i + 1], deltas, j)
           == if j == off then W(resp[j] - W(query[row] * W(deltas[keys[i]]))) else resp[j]
    {
      RewoundNext(r0[j], query, keys, i, deltas, j);
    }
    resp[off] := W(resp[off] - W(query[row] * W(deltas[keys[i]])));
  }

  lemma {:induction false} AllRewound(r0: seq<nat>, resp: seq<nat>, query: seq<nat>, keys: seq<(nat, nat)>,
                                      deltas: DeltaMap)
    requires |resp| == |r0| && forall k :: k in keys <==> k in deltas
    requires forall j :: 0 <= j < |resp| ==> resp[j] == Rewound(r0[j], query, keys[..|keys|], deltas, j)
    ensures resp == Rewind(r0, query, MapDense(deltas, |query|, |resp|))
  {
    assert keys[..|keys|] == keys;
    hide Dot, W, MapAt;
    forall j | 0 <= j < |resp| ensures resp[j] == Rewind(r0, query, MapDense(deltas, |query|, |resp|))[j] {
      assert KeyColumn(keys, deltas, |query|, j) == DeltaColumn(MapDense(deltas, |query|, |resp|), j);
    }
  }

  ghost function Rewound(r0: nat, query: seq<nat>, keys: seq<(nat, nat)>, deltas: DeltaMap, j: nat): nat {
    W(r0 - Dot(query, KeyColumn(keys, deltas, |query|, j)))
  }

  lemma {:induction false} RewoundNext(r0: nat, query: seq<nat>, keys: seq<(nat, nat)>, i: nat, deltas: DeltaMap,
                                       j: nat)
    requires i < |keys| && OrderedKeys.InOrder(keys) && keys[i] in deltas && keys[i].0 < |query|
    ensures Rewound(r0, query, keys[..i + 1], deltas, j)
         == if j == keys[i].1 then
               W(Rewound(r0, query, keys[..i], deltas, j) - W(query[keys[i].0] * W(deltas[keys[i]])))
            else Rewound(r0, query, keys[..i], deltas, j)
  {
    KeyColumnNext(keys, i, deltas, query, j);
    hide KeyColumn, Dot, W;
    RewindTerm(r0 - Dot(query, KeyColumn(keys[..i], deltas, |query|, j)), query[keys[i].0], deltas[keys[i]]);
  }

  /** Subtracting the reduced product of the reduced edit is subtracting the product. */
  lemma {:induction false} RewindTerm(x: int, b: nat, d: int)
    ensures W(W(x) - W(b * W(d))) == W(x - b * d)
  {
    WSub(W(x), b * W(d));
    WAdd(x, 0 - b * W(d));
    WMul(d, b);
    assert W(d) * b == b * W(d) && d * b == b * d;
    WSub(x, b * d);
    WSub(x, b * W(d));
  }
}
