/** The wire format is canonical: decoding inverts encoding on every canonical bundle, and every
    accepted input is the encoding of the bundle it decodes to. */
module WireRoundTrip {
  import opened Words
  import opened Geometry
  import opened WireFormat

  // ---------- fields ----------

  lemma {:induction false} FieldRoundTrip(v: nat, w: nat, rest: seq<bool>)
    requires v < Pow2(w)
    ensures ReadField(Bits(v, w) + rest, w) == Ok(v, rest)
  {
    var bs := Bits(v, w) + rest;
    assert bs[..w] == Bits(v, w) && bs[w..] == rest;
    ValOfBits(v, w);
  }

  lemma {:induction false} FieldCanonical(bs: seq<bool>, w: nat)
    ensures var r := ReadField(bs, w);
            r.Ok? ==> r.value < Pow2(w) && bs == Bits(r.value, w) + r.rest
  {
    if w <= |bs| {
      BitsOfVal(bs[..w]);
      ValBound(bs[..w]);
      assert bs == bs[..w] + bs[w..];
    }
  }

  lemma {:induction false} FlagRoundTrip(b: bool, rest: seq<bool>)
    ensures ReadField([b] + rest, 1) == Ok(if b then 1 else 0, rest)
  {
    var bs := [b] + rest;
    assert bs[..1] == [b] && bs[1..] == rest;
    assert [b][1..] == [];
    assert Val([b]) == (if b then 1 else 0);
  }

  lemma {:induction false} FlagCanonical(bs: seq<bool>)
    ensures var r := ReadField(bs, 1);
            r.Ok? ==> bs == [r.value != 0] + r.rest
  {
    if bs != [] {
      assert bs == [bs[0]] + bs[1..];
      FlagRoundTrip(bs[0], bs[1..]);
    }
  }

  // ---------- delta literals ----------

  ghost predicate InRange(ds: seq<int>, l: DeltaWireLayout) {
    forall i :: 0 <= i < |ds| ==> -l.Modulus() < ds[i] < l.Modulus()
  }

  lemma {:induction false} DeltasRoundTrip(ds: seq<int>, l: DeltaWireLayout, rest: seq<bool>)
    requires l.Sound() && InRange(ds, l)
    ensures ParseDeltas(DeltaListBits(ds, l) + rest, |ds|, l) == Ok(ds, rest)
  {
    if ds == [] {
      assert DeltaListBits(ds, l) + rest == rest;
    } else {
      var code := ds[0] + (l.Modulus() - 1);
      var tail := DeltaListBits(ds[1..], l) + rest;
      assert DeltaListBits(ds, l) + rest == Bits(code, l.deltaBits) + tail;
      assert Pow2(l.deltaBits) == 2 * l.Modulus();
      FieldRoundTrip(code, l.deltaBits, tail);
      DeltasRoundTrip(ds[1..], l, rest);
      assert [ds[0]] + ds[1..] == ds;
    }
  }

  lemma {:induction false} DeltasCanonical(bs: seq<bool>, n: nat, l: DeltaWireLayout)
    requires l.Sound()
    ensures var r := ParseDeltas(bs, n, l);
            r.Ok? ==> InRange(r.value, l) && bs == DeltaListBits(r.value, l) + r.rest
  {
    var r := ParseDeltas(bs, n, l);
    if r.Ok? && n > 0 {
      FieldCanonical(bs, l.deltaBits);
      var f := ReadField(bs, l.deltaBits);
      DeltasCanonical(f.rest, n - 1, l);
      var ds := ParseDeltas(f.rest, n - 1, l).value;
      assert r.value[1..] == ds;
      assert forall i :: 0 < i < |r.value| ==> r.value[i] == ds[i - 1];
      assert DeltaListBits(r.value, l) == Bits(f.value, l.deltaBits) + DeltaListBits(ds, l);
      hide *;
      Concat(Bits(f.value, l.deltaBits), DeltaListBits(ds, l), r.rest);
    }
  }

  // ---------- one run: dense literals and sparse edits ----------

  /** Neighbours are close enough to share a run. */
  ghost predicate Joined(run: seq<Cell>, maxGap: nat) {
    |run| > 1 ==> run[1].offset - run[0].offset - 1 <= maxGap && Joined(run[1..], maxGap)
  }

  ghost predicate NonZero(run: seq<Cell>) {
    forall i :: 0 <= i < |run| ==> run[i].delta != 0
  }

  lemma {:induction false} SparseSkipsZeros(n: nat, ds: seq<int>, start: nat)
    ensures Sparse(Zeros(n) + ds, start) == Sparse(ds, start + n)
  {
    if n == 0 {
      assert Zeros(0) + ds == ds;
    } else {
      assert (Zeros(n) + ds)[1..] == Zeros(n - 1) + ds;
      SparseSkipsZeros(n - 1, ds, start + 1);
    }
  }

  lemma {:induction false} ZerosBeforeNonZero(n: nat, ds: seq<int>, current: nat)
    requires ds != [] && ds[0] != 0
    ensures MaxZeroRun(Zeros(n) + ds, current) == Max(if n == 0 then 0 else current + n, MaxZeroRun(ds, 0))
  {
    if n == 0 {
      assert Zeros(0) + ds == ds;
    } else {
      assert (Zeros(n) + ds)[1..] == Zeros(n - 1) + ds;
      ZerosBeforeNonZero(n - 1, ds, current + 1);
    }
  }

  /** Filling the gaps of a run and dropping the zeros again gives the run back. */
  lemma {:induction false} SparseOfDense(run: seq<Cell>, maxGap: nat)
    requires run != [] && Ascending(run) && NonZero(run) && Joined(run, maxGap)
    ensures var ds := Dense(run);
            && |ds| == run[|run| - 1].offset - run[0].offset + 1
            && ds[0] != 0 && ds[|ds| - 1] != 0
            && MaxZeroRun(ds, 0) <= maxGap
            && Sparse(ds, run[0].offset) == run
  {
    var ds := Dense(run);
    if |run| == 1 {
      assert ds[1..] == [];
      assert run == [Cell(run[0].offset, run[0].delta)];
    } else {
      SparseOfDense(run[1..], maxGap);
      assert run[0].offset < run[1].offset;
      var gap, tail := run[1].offset - run[0].offset - 1, Dense(run[1..]);
      assert ds == [run[0].delta] + Zeros(gap) + tail;
      assert run[|run| - 1] == run[1..][|run| - 2];
      assert run == [run[0]] + run[1..];
      hide Dense, Joined, Ascending, NonZero;
      DenseCons(run[0].delta, gap, tail, run[0].offset, maxGap);
    }
  }

  lemma {:induction false} DenseCons(d: int, gap: nat, tail: seq<int>, start: nat, maxGap: nat)
    requires d != 0 && gap <= maxGap && tail != [] && tail[0] != 0 && MaxZeroRun(tail, 0) <= maxGap
    ensures var ds := [d] + Zeros(gap) + tail;
            && |ds| == 1 + gap + |tail| && ds[0] == d && ds[|ds| - 1] == tail[|tail| - 1]
            && MaxZeroRun(ds, 0) <= maxGap
            && Sparse(ds, start) == [Cell(start, d)] + Sparse(tail, start + 1 + gap)
  {
    var ds := [d] + Zeros(gap) + tail;
    assert ds[1..] == Zeros(gap) + tail;
    SparseSkipsZeros(gap, tail, start + 1);
    ZerosBeforeNonZero(gap, tail, 0);
  }

  lemma {:induction false} SplitLeadingZeros(ds: seq<int>) returns (gap: nat, tail: seq<int>)
    requires ds != [] && ds[|ds| - 1] != 0
    ensures tail != [] && tail[0] != 0 && tail[|tail| - 1] != 0 && |tail| <= |ds|
    ensures ds == Zeros(gap) + tail
  {
    if ds[0] != 0 {
      gap, tail := 0, ds;
    } else {
      gap, tail := SplitLeadingZeros(ds[1..]);
      gap := gap + 1;
      assert ds == [0] + ds[1..];
      assert Zeros(gap) == [0] + Zeros(gap - 1);
    }
  }

  lemma {:induction false} SparseCons(d: int, gap: nat, tail: seq<int>, start: nat)
    requires d != 0
    ensures Sparse([d] + Zeros(gap) + tail, start) == [Cell(start, d)] + Sparse(tail, start + 1 + gap)
  {
    assert ([d] + Zeros(gap) + tail)[1..] == Zeros(gap) + tail;
    SparseSkipsZeros(gap, tail, start + 1);
  }

  lemma {:induction false} RunCons(c: Cell, run: seq<Cell>, maxGap: nat)
    requires run != [] && Ascending(run) && NonZero(run) && Joined(run, maxGap)
    requires c.delta != 0 && 0 <= run[0].offset - c.offset - 1 <= maxGap
    ensures var r := [c] + run;
            && Ascending(r) && NonZero(r) && Joined(r, maxGap)
            && Dense(r) == [c.delta] + Zeros(run[0].offset - c.offset - 1) + Dense(run)
  {
    assert ([c] + run)[1..] == run;
  }

  /** `run` is a run of edits whose filled form is `ds`. */
  ghost predicate Fills(run: seq<Cell>, ds: seq<int>, start: nat, maxGap: nat) {
    && run != [] && Ascending(run) && NonZero(run) && Joined(run, maxGap)
    && run[0].offset == start && run[|run| - 1].offset == start + |ds| - 1
    && Dense(run) == ds
  }

  lemma {:induction false} FillsMore(d: int, gap: nat, tail: seq<int>, run: seq<Cell>, start: nat, maxGap: nat)
    requires d != 0 && gap <= maxGap && Fills(run, tail, start + 1 + gap, maxGap)
    ensures Fills([Cell(start, d)] + run, [d] + Zeros(gap) + tail, start, maxGap)
  {
    hide Dense;
    RunCons(Cell(start, d), run, maxGap);
  }

  /** Literals a decoder accepts are exactly the filled form of the edits it keeps. */
  lemma {:induction false} DenseOfSparse(ds: seq<int>, start: nat, maxGap: nat)
    requires ds != [] && ds[0] != 0 && ds[|ds| - 1] != 0 && MaxZeroRun(ds, 0) <= maxGap
    ensures Fills(Sparse(ds, start), ds, start, maxGap)
    decreases |ds|
  {
    if |ds| == 1 {
      assert ds[1..] == [] && Sparse(ds, start) == [Cell(start, ds[0])];
    } else {
      var gap, tail := SplitLeadingZeros(ds[1..]);
      assert ds == [ds[0]] + Zeros(gap) + tail;
      ZerosBeforeNonZero(gap, tail, 0);
      assert MaxZeroRun(ds, 0) == MaxZeroRun(ds[1..], 0);
      hide *;
      DenseOfSparse(tail, start + 1 + gap, maxGap);
      SparseCons(ds[0], gap, tail, start);
      FillsMore(ds[0], gap, tail, Sparse(tail, start + 1 + gap), start, maxGap);
    }
  }

  lemma {:induction false} SparseInRange(ds: seq<int>, start: nat, l: DeltaWireLayout)
    requires InRange(ds, l)
    ensures forall i :: 0 <= i < |Sparse(ds, start)| ==> -l.Modulus() < Sparse(ds, start)[i].delta < l.Modulus()
  {
    if ds != [] { SparseInRange(ds[1..], start + 1, l); }
  }

  // ---------- run boundaries ----------

  lemma {:induction false} FirstRunBoundary(cells: seq<Cell>, maxGap: nat)
    requires cells != [] && Ascending(cells) && NonZero(cells)
    ensures var n := FirstRun(cells, maxGap);
            && Joined(cells[..n], maxGap) && Ascending(cells[..n]) && NonZero(cells[..n])
            && (n < |cells| ==> cells[n].offset - cells[n - 1].offset - 1 > maxGap)
    decreases |cells|
  {
    var n := FirstRun(cells, maxGap);
    if n > 1 {
      FirstRunBoundary(cells[1..], maxGap);
      assert cells[..n][1..] == cells[1..][..n - 1];
    } else if n < |cells| {
      assert cells[1].offset - cells[0].offset - 1 > maxGap;
    }
  }

  lemma {:induction false} FirstRunUnique(run: seq<Cell>, tail: seq<Cell>, maxGap: nat)
    requires run != [] && Ascending(run) && NonZero(run) && Joined(run, maxGap)
    requires tail != [] ==> tail[0].offset - run[|run| - 1].offset - 1 > maxGap
    ensures FirstRun(run + tail, maxGap) == |run|
    decreases |run|
  {
    var cells := run + tail;
    if |run| == 1 {
      if tail != [] { assert cells[1] == tail[0]; }
    } else {
      assert cells[1] == run[1];
      assert cells[1..] == run[1..] + tail;
      FirstRunUnique(run[1..], tail, maxGap);
    }
  }

  lemma {:induction false} CanonicalParts(cells: seq<Cell>, l: DeltaWireLayout)
    requires CanonicalCells(cells, l)
    ensures Ascending(cells) && NonZero(cells)
  {
    forall i | 0 <= i < |cells| ensures cells[i].delta != 0 { assert CellInRange(cells[i], l); }
  }

  // ---------- runs ----------

  lemma {:induction false} ParseRunFields(
    bs: seq<bool>, start: nat, bs1: seq<bool>, lenMinus1: nat, bs2: seq<bool>, deltas: seq<int>, rest: seq<bool>,
    prevEnd: Option<nat>, l: DeltaWireLayout)
    requires ReadField(bs, l.offsetBits) == Ok(start, bs1)
    requires ReadField(bs1, l.offsetBits) == Ok(lenMinus1, bs2)
    requires ParseDeltas(bs2, lenMinus1 + 1, l) == Ok(deltas, rest)
    requires start + lenMinus1 < l.rowWidth && SeparatedFrom(prevEnd, start, l) && WellFormedRun(deltas, l)
    ensures ParseRun(bs, prevEnd, l) == Ok((start, deltas), rest)
  {
  }

  lemma {:induction false} LiteralsOfRun(run: seq<Cell>, l: DeltaWireLayout)
    requires CanonicalCells(run, l) && Joined(run, l.maxGap)
    ensures var start, ds := run[0].offset, Dense(run);
            && InRange(ds, l) && WellFormedRun(ds, l)
            && start + |ds| == run[|run| - 1].offset + 1 <= l.rowWidth
            && Sparse(ds, start) == run
            && RunBits(run, l) == Bits(start, l.offsetBits) + Bits(|ds| - 1, l.offsetBits) + DeltaListBits(ds, l)
  {
    CanonicalParts(run, l);
    SparseOfDense(run, l.maxGap);
    DenseInRange(run, l);
    assert CellInRange(run[|run| - 1], l);
  }

  lemma {:induction false} RunRoundTrip(run: seq<Cell>, prevEnd: Option<nat>, l: DeltaWireLayout, rest: seq<bool>)
    requires l.Sound() && CanonicalCells(run, l) && Joined(run, l.maxGap)
    requires SeparatedFrom(prevEnd, run[0].offset, l)
    ensures ParseRun(RunBits(run, l) + rest, prevEnd, l) == Ok((run[0].offset, Dense(run)), rest)
    ensures Sparse(Dense(run), run[0].offset) == run
    ensures run[0].offset + |Dense(run)| == run[|run| - 1].offset + 1
  {
    LiteralsOfRun(run, l);
    RunFieldsRoundTrip(run[0].offset, Dense(run), prevEnd, l, rest);
  }

  lemma {:induction false} RunFieldsRoundTrip(start: nat, ds: seq<int>, prevEnd: Option<nat>, l: DeltaWireLayout,
                                              rest: seq<bool>)
    requires l.Sound() && InRange(ds, l) && WellFormedRun(ds, l)
    requires start + |ds| <= l.rowWidth && SeparatedFrom(prevEnd, start, l)
    ensures ParseRun(Bits(start, l.offsetBits) + Bits(|ds| - 1, l.offsetBits) + DeltaListBits(ds, l) + rest, prevEnd, l)
         == Ok((start, ds), rest)
  {
    var a, b, c := Bits(start, l.offsetBits), Bits(|ds| - 1, l.offsetBits), DeltaListBits(ds, l);
    assert a + b + c + rest == a + (b + (c + rest));
    FieldRoundTrip(start, l.offsetBits, b + (c + rest));
    FieldRoundTrip(|ds| - 1, l.offsetBits, c + rest);
    DeltasRoundTrip(ds, l, rest);
    ParseRunFields(a + b + c + rest, start, b + (c + rest), |ds| - 1, c + rest, ds, rest, prevEnd, l);
  }

  lemma {:induction false} RunFieldsCanonical(bs: seq<bool>, prevEnd: Option<nat>, l: DeltaWireLayout)
    requires l.Sound()
    ensures var r := ParseRun(bs, prevEnd, l);
            r.Ok? ==>
              var start, ds := r.value.0, r.value.1;
              && InRange(ds, l) && WellFormedRun(ds, l)
              && start + |ds| <= l.rowWidth && SeparatedFrom(prevEnd, start, l)
              && bs == Bits(start, l.offsetBits) + Bits(|ds| - 1, l.offsetBits) + DeltaListBits(ds, l) + r.rest
  {
    var r := ParseRun(bs, prevEnd, l);
    if r.Ok? {
      var start, ds := r.value.0, r.value.1;
      FieldCanonical(bs, l.offsetBits);
      var bs1 := ReadField(bs, l.offsetBits).rest;
      FieldCanonical(bs1, l.offsetBits);
      var bs2 := ReadField(bs1, l.offsetBits).rest;
      DeltasCanonical(bs2, |ds|, l);
      hide ParseRun, ReadField, ParseDeltas, Bits, DeltaListBits, WellFormedRun, InRange;
      ThreeParts(Bits(start, l.offsetBits), Bits(|ds| - 1, l.offsetBits), DeltaListBits(ds, l), r.rest);
    }
  }

  lemma {:induction false} ThreeParts(a: seq<bool>, b: seq<bool>, c: seq<bool>, rest: seq<bool>)
    ensures a + (b + (c + rest)) == a + b + c + rest
  {
  }

  lemma {:induction false} RunCanonical(bs: seq<bool>, prevEnd: Option<nat>, l: DeltaWireLayout)
    requires l.Sound()
    ensures var r := ParseRun(bs, prevEnd, l);
            r.Ok? ==>
              var run := Sparse(r.value.1, r.value.0);
              && CanonicalCells(run, l) && Joined(run, l.maxGap)
              && run[0].offset == r.value.0 && SeparatedFrom(prevEnd, run[0].offset, l)
              && run[|run| - 1].offset + 1 == r.value.0 + |r.value.1|
              && bs == RunBits(run, l) + r.rest
  {
    var r := ParseRun(bs, prevEnd, l);
    if r.Ok? {
      RunFieldsCanonical(bs, prevEnd, l);
      RunOfLiterals(r.value.0, r.value.1, l);
    }
  }

  lemma {:induction false} RunOfLiterals(start: nat, ds: seq<int>, l: DeltaWireLayout)
    requires l.Sound() && InRange(ds, l) && WellFormedRun(ds, l) && start + |ds| <= l.rowWidth
    ensures var run := Sparse(ds, start);
            && CanonicalCells(run, l) && Joined(run, l.maxGap)
            && run[0].offset == start && run[|run| - 1].offset + 1 == start + |ds|
            && RunBits(run, l) == Bits(start, l.offsetBits) + Bits(|ds| - 1, l.offsetBits) + DeltaListBits(ds, l)
  {
    DenseOfSparse(ds, start, l.maxGap);
    SparseInRange(ds, start, l);
    var run := Sparse(ds, start);
    forall i | 0 <= i < |run| ensures CellInRange(run[i], l) {
      assert run[i].offset <= run[|run| - 1].offset;
    }
  }

  lemma {:induction false} ParseRunsStep(bs: seq<bool>, prevEnd: Option<nat>, l: DeltaWireLayout, start: nat,
                                         ds: seq<int>,
                      more: bool, rest: seq<bool>)
    requires ds != []
    requires ParseRun(bs, prevEnd, l) == Ok((start, ds), [more] + rest)
    ensures !more ==> ParseRuns(bs, prevEnd, l) == Ok(Sparse(ds, start), rest)
    ensures more ==>
              var tail := ParseRuns(rest, Some(start + |ds|), l);
              ParseRuns(bs, prevEnd, l) == (if tail.Ok? then Ok(Sparse(ds, start) + tail.value, tail.rest) else tail)
  {
    FlagRoundTrip(more, rest);
  }

  lemma {:induction false} Concat(a: seq<bool>, b: seq<bool>, c: seq<bool>)
    ensures a + b + c == a + (b + c)
  {
  }

  lemma {:induction false} RunsRoundTrip(cells: seq<Cell>, prevEnd: Option<nat>, l: DeltaWireLayout, rest: seq<bool>)
    requires l.Sound() && CanonicalCells(cells, l)
    requires SeparatedFrom(prevEnd, cells[0].offset, l)
    ensures ParseRuns(RunListBits(cells, l) + rest, prevEnd, l) == Ok(cells, rest)
    decreases |cells|
  {
    CanonicalParts(cells, l);
    var run, tail := SplitFirstRun(cells, l);
    var start, ds := run[0].offset, Dense(run);
    if tail == [] {
      RunRoundTrip(run, prevEnd, l, [false] + rest);
      LastRun(run, l);
      Concat(RunBits(run, l), [false], rest);
      ParseRunsStep(RunListBits(cells, l) + rest, prevEnd, l, start, ds, false, rest);
    } else {
      var tailBits := RunListBits(tail, l);
      RunRoundTrip(run, prevEnd, l, [true] + (tailBits + rest));
      RunsRoundTrip(tail, Some(start + |ds|), l, rest);
      JoinRuns(run, tail, l);
      Concat(RunBits(run, l), [true], tailBits);
      Concat(RunBits(run, l), [true] + tailBits, rest);
      Concat([true], tailBits, rest);
      ParseRunsStep(RunListBits(cells, l) + rest, prevEnd, l, start, ds, true, tailBits + rest);
    }
  }

  lemma {:induction false} SplitFirstRun(cells: seq<Cell>, l: DeltaWireLayout) returns (run: seq<Cell>, tail: seq<Cell>)
    requires CanonicalCells(cells, l)
    ensures cells == run + tail && CanonicalCells(run, l) && Joined(run, l.maxGap) && |tail| < |cells|
    ensures tail == [] ==> run == cells
    ensures tail != [] ==> CanonicalCells(tail, l) && tail[0].offset - run[|run| - 1].offset - 1 > l.maxGap
  {
    CanonicalParts(cells, l);
    FirstRunBoundary(cells, l.maxGap);
    var n := FirstRun(cells, l.maxGap);
    run, tail := cells[..n], cells[n..];
  }

  /** How an accepted run list starts. */
  lemma {:induction false} ParseRunsParts(bs: seq<bool>, prevEnd: Option<nat>, l: DeltaWireLayout)
    returns (start: nat, ds: seq<int>, more: bool, bs2: seq<bool>)
    requires ParseRuns(bs, prevEnd, l).Ok?
    ensures ds != [] && |bs2| < |bs| && ParseRun(bs, prevEnd, l) == Ok((start, ds), [more] + bs2)
    ensures var r := ParseRuns(bs, prevEnd, l);
            if more then
              var t := ParseRuns(bs2, Some(start + |ds|), l);
              t.Ok? && r == Ok(Sparse(ds, start) + t.value, t.rest)
            else r == Ok(Sparse(ds, start), bs2)
  {
    var p := ParseRun(bs, prevEnd, l);
    start, ds := p.value.0, p.value.1;
    FlagCanonical(p.rest);
    more, bs2 := ReadField(p.rest, 1).value != 0, ReadField(p.rest, 1).rest;
  }

  lemma {:induction false} RunsCanonical(bs: seq<bool>, prevEnd: Option<nat>, l: DeltaWireLayout)
    requires l.Sound() && ParseRuns(bs, prevEnd, l).Ok?
    ensures var r := ParseRuns(bs, prevEnd, l);
            && CanonicalCells(r.value, l) && SeparatedFrom(prevEnd, r.value[0].offset, l)
            && bs == RunListBits(r.value, l) + r.rest
    decreases |bs|
  {
    var start, ds, more, bs2 := ParseRunsParts(bs, prevEnd, l);
    RunCanonical(bs, prevEnd, l);
    var run := Sparse(ds, start);
    if more {
      var end := Some(start + |ds|);
      RunsCanonical(bs2, end, l);
      var t := ParseRuns(bs2, end, l);
      JoinRuns(run, t.value, l);
      ChainBits(bs, RunBits(run, l), RunListBits(t.value, l), t.rest);
    } else {
      LastRun(run, l);
      Concat(RunBits(run, l), [false], bs2);
    }
  }

  lemma {:induction false} ChainBits(bs: seq<bool>, run: seq<bool>, tail: seq<bool>, rest: seq<bool>)
    requires bs == run + ([true] + (tail + rest))
    ensures bs == run + [true] + tail + rest
  {
  }

  lemma {:induction false} LastRun(run: seq<Cell>, l: DeltaWireLayout)
    requires CanonicalCells(run, l) && Joined(run, l.maxGap)
    ensures RunListBits(run, l) == RunBits(run, l) + [false]
  {
    CanonicalParts(run, l);
    FirstRunUnique(run, [], l.maxGap);
    assert run + [] == run && run[..|run|] == run;
  }

  lemma {:induction false} JoinRuns(run: seq<Cell>, tail: seq<Cell>, l: DeltaWireLayout)
    requires CanonicalCells(run, l) && Joined(run, l.maxGap) && CanonicalCells(tail, l)
    requires tail[0].offset - run[|run| - 1].offset - 1 > l.maxGap
    ensures CanonicalCells(run + tail, l)
    ensures RunListBits(run + tail, l) == RunBits(run, l) + [true] + RunListBits(tail, l)
  {
    var cells := run + tail;
    CanonicalParts(run, l);
    FirstRunUnique(run, tail, l.maxGap);
    assert cells[..|run|] == run && cells[|run|..] == tail;
    CanonicalJoined(run, tail, l);
    hide *;
    TwoRuns(cells, |run|, l);
  }

  lemma {:induction false} CanonicalJoined(run: seq<Cell>, tail: seq<Cell>, l: DeltaWireLayout)
    requires CanonicalCells(run, l) && CanonicalCells(tail, l)
    requires tail[0].offset > run[|run| - 1].offset
    ensures CanonicalCells(run + tail, l)
  {
  }

  lemma {:induction false} TwoRuns(cells: seq<Cell>, n: nat, l: DeltaWireLayout)
    requires CanonicalCells(cells, l) && 0 < n < |cells| && FirstRun(cells, l.maxGap) == n
    requires CanonicalCells(cells[..n], l) && CanonicalCells(cells[n..], l)
    ensures RunListBits(cells, l) == RunBits(cells[..n], l) + [true] + RunListBits(cells[n..], l)
  {
    ThreeParts(RunBits(cells[..n], l), [true], RunListBits(cells[n..], l), []);
    assert RunListBits(cells[n..], l) + [] == RunListBits(cells[n..], l);
  }
}
