/** The run-splitting rule is optimal: among all ways to cover the non-zero cells of a row by
    disjoint runs that start and end on non-zero cells, the rule of `RowRuns` costs the fewest bits.
    It is the only optimal cover exactly when no gap of the row costs the same bridged as split. */
module WireCost {
  import opened Words
  import opened Geometry
  import opened WireFormat
  import opened WireRoundTrip
  import opened WireSize

  /** Cells `first .. last` of a row, both included. */
  datatype Interval = Interval(first: nat, last: nat)

  ghost predicate OnCell(offset: nat, cells: seq<Cell>) {
    exists i :: 0 <= i < |cells| && cells[i].offset == offset
  }

  ghost predicate Inside(offset: nat, cover: seq<Interval>) {
    exists k :: 0 <= k < |cover| && cover[k].first <= offset <= cover[k].last
  }

  /** Runs start and end on non-zero cells. */
  ghost predicate OnCells(cover: seq<Interval>, cells: seq<Cell>) {
    forall k :: 0 <= k < |cover| ==>
      cover[k].first <= cover[k].last && OnCell(cover[k].first, cells) && OnCell(cover[k].last, cells)
  }

  ghost predicate Disjoint(cover: seq<Interval>) {
    forall j, k :: 0 <= j < k < |cover| ==> cover[j].last < cover[k].first
  }

  ghost predicate CoversAll(cover: seq<Interval>, cells: seq<Cell>) {
    forall offset: nat {:trigger Inside(offset, cover)} :: OnCell(offset, cells) ==> Inside(offset, cover)
  }

  /** A legal cover of a row. */
  ghost predicate IsCover(cover: seq<Interval>, cells: seq<Cell>) {
    OnCells(cover, cells) && Disjoint(cover) && CoversAll(cover, cells)
  }

  function RunHead(l: DeltaWireLayout): nat { 2 * l.offsetBits + 1 }

  /** Bits a cover costs: a head per run and a literal per covered cell. */
  function Cost(cover: seq<Interval>, l: DeltaWireLayout): int {
    if cover == [] then 0
    else RunHead(l) + (cover[0].last - cover[0].first + 1) * l.deltaBits + Cost(cover[1..], l)
  }

  /** The cover `encode` uses. */
  function CanonicalCover(cells: seq<Cell>, maxGap: nat): seq<Interval> {
    if cells == [] then [] else
    var n := FirstRun(cells, maxGap);
    [Interval(cells[0].offset, cells[n - 1].offset)] + CanonicalCover(cells[n..], maxGap)
  }

  // ---------- covers as one decision per gap ----------

  function Gap(cells: seq<Cell>, i: nat): int
    requires i + 1 < |cells|
  {
    cells[i + 1].offset - cells[i].offset - 1
  }

  /** The cover that bridges gap `i` exactly when `bridge[i]`. */
  function CoverOf(cells: seq<Cell>, bridge: seq<bool>): (cover: seq<Interval>)
    requires |cells| == |bridge| + 1
    ensures cover != []
  {
    var o := cells[0].offset;
    if bridge == [] then [Interval(o, o)] else
    var t := CoverOf(cells[1..], bridge[1..]);
    if bridge[0] then [Interval(o, t[0].last)] + t[1..] else [Interval(o, o)] + t
  }

  function GapCost(gap: int, bridged: bool, l: DeltaWireLayout): int {
    if bridged then gap * l.deltaBits else RunHead(l)
  }

  function ChoiceCost(cells: seq<Cell>, bridge: seq<bool>, l: DeltaWireLayout): int
    requires |cells| == |bridge| + 1
  {
    if bridge == [] then RunHead(l) + l.deltaBits
    else l.deltaBits + GapCost(Gap(cells, 0), bridge[0], l) + ChoiceCost(cells[1..], bridge[1..], l)
  }

  function Greedy(cells: seq<Cell>, maxGap: nat): (bridge: seq<bool>)
    requires cells != []
    ensures |cells| == |bridge| + 1
  {
    if |cells| == 1 then [] else [Gap(cells, 0) <= maxGap] + Greedy(cells[1..], maxGap)
  }

  lemma {:induction false} CoverOfStart(cells: seq<Cell>, bridge: seq<bool>)
    requires |cells| == |bridge| + 1 && Ascending(cells)
    ensures CoverOf(cells, bridge)[0].first == cells[0].offset <= CoverOf(cells, bridge)[0].last
  {
    if bridge != [] { CoverOfStart(cells[1..], bridge[1..]); }
  }

  lemma {:induction false} WidenFirst(first: nat, next: nat, last: nat, rest: seq<Interval>, l: DeltaWireLayout)
    ensures Cost([Interval(first, last)] + rest, l)
         == Cost([Interval(next, last)] + rest, l) + (next - first) * l.deltaBits
  {
    assert ([Interval(first, last)] + rest)[1..] == rest;
    assert ([Interval(next, last)] + rest)[1..] == rest;
    assert (last - first + 1) * l.deltaBits == (last - next + 1) * l.deltaBits + (next - first) * l.deltaBits;
  }

  lemma {:induction false} CostOfChoice(cells: seq<Cell>, bridge: seq<bool>, l: DeltaWireLayout)
    requires |cells| == |bridge| + 1 && Ascending(cells)
    ensures Cost(CoverOf(cells, bridge), l) == ChoiceCost(cells, bridge, l)
  {
    var o, cover := cells[0].offset, CoverOf(cells, bridge);
    if bridge == [] {
      assert cover[1..] == [];
    } else {
      CostOfChoice(cells[1..], bridge[1..], l);
      var t := CoverOf(cells[1..], bridge[1..]);
      if bridge[0] {
        CoverOfStart(cells[1..], bridge[1..]);
        assert t == [Interval(cells[1].offset, t[0].last)] + t[1..];
        assert cells[1].offset - o == Gap(cells, 0) + 1;
        assert ChoiceCost(cells, bridge, l)
            == l.deltaBits + GapCost(Gap(cells, 0), true, l) + ChoiceCost(cells[1..], bridge[1..], l);
        assert GapCost(Gap(cells, 0), true, l) == Gap(cells, 0) * l.deltaBits;
        hide *;
        WidenFirst(o, cells[1].offset, t[0].last, t[1..], l);
        assert (Gap(cells, 0) + 1) * l.deltaBits == Gap(cells, 0) * l.deltaBits + l.deltaBits;
      } else {
        assert cover[1..] == t;
      }
    }
  }

  /** Runs behind the first cell lie on the other cells, and conversely. */
  lemma {:induction false} OnOtherCells(u: seq<Interval>, cells: seq<Cell>)
    requires |cells| > 1 && Ascending(cells)
    ensures OnCells(u, cells) && (forall k :: 0 <= k < |u| ==> cells[0].offset < u[k].first) ==> OnCells(u, cells[1..])
    ensures OnCells(u, cells[1..]) ==>
              OnCells(u, cells) && forall k :: 0 <= k < |u| ==> cells[0].offset < u[k].first
  {
    forall k | 0 <= k < |u|
      ensures OnCell(u[k].first, cells) && cells[0].offset < u[k].first && OnCell(u[k].last, cells)
           && u[k].first <= u[k].last
          ==> OnCell(u[k].first, cells[1..]) && OnCell(u[k].last, cells[1..])
      ensures OnCell(u[k].first, cells[1..]) ==> OnCell(u[k].first, cells) && cells[0].offset < u[k].first
      ensures OnCell(u[k].last, cells[1..]) ==> OnCell(u[k].last, cells)
    {
      if OnCell(u[k].first, cells) && cells[0].offset < u[k].first { CellBehindFirst(cells, u[k].first); }
      if OnCell(u[k].last, cells) && cells[0].offset < u[k].last { CellBehindFirst(cells, u[k].last); }
      if OnCell(u[k].first, cells[1..]) { BehindIsOn(cells, u[k].first); }
      if OnCell(u[k].last, cells[1..]) { BehindIsOn(cells, u[k].last); }
    }
  }

  /** A cover that differs from another only before the second cell covers the other cells too. */
  lemma {:induction false} CoversOthers(cover: seq<Interval>, t: seq<Interval>, cells: seq<Cell>)
    requires |cells| > 1 && Ascending(cells) && CoversAll(cover, cells)
    requires forall offset: nat :: cells[1].offset <= offset && Inside(offset, cover) ==> Inside(offset, t)
    ensures CoversAll(t, cells[1..])
  {
    forall offset: nat | OnCell(offset, cells[1..]) ensures Inside(offset, t) {
      BehindIsOn(cells, offset);
      assert Inside(offset, cover);
    }
  }

  lemma {:induction false} CoversFirstToo(cover: seq<Interval>, t: seq<Interval>, cells: seq<Cell>)
    requires |cells| > 1 && Ascending(cells) && CoversAll(t, cells[1..]) && Inside(cells[0].offset, cover)
    requires forall offset: nat :: Inside(offset, t) ==> Inside(offset, cover)
    ensures CoversAll(cover, cells)
  {
    forall offset: nat | OnCell(offset, cells) ensures Inside(offset, cover) {
      if offset != cells[0].offset {
        CellBehindFirst(cells, offset);
        assert Inside(offset, t);
      }
    }
  }

  lemma {:induction false} InsideParts(x: Interval, u: seq<Interval>, offset: nat)
    ensures Inside(offset, [x] + u) <==> x.first <= offset <= x.last || Inside(offset, u)
  {
    var cover := [x] + u;
    if x.first <= offset <= x.last { assert cover[0].first <= offset <= cover[0].last; }
    if Inside(offset, u) {
      var k :| 0 <= k < |u| && u[k].first <= offset <= u[k].last;
      assert cover[k + 1].first <= offset <= cover[k + 1].last;
    }
    if Inside(offset, cover) && !(x.first <= offset <= x.last) {
      var k :| 0 <= k < |cover| && cover[k].first <= offset <= cover[k].last;
      assert u[k - 1].first <= offset <= u[k - 1].last;
    }
  }

  lemma {:induction false} DisjointParts(x: Interval, u: seq<Interval>)
    ensures Disjoint([x] + u) <==> Disjoint(u) && forall k :: 0 <= k < |u| ==> x.last < u[k].first
  {
    var cover := [x] + u;
    if Disjoint(cover) {
      forall k | 0 <= k < |u| ensures x.last < u[k].first { assert cover[0].last < cover[k + 1].first; }
      forall j, k | 0 <= j < k < |u| ensures u[j].last < u[k].first { assert cover[j + 1].last < cover[k + 1].first; }
    }
  }

  lemma {:induction false} OnCellsParts(x: Interval, u: seq<Interval>, cells: seq<Cell>)
    ensures OnCells([x] + u, cells)
       <==> x.first <= x.last && OnCell(x.first, cells) && OnCell(x.last, cells) && OnCells(u, cells)
  {
    var cover := [x] + u;
    if OnCells(cover, cells) {
      assert OnCell(cover[0].first, cells);
      forall k | 0 <= k < |u| ensures u[k].first <= u[k].last && OnCell(u[k].first, cells) && OnCell(u[k].last, cells) {
        assert OnCell(cover[k + 1].first, cells);
      }
    }
  }

  /** A first run that is the first cell alone: the other runs cover the other cells, and conversely. */
  lemma {:induction false} SingleFirstRun(u: seq<Interval>, cells: seq<Cell>)
    requires |cells| > 1 && Ascending(cells)
    ensures var o := cells[0].offset; IsCover([Interval(o, o)] + u, cells) <==> IsCover(u, cells[1..])
  {
    var o := cells[0].offset;
    var x := Interval(o, o);
    assert OnCell(o, cells) by { assert cells[0].offset == o; }
    OnCellsParts(x, u, cells);
    DisjointParts(x, u);
    OnOtherCells(u, cells);
    forall offset: nat
      ensures Inside(offset, [x] + u) <==> offset == o || Inside(offset, u)
    {
      InsideParts(x, u, offset);
    }
    if IsCover([x] + u, cells) { CoversOthers([x] + u, u, cells); }
    if IsCover(u, cells[1..]) { CoversFirstToo([x] + u, u, cells); }
  }

  /** A first run that reaches `last`: from the second cell on it still covers the other cells, and conversely. */
  lemma {:induction false} LongFirstRun(last: nat, u: seq<Interval>, cells: seq<Cell>)
    requires |cells| > 1 && Ascending(cells) && cells[0].offset < last
    ensures IsCover([Interval(cells[0].offset, last)] + u, cells)
       <==> IsCover([Interval(cells[1].offset, last)] + u, cells[1..])
  {
    var o, o1 := cells[0].offset, cells[1].offset;
    var x, y := Interval(o, last), Interval(o1, last);
    assert OnCell(o, cells) by { assert cells[0].offset == o; }
    assert OnCell(o1, cells[1..]) by { assert cells[1..][0].offset == o1; }
    OnCellsParts(x, u, cells);
    OnCellsParts(y, u, cells[1..]);
    DisjointParts(x, u);
    DisjointParts(y, u);
    OnOtherCells(u, cells);
    if OnCell(last, cells) { CellBehindFirst(cells, last); }
    if OnCell(last, cells[1..]) { BehindIsOn(cells, last); }
    forall offset: nat
      ensures Inside(offset, [x] + u) <==> o <= offset <= last || Inside(offset, u)
      ensures Inside(offset, [y] + u) <==> o1 <= offset <= last || Inside(offset, u)
    {
      InsideParts(x, u, offset);
      InsideParts(y, u, offset);
    }
    if IsCover([x] + u, cells) { CoversOthers([x] + u, [y] + u, cells); }
    if IsCover([y] + u, cells[1..]) { CoversFirstToo([x] + u, [y] + u, cells); }
  }

  /** Dropping the first cell of a row from a cover of it. */
  lemma {:induction false} CoverWithoutFirst(cover: seq<Interval>, cells: seq<Cell>)
      returns (bridged: bool, rest: seq<Interval>)
    requires |cells| > 1 && Ascending(cells) && IsCover(cover, cells)
    ensures IsCover(rest, cells[1..]) && rest != []
    ensures cover == (if bridged then [Interval(cells[0].offset, rest[0].last)] + rest[1..]
                      else [Interval(cells[0].offset, cells[0].offset)] + rest)
  {
    FirstInterval(cover, cells);
    var o, last, u := cells[0].offset, cover[0].last, cover[1..];
    assert cover == [Interval(o, last)] + u;
    bridged := last != o;
    if bridged {
      rest := [Interval(cells[1].offset, last)] + u;
      LongFirstRun(last, u, cells);
    } else {
      rest := u;
      SingleFirstRun(u, cells);
      FirstInterval(rest, cells[1..]);
    }
  }

  lemma {:induction false} FirstInterval(cover: seq<Interval>, cells: seq<Cell>)
    requires cells != [] && Ascending(cells) && IsCover(cover, cells)
    ensures cover != [] && cover[0].first == cells[0].offset
  {
    var o := cells[0].offset;
    assert OnCell(o, cells);
    assert Inside(o, cover);
    var k :| 0 <= k < |cover| && cover[k].first <= o <= cover[k].last;
    assert OnCell(cover[0].first, cells) && OnCell(cover[k].first, cells);
    FirstIsLeast(cells, cover[0].first);
    FirstIsLeast(cells, cover[k].first);
  }

  lemma {:induction false} FirstIsLeast(cells: seq<Cell>, offset: nat)
    requires Ascending(cells) && OnCell(offset, cells)
    ensures cells[0].offset <= offset
  {
  }

  lemma {:induction false} CellBehindFirst(cells: seq<Cell>, offset: nat)
    requires |cells| > 0 && OnCell(offset, cells) && cells[0].offset != offset
    ensures OnCell(offset, cells[1..])
    ensures Ascending(cells) ==> |cells| > 1 && cells[1].offset <= offset
  {
    var i :| 0 <= i < |cells| && cells[i].offset == offset;
    assert cells[1..][i - 1].offset == offset;
  }

  /** Every cover bridges or splits each gap. */
  lemma {:induction false} CoverIsChoice(cover: seq<Interval>, cells: seq<Cell>) returns (bridge: seq<bool>)
    requires cells != [] && Ascending(cells) && IsCover(cover, cells)
    ensures |cells| == |bridge| + 1 && cover == CoverOf(cells, bridge)
    decreases |cells|
  {
    if |cells| == 1 {
      SingleCell(cover, cells);
      bridge := [];
    } else {
      var bridged, rest := CoverWithoutFirst(cover, cells);
      var others := CoverIsChoice(rest, cells[1..]);
      bridge := [bridged] + others;
      assert bridge[1..] == others;
    }
  }

  lemma {:induction false} SingleCell(cover: seq<Interval>, cells: seq<Cell>)
    requires |cells| == 1 && IsCover(cover, cells)
    ensures cover == [Interval(cells[0].offset, cells[0].offset)]
  {
    FirstInterval(cover, cells);
    forall k | 0 <= k < |cover| ensures cover[k] == Interval(cells[0].offset, cells[0].offset) {
      assert OnCell(cover[k].first, cells) && OnCell(cover[k].last, cells);
    }
    assert cover[0].last >= cover[|cover| - 1].first;
  }

  // ---------- choices are covers ----------

  lemma {:induction false} BehindIsOn(cells: seq<Cell>, offset: nat)
    requires |cells| > 0 && OnCell(offset, cells[1..])
    ensures OnCell(offset, cells)
    ensures Ascending(cells) ==> cells[0].offset < offset && cells[1].offset <= offset
  {
    var i :| 0 <= i < |cells[1..]| && cells[1..][i].offset == offset;
    assert cells[i + 1].offset == offset;
  }

  lemma {:induction false} ChoiceIsCover(cells: seq<Cell>, bridge: seq<bool>)
    requires |cells| == |bridge| + 1 && Ascending(cells)
    ensures IsCover(CoverOf(cells, bridge), cells)
  {
    if bridge == [] {
      var o := cells[0].offset;
      assert OnCell(o, cells) && CoverOf(cells, bridge) == [Interval(o, o)];
      assert CoverOf(cells, bridge)[0].first <= o <= CoverOf(cells, bridge)[0].last;
    } else {
      ChoiceIsCover(cells[1..], bridge[1..]);
      CoverOfStart(cells[1..], bridge[1..]);
      var t := CoverOf(cells[1..], bridge[1..]);
      SingleFirstRun(t, cells);
      assert t == [Interval(cells[1].offset, t[0].last)] + t[1..];
      LongFirstRun(t[0].last, t[1..], cells);
    }
  }

  /** Different choices give different covers. */
  lemma {:induction false} ChoiceInjective(cells: seq<Cell>, a: seq<bool>, b: seq<bool>)
    requires |cells| == |a| + 1 == |b| + 1 && Ascending(cells) && CoverOf(cells, a) == CoverOf(cells, b)
    ensures a == b
  {
    if a != [] {
      var ta, tb := CoverOf(cells[1..], a[1..]), CoverOf(cells[1..], b[1..]);
      CoverOfStart(cells[1..], a[1..]);
      CoverOfStart(cells[1..], b[1..]);
      assert cells[0].offset < cells[1].offset;
      assert a[0] == b[0];
      assert ta == [Interval(cells[1].offset, ta[0].last)] + ta[1..];
      assert tb == [Interval(cells[1].offset, tb[0].last)] + tb[1..];
      assert CoverOf(cells, a)[0] == CoverOf(cells, b)[0] && CoverOf(cells, a)[1..] == CoverOf(cells, b)[1..];
      assert ta == tb;
      ChoiceInjective(cells[1..], a[1..], b[1..]);
      assert a == [a[0]] + a[1..] && b == [b[0]] + b[1..];
    }
  }

  // ---------- the greedy choice ----------

  /** `maxGap` is the longest gap that is no dearer bridged than split. */
  lemma {:induction false} GapThreshold(gap: nat, l: DeltaWireLayout)
    requires l.deltaBits > 0 && l.maxGap == GapLimit(RunHead(l), l.deltaBits)
    ensures gap <= l.maxGap <==> gap * l.deltaBits <= RunHead(l)
  {
    var d, h := l.deltaBits, RunHead(l);
    assert h == d * l.maxGap + h % d;
    if gap <= l.maxGap { MulMonotone(d, gap, l.maxGap); } else { MulMonotone(d, l.maxGap + 1, gap); }
    assert d * (l.maxGap + 1) == d * l.maxGap + d;
  }

  /** Bridging this gap costs exactly as much as opening a new run. */
  predicate Tie(gap: int, l: DeltaWireLayout) { gap * l.deltaBits == RunHead(l) }

  ghost predicate HasTie(cells: seq<Cell>, l: DeltaWireLayout) {
    exists i :: 0 <= i < |cells| - 1 && Tie(Gap(cells, i), l)
  }

  lemma {:induction false} GreedyCheapest(cells: seq<Cell>, bridge: seq<bool>, l: DeltaWireLayout)
    requires |cells| == |bridge| + 1 && Ascending(cells)
    requires l.deltaBits > 0 && l.maxGap == GapLimit(RunHead(l), l.deltaBits)
    ensures ChoiceCost(cells, Greedy(cells, l.maxGap), l) <= ChoiceCost(cells, bridge, l)
    ensures ChoiceCost(cells, Greedy(cells, l.maxGap), l) == ChoiceCost(cells, bridge, l)
         && bridge != Greedy(cells, l.maxGap)
        ==> HasTie(cells, l)
  {
    if bridge != [] {
      var g, tail := Greedy(cells, l.maxGap), cells[1..];
      assert g[1..] == Greedy(tail, l.maxGap);
      GreedyCheapest(tail, bridge[1..], l);
      assert cells[0].offset < cells[1].offset;
      GapThreshold(Gap(cells, 0), l);
      assert bridge == [bridge[0]] + bridge[1..] && g == [g[0]] + g[1..];
      if HasTie(tail, l) {
        var i :| 0 <= i < |tail| - 1 && Tie(Gap(tail, i), l);
        assert Gap(cells, i + 1) == Gap(tail, i);
      }
      assert g[0] != bridge[0] && GapCost(Gap(cells, 0), g[0], l) == GapCost(Gap(cells, 0), bridge[0], l)
         ==> Tie(Gap(cells, 0), l);
    }
  }

  /** Flipping the choice at a tie keeps the cost. */
  lemma {:induction false} FlipTie(cells: seq<Cell>, bridge: seq<bool>, i: nat, l: DeltaWireLayout)
    requires |cells| == |bridge| + 1 && i < |bridge| && Tie(Gap(cells, i), l)
    ensures ChoiceCost(cells, bridge[i := !bridge[i]], l) == ChoiceCost(cells, bridge, l)
  {
    var flipped := bridge[i := !bridge[i]];
    if i == 0 {
      assert flipped[1..] == bridge[1..];
    } else {
      assert Gap(cells[1..], i - 1) == Gap(cells, i);
      FlipTie(cells[1..], bridge[1..], i - 1, l);
      assert flipped[1..] == bridge[1..][i - 1 := !bridge[1..][i - 1]];
    }
  }

  lemma {:induction false} CanonicalIsGreedy(cells: seq<Cell>, maxGap: nat)
    requires cells != []
    ensures CanonicalCover(cells, maxGap) == CoverOf(cells, Greedy(cells, maxGap))
  {
    var n := FirstRun(cells, maxGap);
    if |cells| == 1 {
      assert CanonicalCover(cells[1..], maxGap) == [];
    } else {
      var tail := cells[1..];
      CanonicalIsGreedy(tail, maxGap);
      assert Greedy(cells, maxGap)[1..] == Greedy(tail, maxGap);
      if n > 1 {
        assert cells[n..] == tail[n - 1..] && cells[n - 1] == tail[n - 2];
        assert CanonicalCover(tail, maxGap)[1..] == CanonicalCover(tail[n - 1..], maxGap);
      }
    }
  }

  // ---------- layouts with the right threshold ----------

  lemma {:induction false} CheapestAt(cells: seq<Cell>, cover: seq<Interval>, l: DeltaWireLayout)
    requires cells != [] && Ascending(cells) && IsCover(cover, cells)
    requires l.deltaBits > 0 && l.maxGap == GapLimit(RunHead(l), l.deltaBits)
    ensures IsCover(CanonicalCover(cells, l.maxGap), cells)
    ensures Cost(CanonicalCover(cells, l.maxGap), l) <= Cost(cover, l)
  {
    var g := Greedy(cells, l.maxGap);
    CanonicalIsGreedy(cells, l.maxGap);
    ChoiceIsCover(cells, g);
    CostOfChoice(cells, g, l);
    var bridge := CoverIsChoice(cover, cells);
    CostOfChoice(cells, bridge, l);
    GreedyCheapest(cells, bridge, l);
  }

  lemma {:induction false} OnlyCheapestAt(cells: seq<Cell>, l: DeltaWireLayout)
    requires cells != [] && Ascending(cells)
    requires l.deltaBits > 0 && l.maxGap == GapLimit(RunHead(l), l.deltaBits)
    ensures (forall cover :: IsCover(cover, cells) && Cost(cover, l) == Cost(CanonicalCover(cells, l.maxGap), l)
                             ==> cover == CanonicalCover(cells, l.maxGap))
       <==> !HasTie(cells, l)
  {
    var g, canonical := Greedy(cells, l.maxGap), CanonicalCover(cells, l.maxGap);
    CanonicalIsGreedy(cells, l.maxGap);
    CostOfChoice(cells, g, l);
    if HasTie(cells, l) {
      var i :| 0 <= i < |cells| - 1 && Tie(Gap(cells, i), l);
      var other := g[i := !g[i]];
      FlipTie(cells, g, i, l);
      ChoiceIsCover(cells, other);
      CostOfChoice(cells, other, l);
      if CoverOf(cells, other) == canonical { ChoiceInjective(cells, other, g); }
      assert other[i] != g[i];
    } else {
      forall cover | IsCover(cover, cells) && Cost(cover, l) == Cost(canonical, l) ensures cover == canonical {
        var bridge := CoverIsChoice(cover, cells);
        CostOfChoice(cells, bridge, l);
        GreedyCheapest(cells, bridge, l);
      }
    }
  }

  lemma {:induction false} CostOfSplit(cells: seq<Cell>, l: DeltaWireLayout)
    requires CanonicalCells(cells, l)
    ensures Cost(CanonicalCover(cells, l.maxGap), l) == |RunListBits(cells, l)|
    decreases |cells|
  {
    var run, tail := SplitFirstRun(cells, l);
    CanonicalParts(run, l);
    FirstRunLength(cells, run, tail, l);
    CostOfFirstRun(run, tail, l);
    if tail != [] { CostOfSplit(tail, l); }
  }

  lemma {:induction false} CostOfFirstRun(run: seq<Cell>, tail: seq<Cell>, l: DeltaWireLayout)
    requires run != [] && Ascending(run) && NonZero(run) && Joined(run, l.maxGap)
    requires tail != [] ==> tail[0].offset - run[|run| - 1].offset - 1 > l.maxGap
    ensures Cost(CanonicalCover(run + tail, l.maxGap), l)
         == RunHead(l) + RunSpan(run) * l.deltaBits + Cost(CanonicalCover(tail, l.maxGap), l)
  {
    var cells := run + tail;
    FirstRunUnique(run, tail, l.maxGap);
    assert cells[|run|..] == tail;
    assert CanonicalCover(cells, l.maxGap)[1..] == CanonicalCover(tail, l.maxGap);
  }

  // ---------- main results, for the layout of a geometry ----------

  /** The split the encoder uses is a cover, and no cover of the row is cheaper. */
  lemma {:induction false} SplitIsOptimal(cells: seq<Cell>, cover: seq<Interval>, params: CuckooParams)
    requires params.Legal() && cells != [] && Ascending(cells) && IsCover(cover, cells)
    ensures var l := ForParams(params);
            && IsCover(CanonicalCover(cells, l.maxGap), cells)
            && Cost(CanonicalCover(cells, l.maxGap), l) <= Cost(cover, l)
  {
    CheapestAt(cells, cover, ForParams(params));
  }

  /** The split is the only optimal one exactly when no gap is a tie. */
  lemma {:induction false} SplitUniqueIffNoTie(cells: seq<Cell>, params: CuckooParams)
    requires params.Legal() && cells != [] && Ascending(cells)
    ensures var l := ForParams(params);
            var canonical := CanonicalCover(cells, l.maxGap);
            (forall cover :: IsCover(cover, cells) && Cost(cover, l) == Cost(canonical, l) ==> cover == canonical)
            <==> !HasTie(cells, l)
  {
    OnlyCheapestAt(cells, ForParams(params));
  }

  /** The bits `encode` writes for a row are as few as any cover of the row would need. */
  lemma {:induction false} RowEncodingIsShortest(cells: seq<Cell>, cover: seq<Interval>, params: CuckooParams)
    requires params.Legal() && CanonicalCells(cells, ForParams(params)) && IsCover(cover, cells)
    ensures |RunListBits(cells, ForParams(params))| <= Cost(cover, ForParams(params))
  {
    SplitIsOptimal(cells, cover, params);
    CostOfSplit(cells, ForParams(params));
  }

  // ---------- a row with two cheapest covers ----------

  /** One bucket per segment, 64-bit fingerprints, 5336-bit values, 18-bit cells: rows of 300 cells, run
      heads of 19 bits and literals of 19 bits. */
  const TIED: CuckooParams := CuckooParams(Segmented2ary, 2, 1, 64, 5336, 18)

  lemma {:induction false} TiedLayout()
    ensures TIED.Legal() && ForParams(TIED) == DeltaWireLayout(2, 1, 300, 18, 1, 9, 19, 1)
  {
    DivCeilBounds(5400, 18);
    assert TIED.CellsPerSlot() == DivCeil(5400, 18) == 300;
    assert Pow2(8) == 256 && Pow2(9) == 2 * Pow2(8);
    BitlenIs(299, 9);
    assert Bitlen(1) == 1;
  }

  /** Two edits with one zero cell between them: bridging the gap costs as much as a second run, and
      both covers are cheapest. */
  lemma {:induction false} TieExample()
    ensures TIED.Legal()
    ensures var l, cells := ForParams(TIED), [Cell(0, 1), Cell(2, 1)];
            var bridged, split := [Interval(0, 2)], [Interval(0, 0), Interval(2, 2)];
            && CanonicalCells(cells, l)
            && IsCover(bridged, cells) && IsCover(split, cells) && bridged != split
            && Cost(bridged, l) == Cost(split, l)
            && forall cover :: IsCover(cover, cells) ==> Cost(bridged, l) <= Cost(cover, l)
  {
    TiedLayout();
    var l, cells := ForParams(TIED), [Cell(0, 1), Cell(2, 1)];
    assert Pow2(18) > 1;
    assert CellInRange(cells[0], l) && CellInRange(cells[1], l);
    TiedCovers(cells, l);
    forall cover | IsCover(cover, cells) ensures Cost([Interval(0, 2)], l) <= Cost(cover, l) {
      SplitIsOptimal(cells, cover, TIED);
    }
  }

  lemma {:induction false} TiedCovers(cells: seq<Cell>, l: DeltaWireLayout)
    requires cells == [Cell(0, 1), Cell(2, 1)] && l.maxGap == 1 && l.offsetBits == 9 && l.deltaBits == 19
    ensures var bridged, split := [Interval(0, 2)], [Interval(0, 0), Interval(2, 2)];
            && IsCover(bridged, cells) && IsCover(split, cells) && Cost(bridged, l) == Cost(split, l)
  {
    var bridged, split := [Interval(0, 2)], [Interval(0, 0), Interval(2, 2)];
    ChoiceIsCover(cells, [true]);
    ChoiceIsCover(cells, [false]);
    hide IsCover;
    assert cells[1..] == [Cell(2, 1)] && cells[2..] == [] && [true][1..] == [] && [false][1..] == [];
    assert CoverOf(cells[1..], []) == [Interval(2, 2)];
    assert CoverOf(cells, [true]) == bridged && CoverOf(cells, [false]) == split;
    assert bridged[1..] == [] && split[1..] == [Interval(2, 2)] && split[1..][1..] == [];
  }
}
