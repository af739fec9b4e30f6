/**
 * Detector output: the grid of points behind a flat prediction tensor, and
 * suppression of overlapping candidates.
 */
module Detection {
  import opened Basics

  // ---------------------------------------------------------------- grids

  const NANODET_STRIDES: seq<nat> := [8, 16, 32, 64]
  const YOLOX_STRIDES: seq<nat> := [8, 16, 32]

  /** Points on the levels before `level`: each level is a square of its size. */
  function OffsetOf(sizes: seq<nat>, level: nat): nat
    requires level <= |sizes|
  {
    if level == 0 then 0 else OffsetOf(sizes, level - 1) + sizes[level - 1] * sizes[level - 1]
  }

  function Offsets(sizes: seq<nat>): (o: seq<nat>)
    ensures |o| == |sizes|
  {
    seq(|sizes|, l requires 0 <= l < |sizes| => OffsetOf(sizes, l))
  }

  datatype Grid = Grid(input: nat, strides: seq<nat>, sizes: seq<nat>, offsets: seq<nat>, points: nat)

  predicate IsGrid(g: Grid) {
    |g.sizes| == |g.strides| > 0 && g.offsets == Offsets(g.sizes) && g.points == OffsetOf(g.sizes, |g.sizes|)
  }

  /** The offsets and the number of points that go with sizes. */
  method Layout(input: nat, strides: seq<nat>, sizes: seq<nat>) returns (g: Grid)
    requires |sizes| == |strides| > 0
    ensures IsGrid(g) && g.input == input && g.strides == strides && g.sizes == sizes
  {
    var offsets: seq<nat> := [0];
    for i := 1 to |sizes|
      invariant |offsets| == i && forall l :: 0 <= l < i ==> offsets[l] == OffsetOf(sizes, l)
    {
      offsets := offsets + [offsets[i - 1] + sizes[i - 1] * sizes[i - 1]];
    }
    var last := |sizes| - 1;
    var points := offsets[last] + sizes[last] * sizes[last];
    g := Grid(input, strides, sizes, offsets, points);
  }

  /** Four levels, sizes rounded up. */
  method GridForInput(input: nat) returns (g: Grid)
    ensures IsGrid(g) && g.input == input && g.strides == [8, 16, 32, 64]
    ensures forall l :: 0 <= l < 4 ==> g.sizes[l] == (input + g.strides[l] - 1) / g.strides[l]
  {
    var sizes: seq<nat> := [];
    for i := 0 to 4
      invariant |sizes| == i
      invariant forall l :: 0 <= l < i ==> sizes[l] == (input + NANODET_STRIDES[l] - 1) / NANODET_STRIDES[l]
    {
      sizes := sizes + [(input + NANODET_STRIDES[i] - 1) / NANODET_STRIDES[i]];
    }
    g := Layout(input, NANODET_STRIDES, sizes);
  }

  /** Three levels, sizes rounded down. */
  method YoloxGridForInput(input: nat) returns (g: Grid)
    ensures IsGrid(g) && g.input == input && g.strides == [8, 16, 32]
    ensures forall l :: 0 <= l < 3 ==> g.sizes[l] == input / g.strides[l]
  {
    var sizes: seq<nat> := [];
    for i := 0 to 3
      invariant |sizes| == i && forall l :: 0 <= l < i ==> sizes[l] == input / YOLOX_STRIDES[l]
    {
      sizes := sizes + [input / YOLOX_STRIDES[i]];
    }
    g := Layout(input, YOLOX_STRIDES, sizes);
  }

  /** A cell of a level. */
  datatype Cell = Cell(level: nat, x: nat, y: nat)

  predicate InGrid(sizes: seq<nat>, c: Cell) {
    c.level < |sizes| && c.x < sizes[c.level] && c.y < sizes[c.level]
  }

  /** The number of a cell: levels one after the other, rows one after the other. */
  function IndexOf(sizes: seq<nat>, c: Cell): nat
    requires InGrid(sizes, c)
  {
    OffsetOf(sizes, c.level) + (c.y * sizes[c.level] + c.x)
  }

  lemma {:induction false} OffsetsGrow(sizes: seq<nat>, l: nat, m: nat)
    requires l <= m <= |sizes|
    ensures OffsetOf(sizes, l) <= OffsetOf(sizes, m)
    decreases m
  {
    if l < m {
      OffsetsGrow(sizes, l, m - 1);
    }
  }

  lemma InsideSquare(n: nat, x: nat, y: nat)
    requires x < n && y < n
    ensures y * n + x < n * n
  {
    MulStep(y, n, n);
  }

  /** Every cell's number is below the number of points, and inside its level. */
  lemma IndexInRange(sizes: seq<nat>, c: Cell)
    requires InGrid(sizes, c)
    ensures OffsetOf(sizes, c.level) <= IndexOf(sizes, c) < OffsetOf(sizes, c.level + 1) <= OffsetOf(sizes, |sizes|)
  {
    InsideSquare(sizes[c.level], c.x, c.y);
    OffsetsGrow(sizes, c.level + 1, |sizes|);
  }

  /** Different cells have different numbers. */
  lemma CellIsUnique(sizes: seq<nat>, c: Cell, d: Cell)
    requires InGrid(sizes, c) && InGrid(sizes, d) && IndexOf(sizes, c) == IndexOf(sizes, d)
    ensures c == d
  {
    IndexInRange(sizes, c);
    IndexInRange(sizes, d);
    if c.level < d.level {
      OffsetsGrow(sizes, c.level + 1, d.level);
    } else if d.level < c.level {
      OffsetsGrow(sizes, d.level + 1, c.level);
    } else {
      IndexDivMod(sizes[c.level], c.x, c.y);
      IndexDivMod(sizes[d.level], d.x, d.y);
    }
  }

  /** Numbers follow the order of levels, then rows, then columns. */
  lemma OrderIsLevelMajor(sizes: seq<nat>, c: Cell, d: Cell)
    requires InGrid(sizes, c) && InGrid(sizes, d)
    requires c.level < d.level || (c.level == d.level && (c.y < d.y || (c.y == d.y && c.x < d.x)))
    ensures IndexOf(sizes, c) < IndexOf(sizes, d)
  {
    IndexInRange(sizes, c);
    IndexInRange(sizes, d);
    if c.level < d.level {
      OffsetsGrow(sizes, c.level + 1, d.level);
    } else if c.y < d.y {
      MulStep(c.y, d.y, sizes[c.level]);
    }
  }

  /**
   * The cell of a point. It is the only cell with that number, so that points and
   * cells correspond one to one.
   */
  method Coords(g: Grid, pointIdx: nat) returns (c: Cell, stride: nat)
    requires IsGrid(g) && pointIdx < g.points
    ensures InGrid(g.sizes, c) && IndexOf(g.sizes, c) == pointIdx && stride == g.strides[c.level]
    ensures forall d :: InGrid(g.sizes, d) && IndexOf(g.sizes, d) == pointIdx ==> d == c
  {
    var level := 0;
    var l := |g.offsets| - 1;
    while l >= 0
      invariant -1 <= l < |g.offsets| && level == 0
      invariant OffsetOf(g.sizes, l + 1) > pointIdx
    {
      if g.offsets[l] <= pointIdx {
        level := l;
        break;
      }
      l := l - 1;
    }
    var local := pointIdx - g.offsets[level];
    var w := g.sizes[level];
    LocalCell(local, w);
    c := Cell(level, local % w, local / w);
    stride := g.strides[level];
    forall d | InGrid(g.sizes, d) && IndexOf(g.sizes, d) == pointIdx ensures d == c {
      CellIsUnique(g.sizes, d, c);
    }
  }

  lemma LocalCell(k: nat, w: nat)
    requires k < w * w
    ensures w > 0 && k % w < w && k / w < w && k / w * w + k % w == k
  {
    assert w > 0;
    var q := k / w;
    assert k == q * w + k % w;
    if q >= w {
      MulMono(w, q, w);
    }
  }

  // ---------------------------------------------------------------- suppression

  /** A candidate of some class (`kind`); its box and confidence are of no concern here. */
  datatype Candidate = Candidate(kind: nat, id: nat)

  /** `over(k, c)`: the overlap of `k` and `c` is above the threshold. */
  predicate Suppresses(over: (Candidate, Candidate) -> bool, k: Candidate, c: Candidate) {
    k.kind == c.kind && over(k, c)
  }

  predicate Suppressed(over: (Candidate, Candidate) -> bool, kept: seq<Candidate>, c: Candidate) {
    exists i :: 0 <= i < |kept| && Suppresses(over, kept[i], c)
  }

  function Survivors(over: (Candidate, Candidate) -> bool, cs: seq<Candidate>): seq<Candidate> {
    if cs == [] then []
    else
      var n := |cs| - 1;
      var kept := Survivors(over, cs[..n]);
      if Suppressed(over, kept, cs[n]) then kept else kept + [cs[n]]
  }

  method Nms(over: (Candidate, Candidate) -> bool, candidates: seq<Candidate>) returns (kept: seq<Candidate>)
    ensures kept == Survivors(over, candidates)
  {
    kept := [];
    for i := 0 to |candidates|
      invariant kept == Survivors(over, candidates[..i])
    {
      var c := candidates[i];
      assert candidates[..i + 1][..i] == candidates[..i];
      var suppressed := false;
      for j := 0 to |kept|
        invariant suppressed <==> exists m :: 0 <= m < j && Suppresses(over, kept[m], c)
      {
        if kept[j].kind == c.kind && over(kept[j], c) {
          assert Suppresses(over, kept[j], c);
          suppressed := true;
          break;
        }
      }
      if !suppressed {
        kept := kept + [c];
      }
    }
    assert candidates[..|candidates|] == candidates;
  }

  /** No two of one class overlap above the threshold. */
  predicate Separated(over: (Candidate, Candidate) -> bool, kept: seq<Candidate>) {
    forall i, j :: 0 <= i < j < |kept| && kept[i].kind == kept[j].kind ==> !over(kept[i], kept[j])
  }

  lemma {:induction false} SurvivorsAreSeparated(over: (Candidate, Candidate) -> bool, cs: seq<Candidate>)
    ensures Separated(over, Survivors(over, cs))
  {
    if cs != [] {
      SurvivorsAreSeparated(over, cs[..|cs| - 1]);
    }
  }

  /** The positions of the survivors. */
  function SurvivorIds(over: (Candidate, Candidate) -> bool, cs: seq<Candidate>): seq<nat> {
    if cs == [] then []
    else
      var n := |cs| - 1;
      var ids := SurvivorIds(over, cs[..n]);
      if Suppressed(over, Survivors(over, cs[..n]), cs[n]) then ids else ids + [n]
  }

  /** The survivors are the candidates at those positions, in their order. */
  lemma {:induction false} SurvivorsArePicked(over: (Candidate, Candidate) -> bool, cs: seq<Candidate>)
    ensures Picks(Survivors(over, cs), SurvivorIds(over, cs), cs)
  {
    if cs != [] {
      var n := |cs| - 1;
      var kept, ids := Survivors(over, cs[..n]), SurvivorIds(over, cs[..n]);
      SurvivorsArePicked(over, cs[..n]);
      PicksLonger(kept, ids, cs[..n], cs[n]);
      PicksSnoc(kept, ids, cs[..n], cs[n]);
      assert cs == cs[..n] + [cs[n]];
    }
  }

  lemma {:induction false} SurvivesFirst(over: (Candidate, Candidate) -> bool, cs: seq<Candidate>, p: nat)
    requires p < |cs|
    ensures p in SurvivorIds(over, cs) <==> !Suppressed(over, Survivors(over, cs[..p]), cs[p])
    decreases |cs|
  {
    var n := |cs| - 1;
    if p < n {
      SurvivesFirst(over, cs[..n], p);
      assert cs[..n][..p] == cs[..p];
    } else {
      SurvivorsArePicked(over, cs[..n]);
      assert forall k :: 0 <= k < |SurvivorIds(over, cs[..n])| ==> SurvivorIds(over, cs[..n])[k] < n;
    }
  }

  /** A candidate survives exactly if no survivor before it suppresses it. */
  lemma SurvivesExactly(over: (Candidate, Candidate) -> bool, cs: seq<Candidate>, p: nat)
    requires p < |cs|
    ensures p in SurvivorIds(over, cs) <==>
              !exists q :: q in SurvivorIds(over, cs) && q < p && cs[q].kind == cs[p].kind && over(cs[q], cs[p])
  {
    var ids, kept := SurvivorIds(over, cs[..p]), Survivors(over, cs[..p]);
    SurvivesFirst(over, cs, p);
    SurvivorsArePicked(over, cs[..p]);
    forall q | 0 <= q < p ensures q in SurvivorIds(over, cs) <==> q in ids {
      SurvivesFirst(over, cs, q);
      SurvivesFirst(over, cs[..p], q);
      assert cs[..p][..q] == cs[..q];
    }
    if Suppressed(over, kept, cs[p]) {
      var i :| 0 <= i < |kept| && Suppresses(over, kept[i], cs[p]);
      assert ids[i] in ids && kept[i] == cs[..p][ids[i]];
    }
    forall q | q in ids && Suppresses(over, cs[q], cs[p]) ensures Suppressed(over, kept, cs[p]) {
      var i :| 0 <= i < |ids| && ids[i] == q;
      assert kept[i] == cs[..p][q];
    }
  }

  lemma {:induction false} SeparatedSurvives(over: (Candidate, Candidate) -> bool, cs: seq<Candidate>)
    requires Separated(over, cs)
    ensures Survivors(over, cs) == cs
  {
    if cs != [] {
      SeparatedSurvives(over, cs[..|cs| - 1]);
    }
  }

  /** Suppressing twice is suppressing once. */
  lemma NmsIsIdempotent(over: (Candidate, Candidate) -> bool, cs: seq<Candidate>)
    ensures Survivors(over, Survivors(over, cs)) == Survivors(over, cs)
  {
    SurvivorsAreSeparated(over, cs);
    SeparatedSurvives(over, Survivors(over, cs));
  }
}
