/**
 * Reading a recorded segment back: the batch parse of the file, regrouped into
 * access units by slice, paired one by one with the sidecar timestamps.
 */
module SegmentReplay {
  import opened Basics
  import opened AnnexB
  import opened AnnexBLaws

  const NOMINAL_FPS := 25

  predicate IsVCL(n: NALU) {
    n.typ == 1 || n.typ == 5
  }

  predicate HasVCL(ns: seq<NALU>) {
    exists k :: 0 <= k < |ns| && IsVCL(ns[k])
  }

  predicate StartsNewAU(cur: seq<NALU>, n: NALU) {
    IsVCL(n) && HasVCL(cur)
  }

  function AddToGroups(gs: seq<seq<NALU>>, n: NALU): seq<seq<NALU>> {
    if gs == [] || StartsNewAU(gs[|gs| - 1], n) then gs + [[n]]
    else gs[..|gs| - 1] + [gs[|gs| - 1] + [n]]
  }

  function Groups(ns: seq<NALU>): seq<seq<NALU>> {
    if ns == [] then [] else AddToGroups(Groups(ns[..|ns| - 1]), ns[|ns| - 1])
  }

  lemma GroupsSnoc(ns: seq<NALU>, n: NALU)
    ensures Groups(ns + [n]) == AddToGroups(Groups(ns), n)
  {
    assert (ns + [n])[..|ns|] == ns;
  }

  predicate HasIDR(ns: seq<NALU>) {
    exists k :: 0 <= k < |ns| && ns[k].isIDR
  }

  function NominalOffset(k: nat): nat {
    k * SECOND / NOMINAL_FPS
  }

  /** Twenty-five units take a second: each comes 40 ms after the one before it. */
  lemma NominalPace(k: nat)
    ensures NominalOffset(k) == k * 40_000_000 && NominalOffset(25) == 1_000_000_000
  {
  }

  /** The time offset of unit `k`: the sidecar's, or nominal pacing where there is none. */
  function OffsetOf(sidecar: Option<seq<int>>, k: nat): int {
    if sidecar.Some? && k < |sidecar.value| then sidecar.value[k] * MILLISECOND
    else NominalOffset(k)
  }

  datatype Item = Item(nalus: seq<seq<Byte>>, offset: int, keyFrame: bool)

  function Payloads(ns: seq<NALU>): (ds: seq<seq<Byte>>)
    ensures |ds| == |ns|
  {
    seq(|ns|, k requires 0 <= k < |ns| => ns[k].data)
  }

  method GroupByAU(nalus: seq<NALU>) returns (aus: seq<seq<NALU>>)
    ensures aus == Groups(nalus)
  {
    aus := [];
    for i := 0 to |nalus|
      invariant aus == Groups(nalus[..i])
    {
      assert nalus[..i + 1][..i] == nalus[..i];
      if |aus| == 0 || StartsNewAU(aus[|aus| - 1], nalus[i]) {
        aus := aus + [[nalus[i]]];
      } else {
        aus := aus[|aus| - 1 := aus[|aus| - 1] + [nalus[i]]];
      }
    }
    assert nalus[..|nalus|] == nalus;
  }

  /** Milliseconds to durations; a missing or empty sidecar does not load. */
  method LoadSidecar(lines: Option<seq<int>>) returns (pts: seq<int>, ok: bool)
    ensures ok <==> lines.Some? && lines.value != []
    ensures ok ==> |pts| == |lines.value| && forall k :: 0 <= k < |pts| ==> pts[k] == lines.value[k] * MILLISECOND
  {
    pts := [];
    if lines.None? {
      return [], false;
    }
    for i := 0 to |lines.value|
      invariant |pts| == i
      invariant forall k :: 0 <= k < i ==> pts[k] == lines.value[k] * MILLISECOND
    {
      pts := pts + [lines.value[i] * MILLISECOND];
    }
    ok := |pts| != 0;
  }

  /** A segment file and its sidecar lines, already decoded; a missing sidecar is None. */
  class SegmentReader {
    const sidecar: Option<seq<int>>
    var aus: seq<seq<NALU>>
    var pts: seq<int>
    var nominal: bool
    var idx: nat

    ghost predicate Valid()
      reads this
    {
      && idx <= |aus|
      && nominal == (sidecar.None? || sidecar.value == [])
      && (!nominal ==> |pts| == |sidecar.value|
                       && forall k :: 0 <= k < |pts| ==> pts[k] == sidecar.value[k] * MILLISECOND)
    }

    constructor Open(data: seq<Byte>, lines: Option<seq<int>>)
      ensures Valid() && aus == Groups(Parsed(data)) && idx == 0 && sidecar == lines
    {
      var nalus := Parse(data);
      var groups := GroupByAU(nalus);
      var offsets, ok := LoadSidecar(lines);
      aus, pts, nominal, idx, sidecar := groups, offsets, !ok, 0, lines;
    }

    /** None at the end of the segment. */
    method Next() returns (r: Option<Item>)
      requires Valid()
      modifies this`idx
      ensures Valid()
      ensures old(idx) == |aus| ==> r == None && idx == old(idx)
      ensures old(idx) < |aus| ==>
                && idx == old(idx) + 1
                && r == Some(Item(Payloads(aus[old(idx)]), OffsetOf(sidecar, old(idx)), HasIDR(aus[old(idx)])))
                && |r.value.nalus| == |aus[old(idx)]|
                && (forall k :: 0 <= k < |r.value.nalus| ==> r.value.nalus[k] == aus[old(idx)][k].data)
                && (sidecar.Some? && old(idx) < |sidecar.value| ==>
                      r.value.offset == sidecar.value[old(idx)] * 1_000_000)
    {
      if idx >= |aus| {
        return None;
      }
      var au := aus[idx];
      var naluBytes: seq<seq<Byte>> := [];
      var isKeyFrame := false;
      for i := 0 to |au|
        invariant naluBytes == Payloads(au)[..i]
        invariant isKeyFrame <==> exists k :: 0 <= k < i && au[k].isIDR
      {
        naluBytes := naluBytes + [au[i].data];
        if au[i].isIDR {
          isKeyFrame := true;
        }
      }
      assert Payloads(au)[..|au|] == Payloads(au);
      var offset: int;
      if nominal {
        offset := idx * SECOND / NOMINAL_FPS;
      } else if idx < |pts| {
        offset := pts[idx];
      } else {
        offset := idx * SECOND / NOMINAL_FPS;
      }
      idx := idx + 1;
      r := Some(Item(naluBytes, offset, isKeyFrame));
    }
  }

  // ---------------------------------------------------------------- regrouping

  /** The slices of a list of units, in order. */
  function Slices(ns: seq<NALU>): seq<NALU> {
    if ns == [] then []
    else Slices(ns[..|ns| - 1]) + (if IsVCL(ns[|ns| - 1]) then [ns[|ns| - 1]] else [])
  }

  lemma SlicesSnoc(ns: seq<NALU>, n: NALU)
    ensures Slices(ns + [n]) == Slices(ns) + (if IsVCL(n) then [n] else [])
  {
    assert (ns + [n])[..|ns|] == ns;
  }

  /** Slices are the units of type 1 and 5. */
  lemma {:induction false} SlicesAre(ns: seq<NALU>, n: NALU)
    ensures n in Slices(ns) <==> n in ns && (n.typ == 1 || n.typ == 5)
  {
    if ns != [] {
      var init, last := ns[..|ns| - 1], ns[|ns| - 1];
      SlicesAre(init, n);
      assert ns == init + [last];
    }
  }

  lemma {:induction false} SlicesAppend(ns: seq<NALU>, ms: seq<NALU>)
    ensures Slices(ns + ms) == Slices(ns) + Slices(ms)
  {
    if ms == [] {
      assert ns + ms == ns && Slices(ns) + [] == Slices(ns);
    } else {
      var init, n := ms[..|ms| - 1], ms[|ms| - 1];
      SlicesAppend(ns, init);
      assert ns + ms == (ns + init) + [n];
      SlicesSnoc(ns + init, n);
    }
  }

  lemma {:induction false} SlicesAreVCL(ns: seq<NALU>)
    ensures HasVCL(ns) <==> Slices(ns) != []
  {
    if ns != [] {
      var init, n := ns[..|ns| - 1], ns[|ns| - 1];
      SlicesAreVCL(init);
      assert HasVCL(init) ==> HasVCL(ns);
      assert HasVCL(ns) ==> HasVCL(init) || IsVCL(n);
      assert IsVCL(n) ==> HasVCL(ns);
    }
  }

  /** Regrouping loses, invents and reorders nothing. */
  lemma {:induction false} GroupsConserve(ns: seq<NALU>)
    ensures Flatten(Groups(ns)) == ns
  {
    if ns != [] {
      var init, n := ns[..|ns| - 1], ns[|ns| - 1];
      GroupsConserve(init);
      AddConserves(Groups(init), n);
      assert ns == init + [n];
    }
  }

  lemma AddConserves(gs: seq<seq<NALU>>, n: NALU)
    ensures Flatten(AddToGroups(gs, n)) == Flatten(gs) + [n]
  {
    if gs == [] || StartsNewAU(gs[|gs| - 1], n) {
      FlattenSnoc(gs, [n]);
    } else {
      var front, g := gs[..|gs| - 1], gs[|gs| - 1];
      assert gs == front + [g];
      FlattenSnoc(front, g);
      FlattenSnoc(front, g + [n]);
      AppendStep(Flatten(front), g, [n]);
    }
  }

  /** Group `k` holds exactly the `k`-th slice. */
  predicate OneSliceEach(gs: seq<seq<NALU>>, ss: seq<NALU>) {
    |gs| == |ss| && forall k :: 0 <= k < |gs| ==> Slices(gs[k]) == [ss[k]]
  }

  /** There is one group per slice, in order, as soon as there is a slice at all. */
  lemma {:induction false} GroupsFollowSlices(ns: seq<NALU>)
    ensures Slices(ns) != [] ==> OneSliceEach(Groups(ns), Slices(ns))
    ensures Slices(ns) == [] ==> |Groups(ns)| <= 1
    ensures Groups(ns) == [] <==> ns == []
  {
    if ns != [] {
      var init, n := ns[..|ns| - 1], ns[|ns| - 1];
      GroupsFollowSlices(init);
      GroupsConserve(init);
      AddFollowsSlices(Groups(init), Slices(init), n);
    }
  }

  lemma AddFollowsSlices(gs: seq<seq<NALU>>, ss: seq<NALU>, n: NALU)
    requires ss == Slices(Flatten(gs))
    requires ss != [] ==> OneSliceEach(gs, ss)
    requires ss == [] ==> |gs| <= 1
    ensures var gs' := AddToGroups(gs, n); var ss' := ss + (if IsVCL(n) then [n] else []);
            && (ss' != [] ==> OneSliceEach(gs', ss'))
            && (ss' == [] ==> |gs'| <= 1)
            && gs' != []
  {
    if gs == [] {
      SlicesSnoc([], n);
      assert Flatten(gs) == [] && AddToGroups(gs, n) == [[n]];
    } else if ss == [] {
      OnlyGrows(gs, n);
    } else if IsVCL(n) {
      SliceOpens(gs, ss, n);
    } else {
      LastGrows(gs, ss, n);
      assert ss + [] == ss;
    }
  }

  lemma SliceOpens(gs: seq<seq<NALU>>, ss: seq<NALU>, n: NALU)
    requires OneSliceEach(gs, ss) && ss != [] && IsVCL(n)
    ensures OneSliceEach(AddToGroups(gs, n), ss + [n])
  {
    SlicesSnoc([], n);
    SlicesAreVCL(gs[|gs| - 1]);
    assert AddToGroups(gs, n) == gs + [[n]];
  }

  lemma OnlyGrows(gs: seq<seq<NALU>>, n: NALU)
    requires |gs| == 1 && Slices(Flatten(gs)) == []
    ensures var gs' := AddToGroups(gs, n);
            |gs'| == 1 && Slices(gs'[0]) == if IsVCL(n) then [n] else []
  {
    var g := gs[0];
    assert Flatten(gs) == g + Flatten([]) == g;
    SlicesAreVCL(g);
    SlicesSnoc(g, n);
  }

  lemma LastGrows(gs: seq<seq<NALU>>, ss: seq<NALU>, n: NALU)
    requires OneSliceEach(gs, ss) && ss != [] && !IsVCL(n)
    ensures OneSliceEach(AddToGroups(gs, n), ss)
  {
    SlicesSnoc(gs[|gs| - 1], n);
    assert Slices(gs[|gs| - 1]) + [] == Slices(gs[|gs| - 1]);
  }

  // ---------------------------------------------------------------- record and replay

  function Units(aus: seq<AccessUnit>): (us: seq<seq<NALU>>)
    ensures |us| == |aus|
  {
    seq(|aus|, k requires 0 <= k < |aus| => aus[k].nalus)
  }

  lemma {:induction false} SlicesOfUnits(us: seq<seq<NALU>>)
    requires forall u :: u in us ==> |Slices(u)| == 1
    ensures OneSliceEach(us, Slices(Flatten(us)))
  {
    if us != [] {
      var init, u := us[..|us| - 1], us[|us| - 1];
      assert us == init + [u];
      SlicesOfUnits(init);
      FlattenSnoc(init, u);
      SlicesAppend(Flatten(init), u);
    }
  }

  /** In a unit with one slice and consistent flags, the slice decides the keyframe flag. */
  lemma {:induction false} SliceDecidesKey(ns: seq<NALU>, s: NALU)
    requires Slices(ns) == [s] && AllGood(ns)
    ensures HasIDR(ns) <==> s.isIDR
    decreases |ns|
  {
    var init, n := ns[..|ns| - 1], ns[|ns| - 1];
    assert n in ns && forall m :: m in init ==> m in ns;
    if IsVCL(n) {
      SlicesAreVCL(init);
      assert Slices(ns) == Slices(init) + [n];
      assert |Slices(init)| == 0 && Slices(ns)[0] == n;
      forall k | 0 <= k < |init| ensures !init[k].isIDR {
        assert !IsVCL(init[k]) && init[k] in ns;
      }
      assert ns[|ns| - 1].isIDR == s.isIDR;
    } else {
      SliceDecidesKey(init, s);
      assert HasIDR(ns) <==> HasIDR(init) || n.isIDR;
    }
  }

  /** No unit is empty or has two slices, and none is without a slice unless it is alone. */
  predicate OneSliceUnits(us: seq<seq<NALU>>) {
    forall u :: u in us ==> u != [] && |Slices(u)| <= 1 && (|us| > 1 ==> |Slices(u)| == 1)
  }

  /** The replay has as many units as were recorded, the same NAL units in order, and the slices in the same units. */
  predicate Follows(gs: seq<seq<NALU>>, us: seq<seq<NALU>>) {
    Flatten(gs) == Flatten(us) && |gs| == |us| && forall k :: 0 <= k < |us| ==> Slices(gs[k]) == Slices(us[k])
  }

  /** The keyframe flags read off the units agree. */
  predicate SameKeys(gs: seq<seq<NALU>>, us: seq<seq<NALU>>) {
    |gs| == |us| && forall k :: 0 <= k < |us| ==> (HasIDR(gs[k]) <==> HasIDR(us[k]))
  }

  /** The replay follows the recording exactly when a stream can carry its units and they have one slice each. */
  lemma ReplayFollowsExactly(us: seq<seq<NALU>>)
    ensures var gs := Groups(Parsed(Print(Flatten(us))));
            && (Follows(gs, us) <==> AllGood(Flatten(us)) && OneSliceUnits(us))
            && (Follows(gs, us) ==> SameKeys(gs, us))
  {
    var ns := Flatten(us);
    var gs := Groups(Parsed(Print(ns)));
    RoundTripExactly(ns);
    GroupsConserve(Parsed(Print(ns)));
    if AllGood(ns) {
      FollowsExactly(us);
    }
  }

  lemma FollowsExactly(us: seq<seq<NALU>>)
    requires AllGood(Flatten(us))
    ensures var gs := Groups(Flatten(us));
            && (Follows(gs, us) <==> OneSliceUnits(us))
            && (Follows(gs, us) ==> SameKeys(gs, us))
  {
    if us == [] {
      assert Flatten(us) == [] && Groups([]) == [];
    } else if |us| == 1 {
      AloneFollowsExactly(us[0]);
      assert us == [us[0]];
    } else {
      if Follows(Groups(Flatten(us)), us) {
        SeveralHaveOneSlice(us);
      }
      if OneSliceUnits(us) {
        OneSliceFollows(us);
      }
    }
  }

  lemma AloneFollowsExactly(u: seq<NALU>)
    ensures Flatten([u]) == u
    ensures Follows(Groups(u), [u]) <==> OneSliceUnits([u])
    ensures Follows(Groups(u), [u]) ==> Groups(u) == [u]
  {
    var gs := Groups(u);
    assert [u][1..] == [] && Flatten([u]) == u;
    GroupsConserve(u);
    GroupsFollowSlices(u);
    if |gs| == 1 {
      assert gs == [gs[0]] && gs[1..] == [] && Flatten(gs) == gs[0];
    }
  }

  lemma SeveralHaveOneSlice(us: seq<seq<NALU>>)
    requires |us| > 1 && Follows(Groups(Flatten(us)), us)
    ensures OneSliceUnits(us)
  {
    var ns := Flatten(us);
    GroupsFollowSlices(ns);
    forall u | u in us ensures u != [] && |Slices(u)| == 1 {
      var k :| 0 <= k < |us| && us[k] == u;
      assert Slices(us[k]) == Slices(Groups(ns)[k]) == [Slices(ns)[k]];
    }
  }

  lemma OneSliceFollows(us: seq<seq<NALU>>)
    requires AllGood(Flatten(us)) && |us| > 1 && OneSliceUnits(us)
    ensures Follows(Groups(Flatten(us)), us) && SameKeys(Groups(Flatten(us)), us)
  {
    var gs := Groups(Flatten(us));
    GroupsConserve(Flatten(us));
    GroupsFollowSlices(Flatten(us));
    SlicesOfUnits(us);
    forall k | 0 <= k < |us|
      ensures |gs| == |us| && Slices(gs[k]) == Slices(us[k]) && (HasIDR(gs[k]) <==> HasIDR(us[k]))
    {
      SameKey(us, gs, k);
    }
  }

  lemma SameKey(us: seq<seq<NALU>>, gs: seq<seq<NALU>>, k: nat)
    requires k < |us| && AllGood(Flatten(us)) && Flatten(gs) == Flatten(us)
    requires OneSliceEach(us, Slices(Flatten(us)))
    requires Slices(Flatten(us)) != [] ==> OneSliceEach(gs, Slices(Flatten(us)))
    ensures |gs| == |us| && Slices(gs[k]) == Slices(us[k]) && (HasIDR(gs[k]) <==> HasIDR(us[k]))
  {
    var s := Slices(Flatten(us))[k];
    AllGoodInside(us, k);
    AllGoodInside(gs, k);
    SliceDecidesKey(us[k], s);
    SliceDecidesKey(gs[k], s);
  }

  lemma {:induction false} AllGoodInside(us: seq<seq<NALU>>, k: nat)
    requires k < |us| && AllGood(Flatten(us))
    ensures AllGood(us[k])
  {
    if k > 0 {
      AllGoodInside(us[1..], k - 1);
    }
  }

  /**
   * What regrouping can return: after the first group, every group begins with
   * its only slice; the first group has a slice unless it is the only group.
   */
  predicate SliceFirst(us: seq<seq<NALU>>) {
    && (forall k :: 0 <= k < |us| ==> us[k] != [])
    && (forall k :: 1 <= k < |us| ==> IsVCL(us[k][0]) && !HasVCL(us[k][1..]))
    && (us != [] ==> |Slices(us[0])| <= 1)
    && (|us| > 1 ==> |Slices(us[0])| == 1)
  }

  lemma {:induction false} GroupsAreSliceFirst(ns: seq<NALU>)
    ensures SliceFirst(Groups(ns))
  {
    if ns != [] {
      var init := ns[..|ns| - 1];
      GroupsAreSliceFirst(init);
      AddKeepsSliceFirst(Groups(init), ns[|ns| - 1]);
    }
  }

  lemma AddKeepsSliceFirst(gs: seq<seq<NALU>>, n: NALU)
    requires SliceFirst(gs)
    ensures SliceFirst(AddToGroups(gs, n))
  {
    SlicesSnoc([], n);
    if gs == [] || StartsNewAU(gs[|gs| - 1], n) {
      NewKeepsSliceFirst(gs, n);
    } else if |gs| == 1 {
      SlicesSnoc(gs[0], n);
      SlicesAreVCL(gs[0]);
    } else {
      LastKeepsSliceFirst(gs, n);
    }
  }

  lemma NewKeepsSliceFirst(gs: seq<seq<NALU>>, n: NALU)
    requires SliceFirst(gs) && (gs == [] || StartsNewAU(gs[|gs| - 1], n))
    ensures SliceFirst(gs + [[n]])
  {
    SlicesSnoc([], n);
    if gs != [] {
      SlicesAreVCL(gs[0]);
    }
  }

  lemma LastKeepsSliceFirst(gs: seq<seq<NALU>>, n: NALU)
    requires SliceFirst(gs) && |gs| > 1 && !StartsNewAU(gs[|gs| - 1], n)
    ensures SliceFirst(AddToGroups(gs, n))
  {
    var m := |gs| - 1;
    var g := gs[m];
    assert IsVCL(g[0]) && !IsVCL(n);
    assert (g + [n])[1..] == g[1..] + [n];
    assert AddToGroups(gs, n) == gs[..m] + [g + [n]];
  }

  /**
   * When is the replay the recording, unit for unit? Exactly when a stream can
   * carry its NAL units, and every unit after the first begins with its only slice. In particular parameter sets
   * recorded in the middle of a segment come back attached to the unit before.
   */
  lemma ReplayIsRecordingExactly(us: seq<seq<NALU>>)
    ensures Groups(Parsed(Print(Flatten(us)))) == us <==> AllGood(Flatten(us)) && SliceFirst(us)
  {
    RoundTripExactly(Flatten(us));
    GroupsConserve(Parsed(Print(Flatten(us))));
    if SliceFirst(us) {
      SliceFirstIsKept(us);
    }
    GroupsAreSliceFirst(Parsed(Print(Flatten(us))));
  }

  lemma {:induction false} SliceFirstIsKept(us: seq<seq<NALU>>)
    requires SliceFirst(us)
    ensures Groups(Flatten(us)) == us
  {
    if us != [] {
      var init, u := us[..|us| - 1], us[|us| - 1];
      assert us == init + [u];
      FlattenSnoc(init, u);
      SliceFirstIsKept(init);
      LastUnitFits(us, init, u);
      UnitJoins(init, u);
    }
  }

  lemma UnitJoins(us: seq<seq<NALU>>, u: seq<NALU>)
    requires Groups(Flatten(us)) == us && u != []
    requires us != [] ==> HasVCL(us[|us| - 1]) && IsVCL(u[0]) && !HasVCL(u[1..])
    requires us == [] ==> |Slices(u)| <= 1
    ensures Groups(Flatten(us) + u) == us + [u]
  {
    TailJoins(us, u, |u|);
    assert u[..|u|] == u;
  }

  lemma LastUnitFits(us: seq<seq<NALU>>, init: seq<seq<NALU>>, u: seq<NALU>)
    requires SliceFirst(us) && us == init + [u]
    ensures u != []
    ensures init != [] ==> HasVCL(init[|init| - 1]) && IsVCL(u[0]) && !HasVCL(u[1..])
    ensures init == [] ==> |Slices(u)| <= 1
  {
    assert us[|init|] == u;
    if init != [] {
      assert us[0] == init[0] && us[|init| - 1] == init[|init| - 1];
      SlicesAreVCL(us[0]);
    }
  }

  /** Adding the units of `u` one by one builds the last group. */
  lemma {:induction false} TailJoins(us: seq<seq<NALU>>, u: seq<NALU>, k: nat)
    requires Groups(Flatten(us)) == us && 1 <= k <= |u|
    requires us != [] ==> HasVCL(us[|us| - 1]) && IsVCL(u[0]) && !HasVCL(u[1..])
    requires us == [] ==> |Slices(u)| <= 1
    ensures Groups(Flatten(us) + u[..k]) == us + [u[..k]]
  {
    var ns := Flatten(us);
    assert u[..k] == u[..k - 1] + [u[k - 1]];
    assert ns + u[..k] == (ns + u[..k - 1]) + [u[k - 1]];
    GroupsSnoc(ns + u[..k - 1], u[k - 1]);
    if k == 1 {
      assert ns + u[..0] == ns;
    } else {
      TailJoins(us, u, k - 1);
      JoinsTail(us, u, k);
    }
  }

  lemma JoinsTail(us: seq<seq<NALU>>, u: seq<NALU>, k: nat)
    requires 2 <= k <= |u|
    requires us != [] ==> !HasVCL(u[1..])
    requires us == [] ==> |Slices(u)| <= 1
    ensures AddToGroups(us + [u[..k - 1]], u[k - 1]) == us + [u[..k]]
  {
    var n := u[k - 1];
    if us != [] {
      assert u[1..][k - 2] == n;
    } else {
      var a, b := u[..k - 1], u[k..];
      assert u == (a + [n]) + b;
      SlicesAppend(a + [n], b);
      SlicesSnoc(a, n);
      SlicesAreVCL(a);
    }
    assert u[..k] == u[..k - 1] + [n];
  }

  /** A slice, then SPS, PPS and IDR as the second unit: the replay gives both sets to the first. */
  lemma MidSegmentParameterSetsMove(slice: NALU, sps: NALU, pps: NALU, idr: NALU)
    requires slice.typ == 1 && sps.typ == 7 && pps.typ == 8 && idr.typ == 5
    ensures Groups([slice] + [sps] + [pps] + [idr]) == [[slice, sps, pps], [idr]]
  {
    var b := [slice] + [sps];
    var c := b + [pps];
    assert [slice][..0] == [];
    assert Groups([slice]) == AddToGroups(Groups([]), slice) == [[slice]];
    GroupsSnoc([slice], sps);
    JoinOnly([slice], sps);
    GroupsSnoc(b, pps);
    JoinOnly(b, pps);
    GroupsSnoc(c, idr);
    assert IsVCL(c[0]) && c == [slice, sps, pps];
  }

  lemma JoinOnly(g: seq<NALU>, n: NALU)
    requires !IsVCL(n)
    ensures AddToGroups([g], n) == [g + [n]]
  {
    assert [g][..0] == [];
  }
}
