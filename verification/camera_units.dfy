/**
 * The camera's read loop: it grows a pending buffer read by read, takes the
 * complete NAL units out of it, groups them into access units and sends each
 * access unit as one re-framed byte string.
 */
module CameraUnits {
  import opened Basics
  import opened AnnexB
  import opened AnnexBLaws

  predicate ContainsType(ns: seq<NALU>, typ: Byte) {
    exists k :: 0 <= k < |ns| && ns[k].typ == typ
  }

  /** SPS, PPS and IDR join the parameter sets before them; everything else starts a unit. */
  predicate StartsNewAU(n: NALU, cur: seq<NALU>) {
    if n.isSPS then true
    else if n.isPPS then !ContainsType(cur, 7)
    else if n.isIDR then !ContainsType(cur, 7) && !ContainsType(cur, 8)
    else true
  }

  datatype Grouping = Grouping(sent: seq<seq<NALU>>, cur: seq<NALU>) {
    function Add(n: NALU): Grouping {
      if StartsNewAU(n, cur) && |cur| > 0 then Grouping(sent + [cur], [n])
      else Grouping(sent, cur + [n])
    }

    function Flush(): seq<seq<NALU>> {
      if |cur| > 0 then sent + [cur] else sent
    }
  }

  /** The grouping state after all of `ns`. */
  function Group(ns: seq<NALU>): Grouping {
    if ns == [] then Grouping([], []) else Group(ns[..|ns| - 1]).Add(ns[|ns| - 1])
  }

  lemma GroupSnoc(ns: seq<NALU>, n: NALU)
    ensures Group(ns + [n]) == Group(ns).Add(n)
  {
    assert (ns + [n])[..|ns|] == ns;
  }

  function Frames(units: seq<seq<NALU>>): (fs: seq<seq<Byte>>)
    ensures |fs| == |units|
  {
    seq(|units|, k requires 0 <= k < |units| => Print(units[k]))
  }

  method SendFrame(nalus: seq<NALU>) returns (data: seq<Byte>)
    ensures data == Print(nalus)
  {
    data := [];
    for i := 0 to |nalus|
      invariant data == Print(nalus[..i])
    {
      assert nalus[..i + 1] == nalus[..i] + [nalus[i]];
      PrintAppend(nalus[..i], [nalus[i]]);
      assert Print([nalus[i]]) == START_CODE + nalus[i].data + [];
      data := data + [0, 0, 0, 1];
      data := data + nalus[i].data;
    }
    assert nalus[..|nalus|] == nalus;
  }

  /** `chunks` are the reads up to the end of the stream; the result lists the frames sent. */
  method ReadLoop(chunks: seq<seq<Byte>>) returns (frames: seq<seq<Byte>>)
    ensures frames == Frames(Group(Extract(Flatten(chunks)).0).Flush())
  {
    frames := [];
    var pending: seq<Byte> := [];
    var curAU: seq<NALU> := [];
    ghost var state := Grouping([], []);
    for i := 0 to |chunks|
      invariant Feed(chunks[..i]).1 == pending
      invariant state == Group(Feed(chunks[..i]).0)
      invariant frames == Frames(state.sent) && curAU == state.cur
    {
      ghost var emitted := Feed(chunks[..i]).0;
      FeedSnoc(chunks, i);
      var n := |chunks[i]|;
      if n > 0 {
        pending := pending + chunks[i];
        var nalus, rest := ExtractCompleteNALUs(pending);
        pending := rest;
        frames, curAU, state := Take(nalus, frames, curAU, state, emitted);
      } else {
        NothingToExtract(chunks[..i], chunks[i]);
      }
    }
    assert chunks[..|chunks|] == chunks;
    StreamingRefinesBatch(chunks);
    if |curAU| > 0 {
      var last := SendFrame(curAU);
      FramesSnoc(state.sent, curAU);
      frames := frames + [last];
    }
  }

  /** The inner loop over the units of one read. */
  method Take(nalus: seq<NALU>, frames0: seq<seq<Byte>>, cur0: seq<NALU>, ghost state0: Grouping,
              ghost emitted: seq<NALU>)
    returns (frames: seq<seq<Byte>>, curAU: seq<NALU>, ghost state: Grouping)
    requires state0 == Group(emitted) && frames0 == Frames(state0.sent) && cur0 == state0.cur
    ensures state == Group(emitted + nalus)
    ensures frames == Frames(state.sent) && curAU == state.cur
  {
    frames, curAU, state := frames0, cur0, state0;
    assert emitted + nalus[..0] == emitted;
    for i := 0 to |nalus|
      invariant state == Group(emitted + nalus[..i])
      invariant frames == Frames(state.sent) && curAU == state.cur
    {
      var nalu := nalus[i];
      assert emitted + nalus[..i + 1] == (emitted + nalus[..i]) + [nalu];
      GroupSnoc(emitted + nalus[..i], nalu);
      state := state.Add(nalu);
      if StartsNewAU(nalu, curAU) && |curAU| > 0 {
        var frame := SendFrame(curAU);
        FramesSnoc(Group(emitted + nalus[..i]).sent, curAU);
        frames := frames + [frame];
        curAU := [];
      }
      curAU := curAU + [nalu];
    }
    assert nalus[..|nalus|] == nalus;
  }

  lemma FeedSnoc(chunks: seq<seq<Byte>>, i: nat)
    requires i < |chunks|
    ensures var (ns, rest) := Feed(chunks[..i]); var (ms, rest') := Extract(rest + chunks[i]);
            Feed(chunks[..i + 1]) == (ns + ms, rest')
  {
    assert chunks[..i + 1][..i] == chunks[..i];
  }

  /** An empty read changes nothing. */
  lemma NothingToExtract(chunks: seq<seq<Byte>>, empty: seq<Byte>)
    requires empty == []
    ensures var (ns, rest) := Feed(chunks);
            rest + empty == rest && Extract(rest) == ([], rest) && ns + [] == ns
  {
    var d := Flatten(chunks);
    StreamingRefinesBatch(chunks);
    ExtractStep(d, []);
    var (ns, rest) := Extract(d);
    assert d + [] == d && rest + [] == rest;
    assert Extract(rest) == (Extract(rest).0, rest) && ns + Extract(rest).0 == ns;
    assert |Extract(rest).0| == 0;
  }

  lemma FramesSnoc(units: seq<seq<NALU>>, u: seq<NALU>)
    ensures Frames(units + [u]) == Frames(units) + [Print(u)]
  {
  }

  // ---------------------------------------------------------------- what the frames are

  /** Grouping loses, invents and reorders nothing. */
  lemma {:induction false} GroupConserves(ns: seq<NALU>)
    ensures Flatten(Group(ns).sent) + Group(ns).cur == ns
  {
    if ns == [] {
      assert Group(ns) == Grouping([], []);
    } else {
      var init, n := ns[..|ns| - 1], ns[|ns| - 1];
      GroupConserves(init);
      AddConserves(Group(init), n);
      assert Group(ns) == Group(init).Add(n);
      assert ns == init + [n];
    }
  }

  /** Neither does the final flush. */
  lemma FlushConserves(ns: seq<NALU>)
    ensures Flatten(Group(ns).Flush()) == ns
  {
    var g := Group(ns);
    GroupConserves(ns);
    FlattenSnoc(g.sent, g.cur);
    assert g.cur == [] ==> Flatten(g.sent) + g.cur == Flatten(g.sent);
  }

  lemma AddConserves(g: Grouping, n: NALU)
    ensures Flatten(g.Add(n).sent) + g.Add(n).cur == (Flatten(g.sent) + g.cur) + [n]
  {
    if StartsNewAU(n, g.cur) && |g.cur| > 0 {
      FlattenSnoc(g.sent, g.cur);
    } else {
      AppendStep(Flatten(g.sent), g.cur, [n]);
    }
  }

  /**
   * An access unit is one NAL unit, or an SPS followed only by PPS and IDR
   * units, or a PPS followed only by IDR units.
   */
  predicate WellShaped(u: seq<NALU>) {
    && u != []
    && (|u| == 1
        || (u[0].typ == 7 && forall k :: 1 <= k < |u| ==> u[k].typ == 8 || u[k].typ == 5)
        || (u[0].typ == 8 && forall k :: 1 <= k < |u| ==> u[k].typ == 5))
  }

  lemma {:induction false} UnitsAreWellShaped(ns: seq<NALU>)
    requires AllGood(ns)
    ensures forall u :: u in Group(ns).sent ==> WellShaped(u)
    ensures ns != [] ==> WellShaped(Group(ns).cur)
  {
    if ns != [] {
      var init, n := ns[..|ns| - 1], ns[|ns| - 1];
      assert n in ns && forall m :: m in init ==> m in ns;
      UnitsAreWellShaped(init);
      var g := Group(init);
      if !(StartsNewAU(n, g.cur) && |g.cur| > 0) && init != [] {
        JoinedIsWellShaped(g.cur, n);
      }
    }
  }

  lemma JoinedIsWellShaped(cur: seq<NALU>, n: NALU)
    requires WellShaped(cur) && Good(n) && !StartsNewAU(n, cur)
    ensures WellShaped(cur + [n])
  {
    assert n.typ == 8 || n.typ == 5;
    var k :| 0 <= k < |cur| && (cur[k].typ == 7 || (n.typ == 5 && cur[k].typ == 8));
    assert cur[0].typ == 7 || cur[0].typ == 8;
  }

  /** An SPS, PPS and IDR in a row end up together at the head of one access unit. */
  lemma KeyframeKeepsItsParameterSets(ns: seq<NALU>, sps: NALU, pps: NALU, idr: NALU)
    requires Good(sps) && sps.isSPS && Good(pps) && pps.isPPS && Good(idr) && idr.isIDR
    ensures Group(ns + [sps] + [pps] + [idr]).cur == [sps, pps, idr]
  {
    GroupSnoc(ns, sps);
    GroupSnoc(ns + [sps], pps);
    GroupSnoc(ns + [sps] + [pps], idr);
    AddKeyframe(Group(ns), sps, pps, idr);
  }

  lemma AddKeyframe(g: Grouping, sps: NALU, pps: NALU, idr: NALU)
    requires Good(sps) && sps.isSPS && Good(pps) && pps.isPPS && Good(idr) && idr.isIDR
    ensures g.Add(sps).Add(pps).Add(idr).cur == [sps, pps, idr]
  {
    assert g.Add(sps).cur == [sps] && [sps][0].typ == 7;
    assert g.Add(sps).Add(pps).cur == [sps, pps] && [sps, pps][0].typ == 7;
  }

  predicate AllIDR(ns: seq<NALU>) {
    forall n :: n in ns ==> n.isIDR
  }

  lemma ParameterSetsOpen(ns: seq<NALU>, sps: NALU, pps: NALU)
    requires Good(sps) && sps.isSPS && Good(pps) && pps.isPPS
    ensures Group(ns + [sps] + [pps]) == Grouping(Group(ns).Flush(), [sps, pps])
  {
    GroupSnoc(ns, sps);
    GroupSnoc(ns + [sps], pps);
    assert Group(ns + [sps]).cur == [sps] && [sps][0].typ == 7;
  }

  lemma {:induction false} SlicesStay(ns: seq<NALU>, idrs: seq<NALU>)
    requires AllGood(idrs) && AllIDR(idrs) && Group(ns).cur != [] && Group(ns).cur[0].typ == 7
    ensures Group(ns + idrs) == Grouping(Group(ns).sent, Group(ns).cur + idrs)
  {
    var cur := Group(ns).cur;
    if idrs == [] {
      assert ns + idrs == ns && cur + idrs == cur;
    } else {
      var init, n := idrs[..|idrs| - 1], idrs[|idrs| - 1];
      assert n in idrs && forall m :: m in init ==> m in idrs;
      SlicesStay(ns, init);
      OneMoreSlice(ns + init, n, Group(ns).sent, cur + init);
      assert ns + idrs == (ns + init) + [n] && cur + idrs == (cur + init) + [n];
    }
  }

  lemma OneMoreSlice(ns: seq<NALU>, n: NALU, sent: seq<seq<NALU>>, cur: seq<NALU>)
    requires Group(ns) == Grouping(sent, cur) && Good(n) && n.isIDR && cur != [] && cur[0].typ == 7
    ensures Group(ns + [n]) == Grouping(sent, cur + [n])
  {
    GroupSnoc(ns, n);
    SliceStays(Group(ns), n);
  }

  lemma SliceStays(g: Grouping, n: NALU)
    requires Good(n) && n.isIDR && g.cur != [] && g.cur[0].typ == 7
    ensures g.Add(n) == Grouping(g.sent, g.cur + [n])
  {
  }

  /** All slices of a keyframe picture stay with the parameter sets in front of them, however many there are. */
  lemma KeyframePictureStaysWhole(ns: seq<NALU>, sps: NALU, pps: NALU, idrs: seq<NALU>)
    requires Good(sps) && sps.isSPS && Good(pps) && pps.isPPS && AllGood(idrs) && AllIDR(idrs)
    ensures Group(ns + [sps] + [pps] + idrs) == Grouping(Group(ns).Flush(), [sps, pps] + idrs)
  {
    ParameterSetsOpen(ns, sps, pps);
    SlicesStay(ns + [sps] + [pps], idrs);
  }

  /** The last unit of a stream belongs to the access unit that the units before it left unfinished. */
  predicate JoinsLast(ns: seq<NALU>) {
    ns != [] && Group(ns).sent == Group(ns[..|ns| - 1]).sent && Group(ns[..|ns| - 1]).cur != []
  }

  /**
   * Exactly when a unit joins the access unit before it: a PPS behind an SPS of that
   * unit, or an IDR behind an SPS or a PPS of it, and nothing else. Otherwise it ends
   * that unit and starts the next.
   */
  lemma JoinsExactly(ns: seq<NALU>, n: NALU)
    requires AllGood(ns) && Good(n)
    ensures var cur := Group(ns).cur;
            && (JoinsLast(ns + [n]) <==>
                  (n.typ == 8 && exists m :: m in cur && m.typ == 7)
                  || (n.typ == 5 && exists m :: m in cur && (m.typ == 7 || m.typ == 8)))
            && Group(ns + [n]).cur == (if JoinsLast(ns + [n]) then cur + [n] else [n])
            && (!JoinsLast(ns + [n]) ==>
                  Group(ns + [n]).sent == if cur == [] then Group(ns).sent else Group(ns).sent + [cur])
  {
    var cur := Group(ns).cur;
    GroupSnoc(ns, n);
    assert (ns + [n])[..|ns|] == ns;
    MemberByPlace(cur, 7);
    MemberByPlace(cur, 8);
    if cur == [] {
      assert cur + [n] == [n];
    }
  }

  lemma MemberByPlace(ns: seq<NALU>, typ: Byte)
    ensures ContainsType(ns, typ) <==> exists m :: m in ns && m.typ == typ
  {
    if ContainsType(ns, typ) {
      var k :| 0 <= k < |ns| && ns[k].typ == typ;
      assert ns[k] in ns;
    }
  }

  /** A unit that is neither parameter set nor IDR, such as an SEI, ends the unit before and starts one of its own. */
  lemma OthersStandAlone(ns: seq<NALU>, n: NALU)
    requires !n.isSPS && !n.isPPS && !n.isIDR
    ensures Group(ns + [n]) == Grouping(Group(ns).Flush(), [n])
  {
    GroupSnoc(ns, n);
  }

  /** The frames do not depend on where the reads cut the stream. */
  lemma CutsDoNotMatter(a: seq<seq<Byte>>, b: seq<seq<Byte>>)
    requires Flatten(a) == Flatten(b)
    ensures Group(Feed(a).0) == Group(Feed(b).0) && Feed(a).1 == Feed(b).1
  {
    StreamingRefinesBatch(a);
    StreamingRefinesBatch(b);
  }

  /**
   * Parsing the frames sent for a stream gives, frame by frame, access units
   * whose concatenation is the parse of the stream without its last unit: that
   * one is still pending when the stream ends and is never sent.
   */
  lemma FramesCarryTheStream(d: seq<Byte>)
    requires CoresFrom(d, 0) != []
    ensures var units := Group(Extract(d).0).Flush(); var fs := Frames(units);
            && (forall k :: 0 <= k < |fs| ==> Parsed(fs[k]) == units[k])
            && Flatten(units) + Parsed(Extract(d).1) == Parsed(d)
            && |Parsed(Extract(d).1)| <= 1
  {
    var ns := Extract(d).0;
    var units := Group(ns).Flush();
    ExtractIsParseUpToLastStartCode(d);
    ParsedGood(d);
    FlushConserves(ns);
    forall k | 0 <= k < |units| ensures Parsed(Print(units[k])) == units[k] {
      InFlatten(units, k);
      assert forall n :: n in units[k] ==> n in Flatten(units) && n in Parsed(d);
      ParseUndoesPrint(units[k]);
    }
  }

  lemma {:induction false} InFlatten<T>(xss: seq<seq<T>>, k: nat)
    requires k < |xss|
    ensures forall x :: x in xss[k] ==> x in Flatten(xss)
  {
    if k > 0 {
      InFlatten(xss[1..], k - 1);
    }
  }
}
