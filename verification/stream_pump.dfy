/**
 * From frames to access units: each frame of the camera is parsed, and the latest
 * parameter sets are put in front of a keyframe that lacks one of them.
 */
module StreamPump {
  import opened Basics
  import opened AnnexB
  import opened AnnexBLaws
  import SegmentReplay

  datatype Frame = Frame(data: seq<Byte>, timestamp: int)

  /** The latest parameter sets seen. */
  datatype Cache = Cache(sps: Option<seq<Byte>>, pps: Option<seq<Byte>>)

  predicate HasSPS(ns: seq<NALU>) {
    exists k :: 0 <= k < |ns| && ns[k].isSPS
  }

  predicate HasPPS(ns: seq<NALU>) {
    exists k :: 0 <= k < |ns| && ns[k].isPPS
  }

  function Remember(c: Cache, ns: seq<NALU>): Cache {
    if ns == [] then c
    else
      var before, n := Remember(c, ns[..|ns| - 1]), ns[|ns| - 1];
      Cache(if n.isSPS then Some(n.data) else before.sps, if n.isPPS then Some(n.data) else before.pps)
  }

  /** The parameter sets put in front: those that are missing, once there are both. */
  function Missing(c: Cache, ns: seq<NALU>): seq<NALU> {
    if !SegmentReplay.HasIDR(ns) || c.sps.None? || c.pps.None? then []
    else
      (if HasSPS(ns) then [] else [NALU(7, c.sps.value, false, true, false)])
      + (if HasPPS(ns) then [] else [NALU(8, c.pps.value, false, false, true)])
  }

  /** The parameter sets known after some frames. */
  function Known(frames: seq<Frame>): Cache {
    if frames == [] then Cache(None, None)
    else Remember(Known(frames[..|frames| - 1]), Parsed(frames[|frames| - 1].data))
  }

  /** The access unit made of a frame that comes after others. */
  function UnitOf(before: seq<Frame>, f: Frame): AccessUnit {
    var ns := Parsed(f.data);
    AccessUnit(Missing(Remember(Known(before), ns), ns) + ns, f.timestamp, SegmentReplay.HasIDR(ns))
  }

  /** What the frames become; a frame without NAL units becomes nothing. */
  function Pumped(frames: seq<Frame>): seq<AccessUnit> {
    if frames == [] then []
    else
      var before, f := frames[..|frames| - 1], frames[|frames| - 1];
      Pumped(before) + (if Parsed(f.data) == [] then [] else [UnitOf(before, f)])
  }

  lemma PumpedSnoc(frames: seq<Frame>, i: nat)
    requires i < |frames|
    ensures Known(frames[..i + 1]) == Remember(Known(frames[..i]), Parsed(frames[i].data))
    ensures Pumped(frames[..i + 1])
         == if Parsed(frames[i].data) == [] then Pumped(frames[..i])
            else Pumped(frames[..i]) + [UnitOf(frames[..i], frames[i])]
  {
    assert frames[..i + 1][..i] == frames[..i];
    assert Pumped(frames[..i]) + [] == Pumped(frames[..i]);
  }

  method Pump(frames: seq<Frame>) returns (units: seq<AccessUnit>)
    ensures units == Pumped(frames)
  {
    units := [];
    var cachedSPS: Option<seq<Byte>>, cachedPPS: Option<seq<Byte>> := None, None;
    for i := 0 to |frames|
      invariant units == Pumped(frames[..i]) && Cache(cachedSPS, cachedPPS) == Known(frames[..i])
    {
      PumpedSnoc(frames, i);
      var nalus := Parse(frames[i].data);
      if |nalus| == 0 {
        continue;
      }
      var hasSPS, hasPPS, hasIDR;
      cachedSPS, cachedPPS, hasSPS, hasPPS, hasIDR := Scan(nalus, cachedSPS, cachedPPS);
      if hasIDR && (!hasSPS || !hasPPS) && cachedSPS.Some? && cachedPPS.Some? {
        nalus := Inject(nalus, hasSPS, hasPPS, cachedSPS.value, cachedPPS.value);
      }
      assert nalus == Missing(Known(frames[..i + 1]), Parsed(frames[i].data)) + Parsed(frames[i].data);
      units := units + [AccessUnit(nalus, frames[i].timestamp, hasIDR)];
    }
    assert frames[..|frames|] == frames;
  }

  method Inject(nalus: seq<NALU>, hasSPS: bool, hasPPS: bool, sps: seq<Byte>, pps: seq<Byte>)
    returns (all: seq<NALU>)
    requires SegmentReplay.HasIDR(nalus) && hasSPS == HasSPS(nalus) && hasPPS == HasPPS(nalus)
    ensures all == Missing(Cache(Some(sps), Some(pps)), nalus) + nalus
  {
    var injected: seq<NALU> := [];
    if !hasSPS {
      injected := injected + [NALU(7, sps, false, true, false)];
    }
    if !hasPPS {
      injected := injected + [NALU(8, pps, false, false, true)];
    }
    all := injected + nalus;
  }

  /** The loop over the NAL units of one frame. */
  method Scan(nalus: seq<NALU>, sps0: Option<seq<Byte>>, pps0: Option<seq<Byte>>)
    returns (sps: Option<seq<Byte>>, pps: Option<seq<Byte>>, hasSPS: bool, hasPPS: bool, hasIDR: bool)
    ensures Cache(sps, pps) == Remember(Cache(sps0, pps0), nalus)
    ensures hasSPS == HasSPS(nalus) && hasPPS == HasPPS(nalus) && hasIDR == SegmentReplay.HasIDR(nalus)
  {
    sps, pps, hasSPS, hasPPS, hasIDR := sps0, pps0, false, false, false;
    for i := 0 to |nalus|
      invariant Cache(sps, pps) == Remember(Cache(sps0, pps0), nalus[..i])
      invariant hasSPS <==> exists k :: 0 <= k < i && nalus[k].isSPS
      invariant hasPPS <==> exists k :: 0 <= k < i && nalus[k].isPPS
      invariant hasIDR <==> exists k :: 0 <= k < i && nalus[k].isIDR
    {
      assert nalus[..i + 1][..i] == nalus[..i];
      var n := nalus[i];
      if n.isSPS {
        sps, hasSPS := Some(n.data), true;
      }
      if n.isPPS {
        pps, hasPPS := Some(n.data), true;
      }
      if n.isIDR {
        hasIDR := true;
      }
    }
    assert nalus[..|nalus|] == nalus;
  }

  // ---------------------------------------------------------------- what the units are

  /** A unit as it is handed on: of NAL units that a stream can carry, and not empty. */
  predicate Carried(u: AccessUnit) {
    u.nalus != [] && AllGood(u.nalus)
  }

  predicate FlagIsTrue(u: AccessUnit) {
    u.keyFrame <==> SegmentReplay.HasIDR(u.nalus)
  }

  predicate GoodCache(c: Cache) {
    && (c.sps.Some? ==> c.sps.value != [] && Good(MakeNALU(c.sps.value)) && MakeNALU(c.sps.value).isSPS)
    && (c.pps.Some? ==> c.pps.value != [] && Good(MakeNALU(c.pps.value)) && MakeNALU(c.pps.value).isPPS)
  }

  lemma {:induction false} RememberGood(c: Cache, ns: seq<NALU>)
    requires GoodCache(c) && AllGood(ns)
    ensures GoodCache(Remember(c, ns))
  {
    if ns != [] {
      var init := ns[..|ns| - 1];
      assert ns[|ns| - 1] in ns && forall m :: m in init ==> m in ns;
      RememberGood(c, init);
    }
  }

  lemma {:induction false} KnownGood(frames: seq<Frame>)
    ensures GoodCache(Known(frames))
  {
    if frames != [] {
      KnownGood(frames[..|frames| - 1]);
      ParsedGood(frames[|frames| - 1].data);
      RememberGood(Known(frames[..|frames| - 1]), Parsed(frames[|frames| - 1].data));
    }
  }

  /** What is put in front is a parameter set again when it is parsed, and no IDR. */
  lemma MissingIsGood(c: Cache, ns: seq<NALU>)
    requires GoodCache(c)
    ensures forall n :: n in Missing(c, ns) ==> Good(n) && !n.isIDR
  {
  }

  lemma UnitIsSound(before: seq<Frame>, f: Frame)
    requires Parsed(f.data) != []
    ensures Carried(UnitOf(before, f)) && FlagIsTrue(UnitOf(before, f))
  {
    var ns := Parsed(f.data);
    var c := Remember(Known(before), ns);
    KnownGood(before);
    ParsedGood(f.data);
    RememberGood(Known(before), ns);
    MissingIsGood(c, ns);
    var ms := Missing(c, ns);
    IDRBehind(ms, ns);
  }

  lemma IDRBehind(ms: seq<NALU>, ns: seq<NALU>)
    requires forall n :: n in ms ==> !n.isIDR
    ensures SegmentReplay.HasIDR(ms + ns) <==> SegmentReplay.HasIDR(ns)
  {
    if SegmentReplay.HasIDR(ns) {
      var k :| 0 <= k < |ns| && ns[k].isIDR;
      assert (ms + ns)[|ms| + k].isIDR;
    }
    if SegmentReplay.HasIDR(ms + ns) {
      var k :| 0 <= k < |ms + ns| && (ms + ns)[k].isIDR;
      assert forall j :: 0 <= j < |ms| ==> ms[j] in ms;
      assert ns[k - |ms|].isIDR;
    }
  }

  /** Every unit handed on is carried by a stream, and flagged by whether it holds an IDR. */
  lemma {:induction false} PumpedIsSound(frames: seq<Frame>)
    ensures forall u :: u in Pumped(frames) ==> Carried(u) && FlagIsTrue(u)
  {
    if frames != [] {
      var before, f := frames[..|frames| - 1], frames[|frames| - 1];
      PumpedIsSound(before);
      if Parsed(f.data) != [] {
        UnitIsSound(before, f);
      }
    }
  }

  // ---------------------------------------------------------------- keyframes and their parameter sets

  predicate AnySPS(frames: seq<Frame>) {
    exists k :: 0 <= k < |frames| && HasSPS(Parsed(frames[k].data))
  }

  predicate AnyPPS(frames: seq<Frame>) {
    exists k :: 0 <= k < |frames| && HasPPS(Parsed(frames[k].data))
  }

  lemma {:induction false} Remembers(c: Cache, ns: seq<NALU>)
    ensures Remember(c, ns).sps.Some? <==> c.sps.Some? || HasSPS(ns)
    ensures Remember(c, ns).pps.Some? <==> c.pps.Some? || HasPPS(ns)
  {
    if ns != [] {
      var init, n := ns[..|ns| - 1], ns[|ns| - 1];
      Remembers(c, init);
      assert HasSPS(ns) <==> HasSPS(init) || n.isSPS by {
        assert forall k :: 0 <= k < |init| ==> ns[k] == init[k];
      }
      assert HasPPS(ns) <==> HasPPS(init) || n.isPPS by {
        assert forall k :: 0 <= k < |init| ==> ns[k] == init[k];
      }
    }
  }

  lemma {:induction false} KnowsExactly(frames: seq<Frame>)
    ensures Known(frames).sps.Some? <==> AnySPS(frames)
    ensures Known(frames).pps.Some? <==> AnyPPS(frames)
  {
    if frames != [] {
      var before, f := frames[..|frames| - 1], frames[|frames| - 1];
      KnowsExactly(before);
      Remembers(Known(before), Parsed(f.data));
      AnyOfLast(before, f);
      assert frames == before + [f];
    }
  }

  lemma AnyOfLast(before: seq<Frame>, f: Frame)
    ensures AnySPS(before + [f]) <==> AnySPS(before) || HasSPS(Parsed(f.data))
    ensures AnyPPS(before + [f]) <==> AnyPPS(before) || HasPPS(Parsed(f.data))
  {
    var frames := before + [f];
    assert frames[|before|] == f;
    assert forall k :: 0 <= k < |before| ==> frames[k] == before[k];
  }

  /**
   * A keyframe is handed on with both parameter sets exactly if it, or some frame
   * before it, brought an SPS, and one brought a PPS.
   */
  lemma KeyframesCarrySetsExactly(before: seq<Frame>, f: Frame)
    requires SegmentReplay.HasIDR(Parsed(f.data))
    ensures var u := UnitOf(before, f).nalus;
            HasSPS(u) && HasPPS(u) <==> AnySPS(before + [f]) && AnyPPS(before + [f])
  {
    var ns, all := Parsed(f.data), before + [f];
    var c := Remember(Known(before), ns);
    assert all[..|before|] == before;
    assert Known(all) == c;
    KnowsExactly(all);
    Remembers(Known(before), ns);
    SetsInFront(c, ns);
  }

  lemma SetsInFront(c: Cache, ns: seq<NALU>)
    requires SegmentReplay.HasIDR(ns) && (HasSPS(ns) ==> c.sps.Some?) && (HasPPS(ns) ==> c.pps.Some?)
    ensures HasSPS(Missing(c, ns) + ns) && HasPPS(Missing(c, ns) + ns) <==> c.sps.Some? && c.pps.Some?
  {
    var ms := Missing(c, ns);
    var u := ms + ns;
    assert forall k :: 0 <= k < |ns| ==> u[|ms| + k] == ns[k];
    assert forall k :: |ms| <= k < |u| ==> u[k] == ns[k - |ms|];
    if c.sps.Some? && c.pps.Some? {
      if !HasSPS(ns) {
        assert u[0].isSPS;
      }
      if !HasPPS(ns) {
        assert u[|ms| - 1].isPPS;
      }
    }
  }

  // ---------------------------------------------------------------- frames and units

  /** What may come in front of `ns`: an SPS, then a PPS, each only where `ns` has none, and only before an IDR. */
  predicate MayPrecede(ms: seq<NALU>, ns: seq<NALU>) {
    && (ms != [] ==> exists k :: 0 <= k < |ns| && ns[k].isIDR)
    && (ms == []
        || (|ms| == 1 && ms[0].isSPS && forall k :: 0 <= k < |ns| ==> !ns[k].isSPS)
        || (|ms| == 1 && ms[0].isPPS && forall k :: 0 <= k < |ns| ==> !ns[k].isPPS)
        || (|ms| == 2 && ms[0].isSPS && ms[1].isPPS && forall k :: 0 <= k < |ns| ==> !ns[k].isSPS && !ns[k].isPPS))
  }

  /** The unit keeps the frame's time, and its NAL units in their order behind what was put in front. */
  lemma UnitKeepsFrame(before: seq<Frame>, f: Frame) returns (ms: seq<NALU>)
    ensures UnitOf(before, f).nalus == ms + Parsed(f.data) && MayPrecede(ms, Parsed(f.data))
    ensures UnitOf(before, f).timestamp == f.timestamp
  {
    var ns := Parsed(f.data);
    ms := Missing(Remember(Known(before), ns), ns);
  }

  /** The positions of the frames that hold a NAL unit. */
  function Carrying(frames: seq<Frame>): seq<nat> {
    if frames == [] then []
    else
      var n := |frames| - 1;
      Carrying(frames[..n]) + (if Parsed(frames[n].data) == [] then [] else [n])
  }

  lemma {:induction false} CarryingAre(frames: seq<Frame>, k: nat)
    ensures Ascending(Carrying(frames), 0, |frames|)
    ensures k in Carrying(frames) <==> k < |frames| && Parsed(frames[k].data) != []
  {
    if frames != [] {
      var n := |frames| - 1;
      CarryingAre(frames[..n], k);
      CarryingAre(frames[..n], n);
    }
  }

  /** Unit `j` is made of the `j`-th of these frames. */
  predicate MadeOf(units: seq<AccessUnit>, frames: seq<Frame>, ids: seq<nat>, j: nat) {
    j < |ids| ==> j < |units| && ids[j] < |frames| && units[j] == UnitOf(frames[..ids[j]], frames[ids[j]])
  }

  /** One unit per frame that holds a NAL unit, in the order of the frames. */
  lemma {:induction false} OneUnitPerFrame(frames: seq<Frame>, j: nat)
    ensures |Pumped(frames)| == |Carrying(frames)| && MadeOf(Pumped(frames), frames, Carrying(frames), j)
  {
    if frames != [] {
      var n := |frames| - 1;
      OneUnitPerFrame(frames[..n], j);
      StillMadeOf(Pumped(frames[..n]), frames, n, Carrying(frames[..n]), j);
    }
  }

  lemma StillMadeOf(units: seq<AccessUnit>, frames: seq<Frame>, n: nat, ids: seq<nat>, j: nat)
    requires n < |frames| && |units| == |ids| && MadeOf(units, frames[..n], ids, j)
    ensures MadeOf(units, frames, ids, j) && MadeOf(units + [UnitOf(frames[..n], frames[n])], frames, ids + [n], j)
    ensures units + [] == units && ids + [] == ids
  {
    if j < |ids| {
      assert frames[..n][..ids[j]] == frames[..ids[j]];
    }
  }

  // ---------------------------------------------------------------- the latest sets

  /** All NAL units of the frames. */
  function Stream(frames: seq<Frame>): seq<NALU> {
    if frames == [] then [] else Stream(frames[..|frames| - 1]) + Parsed(frames[|frames| - 1].data)
  }

  lemma {:induction false} RememberAppend(c: Cache, ns: seq<NALU>, ms: seq<NALU>)
    ensures Remember(c, ns + ms) == Remember(Remember(c, ns), ms)
  {
    if ms == [] {
      assert ns + ms == ns;
    } else {
      RememberAppend(c, ns, ms[..|ms| - 1]);
      assert (ns + ms)[..|ns + ms| - 1] == ns + ms[..|ms| - 1];
    }
  }

  lemma {:induction false} KnownOfStream(frames: seq<Frame>)
    ensures Known(frames) == Remember(Cache(None, None), Stream(frames))
    ensures AllGood(Stream(frames))
  {
    if frames != [] {
      var before, ns := frames[..|frames| - 1], Parsed(frames[|frames| - 1].data);
      KnownOfStream(before);
      ParsedGood(frames[|frames| - 1].data);
      RememberAppend(Cache(None, None), Stream(before), ns);
    }
  }

  lemma {:induction false} RemembersLatest(c: Cache, ns: seq<NALU>, k: nat)
    requires k < |ns|
    ensures ns[k].isSPS && (forall j :: k < j < |ns| ==> !ns[j].isSPS) ==> Remember(c, ns).sps == Some(ns[k].data)
    ensures ns[k].isPPS && (forall j :: k < j < |ns| ==> !ns[j].isPPS) ==> Remember(c, ns).pps == Some(ns[k].data)
  {
    if k < |ns| - 1 {
      RemembersLatest(c, ns[..|ns| - 1], k);
    }
  }

  /** The NAL units of the frame follow whatever was put in front, and that is the latest of its kind in the stream. */
  lemma SetsInFrontAreLatest(before: seq<Frame>, f: Frame, i: nat, k: nat)
    requires var all := Stream(before + [f]); var ms := UnitOf(before, f).nalus;
             && i < |ms| - |Parsed(f.data)| && k < |all|
             && (ms[i].isSPS ==> all[k].isSPS && forall j :: k < j < |all| ==> !all[j].isSPS)
             && (ms[i].isPPS ==> all[k].isPPS && forall j :: k < j < |all| ==> !all[j].isPPS)
    ensures UnitOf(before, f).nalus[i] == Stream(before + [f])[k]
  {
    var frames := before + [f];
    var all := Stream(frames);
    assert frames[..|before|] == before;
    KnownOfStream(frames);
    RemembersLatest(Cache(None, None), all, k);
    assert all[k] in all;
  }
}
