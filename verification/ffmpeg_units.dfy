/**
 * The read loop of the ffmpeg encoder: the same splitting and grouping as the
 * camera's, but access units are handed on as lists, with a keyframe flag.
 */
module FfmpegUnits {
  import opened Basics
  import opened AnnexB
  import opened AnnexBLaws
  import opened CameraUnits

  datatype Flagged = Flagged(nalus: seq<NALU>, key: bool)

  /** Parameter sets and IDR slices alike make a unit count as a keyframe. */
  predicate Marks(n: NALU) {
    n.isSPS || n.isPPS || (|n.data| > 0 && n.data[0] % 32 == 5)
  }

  predicate KeyFlag(u: seq<NALU>) {
    exists k :: 0 <= k < |u| && Marks(u[k])
  }

  predicate HasIDR(u: seq<NALU>) {
    exists k :: 0 <= k < |u| && u[k].isIDR
  }

  function WithFlags(units: seq<seq<NALU>>): (fs: seq<Flagged>)
    ensures |fs| == |units|
  {
    seq(|units|, k requires 0 <= k < |units| => Flagged(units[k], KeyFlag(units[k])))
  }

  /** The NAL units of what was handed on. */
  function NALUsOf(fs: seq<Flagged>): (us: seq<seq<NALU>>)
    ensures |us| == |fs|
  {
    seq(|fs|, k requires 0 <= k < |fs| => fs[k].nalus)
  }

  /** Nothing is lost or reordered on the way. */
  lemma UnitsHandedOn(ns: seq<NALU>)
    ensures NALUsOf(WithFlags(Group(ns).Flush())) == Group(ns).Flush()
    ensures Flatten(NALUsOf(WithFlags(Group(ns).Flush()))) == ns
  {
    FlushConserves(ns);
    var us := Group(ns).Flush();
    assert NALUsOf(WithFlags(us)) == us;
  }

  method Flush(cur: seq<NALU>) returns (f: Flagged)
    ensures f == Flagged(cur, KeyFlag(cur))
  {
    var key := false;
    for i := 0 to |cur|
      invariant key <==> exists k :: 0 <= k < i && Marks(cur[k])
    {
      if cur[i].isSPS || cur[i].isPPS || (|cur[i].data| > 0 && cur[i].data[0] % 32 == 5) {
        assert Marks(cur[i]);
        key := true;
      }
    }
    f := Flagged(cur, key);
  }

  lemma WithFlagsSnoc(units: seq<seq<NALU>>, u: seq<NALU>)
    ensures WithFlags(units + [u]) == WithFlags(units) + [Flagged(u, KeyFlag(u))]
  {
  }

  /** `chunks` are the reads up to the end of the stream; the result lists the units handed on. */
  method ReadLoop(chunks: seq<seq<Byte>>) returns (out: seq<Flagged>)
    ensures out == WithFlags(Group(Extract(Flatten(chunks)).0).Flush())
    ensures Flatten(NALUsOf(out)) == Extract(Flatten(chunks)).0
  {
    out := [];
    var pending: seq<Byte> := [];
    var cur: seq<NALU> := [];
    for i := 0 to |chunks|
      invariant Feed(chunks[..i]).1 == pending
      invariant out == WithFlags(Group(Feed(chunks[..i]).0).sent) && cur == Group(Feed(chunks[..i]).0).cur
    {
      ghost var emitted := Feed(chunks[..i]).0;
      FeedSnoc(chunks, i);
      if |chunks[i]| > 0 {
        pending := pending + chunks[i];
        var nalus, rest := ExtractCompleteNALUs(pending);
        pending := rest;
        out, cur := TakeUnits(nalus, out, cur, emitted);
      } else {
        NothingToExtract(chunks[..i], chunks[i]);
      }
    }
    assert chunks[..|chunks|] == chunks;
    StreamingRefinesBatch(chunks);
    UnitsHandedOn(Extract(Flatten(chunks)).0);
    if |cur| > 0 {
      var last := Flush(cur);
      WithFlagsSnoc(Group(Extract(Flatten(chunks)).0).sent, cur);
      out := out + [last];
    }
  }

  method TakeUnits(nalus: seq<NALU>, out0: seq<Flagged>, cur0: seq<NALU>, ghost emitted: seq<NALU>)
    returns (out: seq<Flagged>, cur: seq<NALU>)
    requires out0 == WithFlags(Group(emitted).sent) && cur0 == Group(emitted).cur
    ensures out == WithFlags(Group(emitted + nalus).sent) && cur == Group(emitted + nalus).cur
  {
    out, cur := out0, cur0;
    assert emitted + nalus[..0] == emitted;
    for i := 0 to |nalus|
      invariant out == WithFlags(Group(emitted + nalus[..i]).sent) && cur == Group(emitted + nalus[..i]).cur
    {
      assert emitted + nalus[..i + 1] == (emitted + nalus[..i]) + [nalus[i]];
      GroupSnoc(emitted + nalus[..i], nalus[i]);
      if |cur| > 0 && StartsNewAU(nalus[i], cur) {
        var f := Flush(cur);
        WithFlagsSnoc(Group(emitted + nalus[..i]).sent, cur);
        out := out + [f];
        cur := [];
      }
      cur := cur + [nalus[i]];
    }
    assert nalus[..|nalus|] == nalus;
  }

  /**
   * The flag says "has an IDR slice" for exactly the units that do not consist of
   * parameter sets alone; by the shape of access units that is the case unless the
   * encoder sends parameter sets without a slice of their own.
   */
  lemma FlagMeansIDRExactly(ns: seq<NALU>, u: seq<NALU>)
    requires AllGood(ns) && u in Group(ns).Flush()
    ensures (KeyFlag(u) <==> HasIDR(u)) <==> !(forall k :: 0 <= k < |u| ==> u[k].isSPS || u[k].isPPS)
  {
    UnitsAreWellShaped(ns);
    FlushConserves(ns);
    var us := Group(ns).Flush();
    var k :| 0 <= k < |us| && us[k] == u;
    InFlatten(us, k);
    assert forall n :: n in u ==> n in Flatten(us);
    assert u in Group(ns).sent || u == Group(ns).cur != [];
    UnitKinds(u);
  }

  lemma UnitKinds(u: seq<NALU>)
    requires WellShaped(u) && AllGood(u)
    ensures (KeyFlag(u) <==> HasIDR(u)) <==> !(forall k :: 0 <= k < |u| ==> u[k].isSPS || u[k].isPPS)
  {
    forall k | 0 <= k < |u| ensures Marks(u[k]) <==> u[k].isSPS || u[k].isPPS || u[k].isIDR {
      assert u[k] in u && Good(u[k]);
    }
    if !HasIDR(u) && KeyFlag(u) {
      assert u[0] in u;
      forall k | 0 <= k < |u| ensures u[k].isSPS || u[k].isPPS {
        assert u[k] in u;
      }
    }
    if HasIDR(u) {
      var k :| 0 <= k < |u| && u[k].isIDR;
      assert u[k] in u && !(u[k].isSPS || u[k].isPPS);
    } else {
      assert u[0] in u;
    }
  }
}
