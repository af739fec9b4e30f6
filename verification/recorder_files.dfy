/**
 * What the recorder leaves on disk: a file per start second, with the contents of
 * every segment opened in that second; and what playing such a file gives back.
 */
module RecorderFiles {
  import opened Basics
  import opened AnnexB
  import opened AnnexBLaws
  import opened Recorder
  import Retention
  import SegmentIndex
  import SegmentReplay
  import StreamPump
  import CameraUnits

  // ---------------------------------------------------------------- what is on disk

  function ContentsOf(segs: seq<Segment>, file: SegmentIndex.FileName): SegmentFile {
    if segs == [] then SegmentFile([], [])
    else
      var s, c := segs[|segs| - 1], ContentsOf(segs[..|segs| - 1], file);
      if FileOf(s.start) == file
      then SegmentFile(c.data + Content(s).data, c.sidecar + Content(s).sidecar) else c
  }

  function Before(base: Disk, file: SegmentIndex.FileName): SegmentFile {
    if file in base then base[file] else SegmentFile([], [])
  }

  /** A file holds, in order, what it held before and the content of every segment that started in its second. */
  lemma {:induction false} DiskHoldsContents(base: Disk, segs: seq<Segment>, file: SegmentIndex.FileName)
    ensures var disk, b, c := DiskOn(base, segs), Before(base, file), ContentsOf(segs, file);
            && (file in disk <==> file in base || exists k :: 0 <= k < |segs| && FileOf(segs[k].start) == file)
            && (file in disk ==> disk[file] == SegmentFile(b.data + c.data, b.sidecar + c.sidecar))
            && (file !in disk ==> c == SegmentFile([], []))
  {
    var b := Before(base, file);
    if segs == [] {
      assert b.data + [] == b.data && b.sidecar + [] == b.sidecar;
    } else {
      var init, n := segs[..|segs| - 1], |segs| - 1;
      DiskHoldsContents(base, init, file);
      var s, c := segs[n], ContentsOf(init, file);
      assert forall k :: 0 <= k < n ==> init[k] == segs[k];
      if FileOf(s.start) == file {
        ContentJoins(DiskOn(base, init), b, c, Content(s), file);
      }
    }
  }

  lemma ContentJoins(disk: Disk, b: SegmentFile, c: SegmentFile, d: SegmentFile, file: SegmentIndex.FileName)
    requires file in disk ==> disk[file] == SegmentFile(b.data + c.data, b.sidecar + c.sidecar)
    requires file !in disk ==> b == SegmentFile([], []) && c == SegmentFile([], [])
    ensures file in AppendTo(disk, file, d)
    ensures AppendTo(disk, file, d)[file]
         == SegmentFile(b.data + (c.data + d.data), b.sidecar + (c.sidecar + d.sidecar))
  {
    if file in disk {
      AppendStep(b.data, c.data, d.data);
      AppendStep(b.sidecar, c.sidecar, d.sidecar);
    } else {
      assert [] + ([] + d.data) == d.data && [] + ([] + d.sidecar) == d.sidecar;
    }
  }

  /** On a disk that was empty, it holds just these. */
  lemma NewDiskHoldsContents(segs: seq<Segment>, file: SegmentIndex.FileName)
    ensures file in DiskOf(segs) <==> exists k :: 0 <= k < |segs| && FileOf(segs[k].start) == file
    ensures file in DiskOf(segs) ==> DiskOf(segs)[file] == ContentsOf(segs, file)
  {
    DiskHoldsContents(map[], segs, file);
    var c := ContentsOf(segs, file);
    assert [] + c.data == c.data && [] + c.sidecar == c.sidecar;
  }

  predicate OnlyOneIn(segs: seq<Segment>, k: nat) {
    k < |segs| && forall j :: 0 <= j < |segs| && j != k ==> FileOf(segs[j].start) != FileOf(segs[k].start)
  }

  lemma {:induction false} ContentsOfOne(segs: seq<Segment>, k: nat)
    requires OnlyOneIn(segs, k)
    ensures ContentsOf(segs, FileOf(segs[k].start)) == Content(segs[k])
  {
    var n, file := |segs| - 1, FileOf(segs[k].start);
    var init := segs[..n];
    if k == n {
      ContentsOfNone(init, file);
      assert [] + Content(segs[n]).data == Content(segs[n]).data;
      assert [] + Content(segs[n]).sidecar == Content(segs[n]).sidecar;
    } else {
      assert init[k] == segs[k];
      ContentsOfOne(init, k);
    }
  }

  lemma {:induction false} ContentsOfNone(segs: seq<Segment>, file: SegmentIndex.FileName)
    requires forall k :: 0 <= k < |segs| ==> FileOf(segs[k].start) != file
    ensures ContentsOf(segs, file) == SegmentFile([], [])
  {
    if segs != [] {
      ContentsOfNone(segs[..|segs| - 1], file);
    }
  }

  /**
   * A file replays a segment: as many units as were written, with the NAL units
   * in the same order; the j-th has the j-th unit's slice, keyframe flag and time
   * since the segment's start.
   */
  predicate Replays(file: SegmentFile, s: Segment) {
    var gs := SegmentReplay.Groups(Parsed(file.data));
    && |gs| == |s.units|
    && Flatten(gs) == NALUsOf(s.units)
    && forall j :: 0 <= j < |gs| ==>
         ReplaysUnit(gs[j], SegmentReplay.OffsetOf(Some(file.sidecar), j), s.units[j], s.start)
  }

  predicate ReplaysUnit(group: seq<NALU>, offset: int, u: AccessUnit, start: int) {
    && SegmentReplay.Slices(group) == SegmentReplay.Slices(u.nalus)
    && (SegmentReplay.HasIDR(group) <==> u.keyFrame)
    && PlaysAt(offset, u.timestamp - start)
  }

  /** An offset of whole milliseconds, less than a millisecond from the time `d`, and not past it. */
  predicate PlaysAt(offset: int, d: int) {
    && offset % 1_000_000 == 0
    && if d >= 0 then offset <= d < offset + 1_000_000 else offset - 1_000_000 < d <= offset
  }

  lemma LinePlays(d: int)
    ensures PlaysAt(Milliseconds(d) * MILLISECOND, d)
  {
    TimesAreCut(d);
  }

  /**
   * Units that play back: of NAL units a stream can carry, with true keyframe flags
   * and one slice each; only a unit that is alone may do without a slice.
   */
  predicate Playable(us: seq<AccessUnit>) {
    && AllGood(NALUsOf(us))
    && SegmentReplay.OneSliceUnits(SegmentReplay.Units(us))
    && forall u :: u in us ==> StreamPump.FlagIsTrue(u)
  }

  /** A file written for one segment replays it exactly if its units are playable. */
  lemma ContentReplaysExactly(s: Segment)
    ensures Replays(Content(s), s) <==> Playable(s.units)
  {
    var us := SegmentReplay.Units(s.units);
    var gs := SegmentReplay.Groups(Parsed(Print(Flatten(us))));
    SegmentReplay.ReplayFollowsExactly(us);
    if SegmentReplay.Follows(gs, us) {
      forall j | 0 <= j < |gs|
        ensures ReplaysUnit(gs[j], SegmentReplay.OffsetOf(Some(Offsets(s.start, s.units)), j), s.units[j], s.start)
                <==> StreamPump.FlagIsTrue(s.units[j])
      {
        UnitReplaysExactly(s, gs[j], j);
      }
      FlagsByPlace(s.units);
    } else if Replays(Content(s), s) {
      ReplayFollows(s, gs);
      assert false;
    }
  }

  lemma FlagsByPlace(us: seq<AccessUnit>)
    ensures (forall u :: u in us ==> StreamPump.FlagIsTrue(u)) <==>
              (forall j :: 0 <= j < |us| ==> StreamPump.FlagIsTrue(us[j]))
  {
    assert forall j :: 0 <= j < |us| ==> us[j] in us;
  }

  lemma UnitReplaysExactly(s: Segment, g: seq<NALU>, j: nat)
    requires j < |s.units|
    requires SegmentReplay.Slices(g) == SegmentReplay.Slices(s.units[j].nalus)
    requires SegmentReplay.HasIDR(g) <==> SegmentReplay.HasIDR(s.units[j].nalus)
    ensures ReplaysUnit(g, SegmentReplay.OffsetOf(Some(Offsets(s.start, s.units)), j), s.units[j], s.start)
            <==> StreamPump.FlagIsTrue(s.units[j])
  {
    LinePlays(s.units[j].timestamp - s.start);
  }

  lemma ReplayFollows(s: Segment, gs: seq<seq<NALU>>)
    requires gs == SegmentReplay.Groups(Parsed(Content(s).data)) && Replays(Content(s), s)
    ensures SegmentReplay.Follows(gs, SegmentReplay.Units(s.units))
  {
    forall k | 0 <= k < |gs| ensures SegmentReplay.Slices(gs[k]) == SegmentReplay.Slices(s.units[k].nalus) {
      assert ReplaysUnit(gs[k], SegmentReplay.OffsetOf(Some(Content(s).sidecar), k), s.units[k], s.start);
    }
  }

  // ---------------------------------------------------------------- exactly which segments replay

  /** The units of all segments that started in one second, in order. */
  function UnitsOfFile(segs: seq<Segment>, file: SegmentIndex.FileName): seq<AccessUnit> {
    if segs == [] then []
    else
      var n := |segs| - 1;
      UnitsOfFile(segs[..n], file) + (if FileOf(segs[n].start) == file then segs[n].units else [])
  }

  lemma {:induction false} FileHoldsItsUnits(segs: seq<Segment>, file: SegmentIndex.FileName)
    ensures ContentsOf(segs, file).data == Print(NALUsOf(UnitsOfFile(segs, file)))
    ensures |ContentsOf(segs, file).sidecar| == |UnitsOfFile(segs, file)|
  {
    if segs == [] {
      assert SegmentReplay.Units([]) == [];
    } else {
      var n := |segs| - 1;
      var us := UnitsOfFile(segs[..n], file);
      FileHoldsItsUnits(segs[..n], file);
      if FileOf(segs[n].start) == file {
        NALUsAppend(us, segs[n].units);
        PrintAppend(NALUsOf(us), NALUsOf(segs[n].units));
      } else {
        assert us + [] == us;
      }
    }
  }

  /**
   * A file gives back the NAL units of all its segments exactly if a stream can
   * carry them, one unit per slice.
   */
  lemma FileReplaysExactly(segs: seq<Segment>, file: SegmentIndex.FileName)
    ensures var ns := NALUsOf(UnitsOfFile(segs, file));
            var gs := SegmentReplay.Groups(Parsed(ContentsOf(segs, file).data));
            && (Flatten(gs) == ns <==> AllGood(ns))
            && (Flatten(gs) == ns && SegmentReplay.Slices(ns) != [] ==> |gs| == |SegmentReplay.Slices(ns)|)
  {
    var ns := NALUsOf(UnitsOfFile(segs, file));
    FileHoldsItsUnits(segs, file);
    RoundTripExactly(ns);
    SegmentReplay.GroupsConserve(Parsed(Print(ns)));
    SegmentReplay.GroupsFollowSlices(Parsed(Print(ns)));
  }

  lemma {:induction false} UnitsOfSome(segs: seq<Segment>, k: nat)
    requires k < |segs|
    ensures |NALUsOf(UnitsOfFile(segs, FileOf(segs[k].start)))| >= |NALUsOf(segs[k].units)|
  {
    var n, file := |segs| - 1, FileOf(segs[k].start);
    NALUsAppend(UnitsOfFile(segs[..n], file), segs[n].units);
    if k < n {
      assert segs[..n][k] == segs[k];
      UnitsOfSome(segs[..n], k);
      assert UnitsOfFile(segs[..n], file) + [] == UnitsOfFile(segs[..n], file);
    }
  }

  lemma {:induction false} UnitsOfTwo(segs: seq<Segment>, j: nat, k: nat)
    requires j < k < |segs| && FileOf(segs[j].start) == FileOf(segs[k].start)
    ensures |NALUsOf(UnitsOfFile(segs, FileOf(segs[k].start)))| >= |NALUsOf(segs[j].units)| + |NALUsOf(segs[k].units)|
  {
    var n, file := |segs| - 1, FileOf(segs[k].start);
    assert segs[..n][j] == segs[j];
    NALUsAppend(UnitsOfFile(segs[..n], file), segs[n].units);
    if k < n {
      assert segs[..n][k] == segs[k];
      UnitsOfTwo(segs[..n], j, k);
      assert UnitsOfFile(segs[..n], file) + [] == UnitsOfFile(segs[..n], file);
    } else {
      UnitsOfSome(segs[..n], j);
    }
  }

  /** Units as the program hands them to the recorder. */
  predicate AllCarried(us: seq<AccessUnit>) {
    forall u :: u in us ==> StreamPump.Carried(u)
  }

  lemma {:induction false} CarriedNALUs(us: seq<AccessUnit>)
    requires AllCarried(us)
    ensures AllGood(NALUsOf(us)) && |NALUsOf(us)| >= |us|
  {
    if us == [] {
      assert SegmentReplay.Units(us) == [];
    } else {
      var init, u := us[..|us| - 1], us[|us| - 1];
      assert us == init + [u] && u in us;
      CarriedNALUs(init);
      NALUsSnoc(init, u);
    }
  }

  lemma {:induction false} FileUnitsAreOfSegments(segs: seq<Segment>, k: nat)
    requires k < |segs|
    ensures forall u :: u in segs[k].units ==> u in UnitsOfFile(segs, FileOf(segs[k].start))
  {
    var n := |segs| - 1;
    if k < n {
      assert segs[..n][k] == segs[k];
      FileUnitsAreOfSegments(segs[..n], k);
    }
  }

  /** A file shared by two segments holds more NAL units than either of them. */
  lemma SharedFileIsNoReplay(segs: seq<Segment>, j: nat, k: nat)
    requires j < |segs| && k < |segs| && j != k && FileOf(segs[j].start) == FileOf(segs[k].start)
    requires NoneEmpty(segs) && AllCarried(UnitsOfFile(segs, FileOf(segs[k].start)))
    ensures !Replays(ContentsOf(segs, FileOf(segs[k].start)), segs[k])
  {
    var us := UnitsOfFile(segs, FileOf(segs[k].start));
    FileReplaysExactly(segs, FileOf(segs[k].start));
    CarriedNALUs(us);
    FileUnitsAreOfSegments(segs, j);
    CarriedNALUs(segs[j].units);
    if j < k {
      UnitsOfTwo(segs, j, k);
    } else {
      UnitsOfTwo(segs, k, j);
    }
  }

  /**
   * From the encoder to playback. Take any run of units as the program hands them
   * on, and any of its segments: its file replays it exactly when its units are
   * playable and no other segment was opened in the same second.
   */
  lemma RecordedSegmentReplaysExactly(secs: int, evs: seq<Event>, k: nat)
    requires secs > 0 && k < |Segments(Run(secs, evs))|
    requires var segs := Segments(Run(secs, evs)); AllCarried(UnitsOfFile(segs, FileOf(segs[k].start)))
    ensures var segs := Segments(Run(secs, evs)); var file := FileOf(segs[k].start);
            && file in DiskOf(segs)
            && (Replays(DiskOf(segs)[file], segs[k]) <==> OnlyOneIn(segs, k) && Playable(segs[k].units))
  {
    var segs := Segments(Run(secs, evs));
    NewDiskHoldsContents(segs, FileOf(segs[k].start));
    SegmentsStartWithKeyframesExactly(secs, evs);
    if OnlyOneIn(segs, k) {
      ContentsOfOne(segs, k);
      ContentReplaysExactly(segs[k]);
    } else {
      var j :| 0 <= j < |segs| && j != k && FileOf(segs[j].start) == FileOf(segs[k].start);
      SharedFileIsNoReplay(segs, j, k);
    }
  }

  // ---------------------------------------------------------------- when files are shared

  predicate DistinctFiles(segs: seq<Segment>) {
    forall j, k :: 0 <= j < k < |segs| ==> FileOf(segs[j].start) != FileOf(segs[k].start)
  }

  predicate NewSecond(segs: seq<Segment>, t: int) {
    forall k :: 0 <= k < |segs| ==> FileOf(segs[k].start) != FileOf(t)
  }

  /** Recording never starts again, after a pause, within the start second of an earlier segment. */
  predicate ResumesInNewSeconds(secs: int, evs: seq<Event>) {
    evs != [] ==>
      var init, e := evs[..|evs| - 1], evs[|evs| - 1];
      && ResumesInNewSeconds(secs, init)
      && (e.Arrive? && !PausedAfter(init) && Fresh(init) ==> NewSecond(Segments(Run(secs, init)), e.au.timestamp))
  }

  lemma DistinctSnoc(segs: seq<Segment>, s: Segment)
    ensures DistinctFiles(segs + [s]) <==> DistinctFiles(segs) && NewSecond(segs, s.start)
  {
    var all := segs + [s];
    assert forall k :: 0 <= k < |segs| ==> all[k] == segs[k];
    assert all[|segs|] == s;
    if DistinctFiles(all) {
      forall j, k | 0 <= j < k < |segs| ensures FileOf(segs[j].start) != FileOf(segs[k].start) {
        assert FileOf(all[j].start) != FileOf(all[k].start);
      }
      forall k | 0 <= k < |segs| ensures FileOf(segs[k].start) != FileOf(s.start) {
        assert FileOf(all[k].start) != FileOf(all[|segs|].start);
      }
    }
  }

  lemma FilesSame(a: seq<Segment>, b: seq<Segment>)
    requires |a| == |b| && forall k :: 0 <= k < |a| ==> a[k].start == b[k].start
    ensures DistinctFiles(a) <==> DistinctFiles(b)
  {
  }

  /** A roll comes a second or more after the start of the open segment, and so after every start before that. */
  lemma RollIsInNewSecond(segs: seq<Segment>, latest: int, secs: int, t: int)
    requires secs >= 1 && InTime(segs, latest) && segs != [] && t >= segs[|segs| - 1].start + secs * SECOND
    ensures NewSecond(segs, t)
  {
    var n := |segs| - 1;
    assert t >= segs[n].start + SECOND;
    forall k | 0 <= k < |segs| ensures FileOf(segs[k].start) != FileOf(t) {
      assert segs[k].start <= segs[n].start by {
        assert k < n ==> LastTime(segs[k]) <= segs[n].start;
      }
    }
  }

  lemma ArriveFiles(r: Recording, secs: int, au: AccessUnit, latest: int)
    requires secs >= 1 && !r.paused && InTime(Segments(r), latest)
    ensures DistinctFiles(Segments(Handle(r, secs, au))) <==>
              DistinctFiles(Segments(r)) && (r.open.None? ==> NewSecond(Segments(r), au.timestamp))
  {
    var before, after := Segments(r), Segments(Handle(r, secs, au));
    if r.open.Some? && !Rolls(r.open.value, secs, au) {
      var n := |r.closed|;
      assert before[n] == r.open.value && after[n] == Extend(r.open.value, au);
      assert forall k :: 0 <= k < n ==> before[k] == after[k];
      FilesSame(before, after);
    } else {
      NewSegment(r, secs, au);
      DistinctSnoc(before, Segment(au.timestamp, r.open.Some?, [au]));
      if r.open.Some? {
        assert before[|before| - 1] == r.open.value;
        RollIsInNewSecond(before, latest, secs, au.timestamp);
      }
    }
  }

  /** With non-decreasing timestamps, that is exactly when all segments have files of their own. */
  lemma {:induction false} FilesAreDistinctExactly(secs: int, evs: seq<Event>)
    requires secs >= 1 && NonDecreasing(Heard(evs))
    ensures DistinctFiles(Segments(Run(secs, evs))) <==> ResumesInNewSeconds(secs, evs)
  {
    if evs != [] {
      var init, e := evs[..|evs| - 1], evs[|evs| - 1];
      var r := Run(secs, init);
      assert Heard(init) <= Heard(evs);
      FilesAreDistinctExactly(secs, init);
      SegmentsHoldWhatWasHeard(secs, init);
      SegmentsStartWithKeyframesExactly(secs, init);
      RunKeepsTime(secs, init);
      match e {
        case Arrive(au) =>
          if !r.paused {
            ArriveFiles(r, secs, au, LatestOf(Heard(init)));
          }
        case SetPause(p) => PauseKeepsSegments(r, p);
      }
    }
  }

  lemma {:induction false} FileUnitsWereHeard(segs: seq<Segment>, file: SegmentIndex.FileName)
    ensures forall u :: u in UnitsOfFile(segs, file) ==> u in UnitsIn(segs)
  {
    if segs != [] {
      FileUnitsWereHeard(segs[..|segs| - 1], file);
    }
  }

  /** Every segment is replayed by its file. */
  predicate AllReplay(segs: seq<Segment>) {
    forall k :: 0 <= k < |segs| ==>
      FileOf(segs[k].start) in DiskOf(segs) && Replays(DiskOf(segs)[FileOf(segs[k].start)], segs[k])
  }

  /**
   * A segment that is replayed plays in time: with non-decreasing timestamps, each unit
   * comes as long after the first as it was taken, to the millisecond and not later.
   */
  lemma ReplayKeepsTime(secs: int, evs: seq<Event>, k: nat, j: nat, file: SegmentFile)
    requires secs > 0 && NonDecreasing(Heard(evs)) && k < |Segments(Run(secs, evs))|
    requires Replays(file, Segments(Run(secs, evs))[k]) && j < |Segments(Run(secs, evs))[k].units|
    ensures var us := Segments(Run(secs, evs))[k].units;
            0 <= (us[j].timestamp - us[0].timestamp) - SegmentReplay.OffsetOf(Some(file.sidecar), j) < 1_000_000
  {
    var segs := Segments(Run(secs, evs));
    SegmentsHoldWhatWasHeard(secs, evs);
    RunStartsAtFirst(secs, evs);
    SegmentsAreOrdered(segs, k);
    var gs := SegmentReplay.Groups(Parsed(file.data));
    assert ReplaysUnit(gs[j], SegmentReplay.OffsetOf(Some(file.sidecar), j), segs[k].units[j], segs[k].start);
    assert segs[k].units[0].timestamp <= segs[k].units[j].timestamp;
  }

  predicate AllPlayable(segs: seq<Segment>) {
    forall k :: 0 <= k < |segs| ==> Playable(segs[k].units)
  }

  /**
   * A recording with non-decreasing timestamps comes back segment by segment exactly
   * if its segments' units are playable and it never resumes, after a pause, within
   * the start second of an earlier segment.
   */
  lemma RecordingReplaysExactly(secs: int, evs: seq<Event>)
    requires secs >= 1 && NonDecreasing(Heard(evs)) && AllCarried(Heard(evs))
    ensures var segs := Segments(Run(secs, evs));
            AllReplay(segs) <==> ResumesInNewSeconds(secs, evs) && AllPlayable(segs)
  {
    var segs := Segments(Run(secs, evs));
    FilesAreDistinctExactly(secs, evs);
    SegmentsHoldWhatWasHeard(secs, evs);
    forall k | 0 <= k < |segs|
      ensures FileOf(segs[k].start) in DiskOf(segs)
      ensures Replays(DiskOf(segs)[FileOf(segs[k].start)], segs[k]) <==>
                OnlyOneIn(segs, k) && Playable(segs[k].units)
    {
      FileUnitsWereHeard(segs, FileOf(segs[k].start));
      RecordedSegmentReplaysExactly(secs, evs, k);
    }
    DistinctIsOnlyOne(segs);
  }

  /** A unit without exactly one slice is the only one of its segment, and has none. */
  predicate OneSliceOrAlone(segs: seq<Segment>) {
    forall k :: 0 <= k < |segs| ==>
      forall u :: u in segs[k].units ==>
        var n := |SegmentReplay.Slices(u.nalus)|;
        n == 1 || (n == 0 && |segs[k].units| == 1)
  }

  /** For units made of the camera's frames, only the slices and the start seconds matter. */
  lemma PumpedRecordingReplaysExactly(secs: int, evs: seq<Event>, frames: seq<StreamPump.Frame>)
    requires secs >= 1 && NonDecreasing(Heard(evs)) && forall u :: u in Heard(evs) ==> u in StreamPump.Pumped(frames)
    ensures var segs := Segments(Run(secs, evs));
            AllReplay(segs) <==> ResumesInNewSeconds(secs, evs) && OneSliceOrAlone(segs)
  {
    var segs := Segments(Run(secs, evs));
    StreamPump.PumpedIsSound(frames);
    RecordingReplaysExactly(secs, evs);
    SegmentsHoldWhatWasHeard(secs, evs);
    forall k | 0 <= k < |segs|
      ensures Playable(segs[k].units) <==> OneSliceOrAlone([segs[k]])
    {
      UnitsAreIn(segs, k);
      SoundIsPlayableExactly(segs[k]);
    }
    assert OneSliceOrAlone(segs) <==> forall k :: 0 <= k < |segs| ==> OneSliceOrAlone([segs[k]]) by {
      OneByOne(segs);
    }
  }

  lemma OneByOne(segs: seq<Segment>)
    ensures OneSliceOrAlone(segs) <==> forall k :: 0 <= k < |segs| ==> OneSliceOrAlone([segs[k]])
  {
    if forall k :: 0 <= k < |segs| ==> OneSliceOrAlone([segs[k]]) {
      forall k | 0 <= k < |segs|
        ensures forall u :: u in segs[k].units ==>
                  var n := |SegmentReplay.Slices(u.nalus)|; n == 1 || (n == 0 && |segs[k].units| == 1)
      {
        assert OneSliceOrAlone([segs[k]]) && [segs[k]][0] == segs[k];
      }
    }
  }

  lemma {:induction false} UnitsAreIn(segs: seq<Segment>, k: nat)
    requires k < |segs|
    ensures forall u :: u in segs[k].units ==> u in UnitsIn(segs)
  {
    if k < |segs| - 1 {
      assert segs[..|segs| - 1][k] == segs[k];
      UnitsAreIn(segs[..|segs| - 1], k);
    }
  }

  lemma SoundIsPlayableExactly(s: Segment)
    requires forall u :: u in s.units ==> StreamPump.Carried(u) && StreamPump.FlagIsTrue(u)
    ensures Playable(s.units) <==> OneSliceOrAlone([s])
  {
    CarriedNALUs(s.units);
    var us := SegmentReplay.Units(s.units);
    assert [s][0] == s;
    forall u | u in s.units ensures u.nalus in us && u.nalus != [] {
      var j :| 0 <= j < |s.units| && s.units[j] == u;
      assert us[j] == u.nalus;
    }
    if OneSliceOrAlone([s]) {
      forall v | v in us ensures v != [] && |SegmentReplay.Slices(v)| <= 1
        && (|us| > 1 ==> |SegmentReplay.Slices(v)| == 1) {
        var j :| 0 <= j < |us| && us[j] == v;
        assert s.units[j] in s.units && v == s.units[j].nalus;
      }
    }
  }

  lemma DistinctIsOnlyOne(segs: seq<Segment>)
    ensures DistinctFiles(segs) <==> forall k :: 0 <= k < |segs| ==> OnlyOneIn(segs, k)
  {
    if forall k :: 0 <= k < |segs| ==> OnlyOneIn(segs, k) {
      forall j, k | 0 <= j < k < |segs| ensures FileOf(segs[j].start) != FileOf(segs[k].start) {
        assert OnlyOneIn(segs, k);
      }
    }
  }

  /**
   * An SEI between two slices makes an access unit of its own, which the camera
   * sends and the recorder gives a line of its own in the sidecar. Played back, it
   * joins the unit before it: the later slice gets the time of the SEI.
   */
  lemma LoneSeiShiftsTheTimes(secs: int, p: NALU, sei: NALU, q: NALU, t: int, t': int, t'': int)
    requires secs > 0 && Good(p) && Good(sei) && Good(q) && p.typ == 1 && sei.typ == 6 && q.typ == 1
    ensures CameraUnits.Group([p] + [sei] + [q]).Flush() == [[p], [sei], [q]]
    ensures var evs := [Arrive(AccessUnit([p], t, false)), Arrive(AccessUnit([sei], t', false)),
                        Arrive(AccessUnit([q], t'', false))];
            var s := Segment(t, false, [evs[0].au, evs[1].au, evs[2].au]); var disk := DiskOf([s]);
            && Segments(Run(secs, evs)) == [s] && ResumesInNewSeconds(secs, evs) && FileOf(t) in disk
            && var file := disk[FileOf(t)];
               && SegmentReplay.Groups(Parsed(file.data)) == [[p, sei], [q]]
               && PlaysAt(SegmentReplay.OffsetOf(Some(file.sidecar), 1), t' - t)
               && !Replays(file, s)
  {
    CameraSendsLoneSei(p, sei, q);
    var a, b, c := AccessUnit([p], t, false), AccessUnit([sei], t', false), AccessUnit([q], t'', false);
    var s := Segment(t, false, [a, b, c]);
    ThreeUnits(secs, a, b, c);
    AloneOnDisk(s);
    SeiSegmentPlays(p, sei, q, s);
  }

  lemma AloneOnDisk(s: Segment)
    ensures FileOf(s.start) in DiskOf([s]) && DiskOf([s])[FileOf(s.start)] == Content(s)
  {
    NewDiskHoldsContents([s], FileOf(s.start));
    assert OnlyOneIn([s], 0) && [s][0] == s;
    ContentsOfOne([s], 0);
  }

  lemma SeiSegmentPlays(p: NALU, sei: NALU, q: NALU, s: Segment)
    requires Good(p) && Good(sei) && Good(q) && p.typ == 1 && sei.typ == 6 && q.typ == 1 && |s.units| == 3
    requires s.units[0].nalus == [p] && s.units[1].nalus == [sei] && s.units[2].nalus == [q]
    ensures SegmentReplay.Groups(Parsed(Content(s).data)) == [[p, sei], [q]]
    ensures PlaysAt(SegmentReplay.OffsetOf(Some(Content(s).sidecar), 1), s.units[1].timestamp - s.start)
    ensures !Replays(Content(s), s)
  {
    ContentOfThree(p, sei, q, s);
    SeiJoins(p, sei, q);
    LinePlays(s.units[1].timestamp - s.start);
    TooFewUnits(Content(s), s, 2);
  }

  lemma ContentOfThree(p: NALU, sei: NALU, q: NALU, s: Segment)
    requires |s.units| == 3
    requires s.units[0].nalus == [p] && s.units[1].nalus == [sei] && s.units[2].nalus == [q]
    ensures Content(s).data == Print(Flatten([[p], [sei], [q]]))
    ensures |Content(s).sidecar| == 3 && Content(s).sidecar[1] == Milliseconds(s.units[1].timestamp - s.start)
  {
    assert SegmentReplay.Units(s.units) == [[p], [sei], [q]];
  }

  lemma TooFewUnits(file: SegmentFile, s: Segment, n: nat)
    requires |SegmentReplay.Groups(Parsed(file.data))| == n < |s.units|
    ensures !Replays(file, s)
  {
  }

  lemma CameraSendsLoneSei(p: NALU, sei: NALU, q: NALU)
    requires Good(p) && Good(sei) && Good(q) && p.typ == 1 && sei.typ == 6 && q.typ == 1
    ensures CameraUnits.Group([p] + [sei] + [q]).Flush() == [[p], [sei], [q]]
  {
    CameraUnits.OthersStandAlone([], p);
    assert [] + [p] == [p];
    assert CameraUnits.Group([p]) == CameraUnits.Grouping([], [p]);
    CameraUnits.OthersStandAlone([p], sei);
    assert CameraUnits.Group([p] + [sei]) == CameraUnits.Grouping([[p]], [sei]);
    CameraUnits.OthersStandAlone([p] + [sei], q);
    assert [[p]] + [[sei]] == [[p], [sei]] && [[p], [sei]] + [[q]] == [[p], [sei], [q]];
  }

  lemma SeiJoins(p: NALU, sei: NALU, q: NALU)
    requires Good(p) && Good(sei) && Good(q) && p.typ == 1 && sei.typ == 6 && q.typ == 1
    ensures SegmentReplay.Groups(Parsed(Print(Flatten([[p], [sei], [q]])))) == [[p, sei], [q]]
  {
    FlattenThree(p, sei, q);
    ParseUndoesPrint([p] + [sei] + [q]);
    GroupsOfThree(p, sei, q);
  }

  lemma GroupsOfThree(p: NALU, sei: NALU, q: NALU)
    requires p.typ == 1 && sei.typ == 6 && q.typ == 1
    ensures SegmentReplay.Groups([p] + [sei] + [q]) == [[p, sei], [q]]
  {
    var b := [p] + [sei];
    assert [p][..0] == [];
    assert SegmentReplay.Groups([p]) == SegmentReplay.AddToGroups(SegmentReplay.Groups([]), p) == [[p]];
    SegmentReplay.GroupsSnoc([p], sei);
    SegmentReplay.JoinOnly([p], sei);
    SegmentReplay.GroupsSnoc(b, q);
    assert SegmentReplay.IsVCL(b[0]) && b == [p, sei];
  }

  lemma FlattenThree<T>(a: T, b: T, c: T)
    ensures Flatten([[a], [b], [c]]) == [a] + [b] + [c]
  {
    FlattenSnoc([], [a]);
    FlattenSnoc([[a]], [b]);
    FlattenSnoc([[a], [b]], [c]);
    assert [] + [[a]] == [[a]] && [[a]] + [[b]] == [[a], [b]] && [[a], [b]] + [[c]] == [[a], [b], [c]];
    assert Flatten<T>([]) + [a] == [a];
  }

  /** A unit that is no keyframe joins the open segment. */
  lemma PlainJoins(secs: int, init: seq<Event>, s: Segment, au: AccessUnit)
    requires Run(secs, init) == Recording(false, [], Some(s)) && !au.keyFrame && !Fresh(init)
    requires ResumesInNewSeconds(secs, init) && !PausedAfter(init)
    ensures Run(secs, init + [Arrive(au)]) == Recording(false, [], Some(Extend(s, au)))
    ensures ResumesInNewSeconds(secs, init + [Arrive(au)])
    ensures !Fresh(init + [Arrive(au)]) && !PausedAfter(init + [Arrive(au)])
  {
    var evs := init + [Arrive(au)];
    assert evs[..|evs| - 1] == init && evs[|evs| - 1] == Arrive(au);
    assert Run(secs, evs) == Handle(Run(secs, init), secs, au);
  }

  lemma FirstOpens(secs: int, a: AccessUnit)
    requires secs > 0
    ensures Run(secs, [Arrive(a)]) == Recording(false, [], Some(Segment(a.timestamp, false, [a])))
    ensures ResumesInNewSeconds(secs, [Arrive(a)]) && !Fresh([Arrive(a)]) && !PausedAfter([Arrive(a)])
  {
    assert [Arrive(a)][..0] == [] && Segments(Run(secs, [])) == [];
    NewSegment(Run(secs, []), secs, a);
    assert Run(secs, [Arrive(a)]) == Handle(Run(secs, []), secs, a);
  }

  /** Three units without keyframes, heard from the start. */
  lemma ThreeUnits(secs: int, a: AccessUnit, b: AccessUnit, c: AccessUnit)
    requires secs > 0 && !a.keyFrame && !b.keyFrame && !c.keyFrame
    ensures var evs := [Arrive(a), Arrive(b), Arrive(c)];
            Segments(Run(secs, evs)) == [Segment(a.timestamp, false, [a, b, c])] && ResumesInNewSeconds(secs, evs)
  {
    var e1, e2 := [Arrive(a)], [Arrive(a), Arrive(b)];
    FirstOpens(secs, a);
    PlainJoins(secs, e1, Segment(a.timestamp, false, [a]), b);
    assert e1 + [Arrive(b)] == e2 && [a] + [b] == [a, b];
    PlainJoins(secs, e2, Segment(a.timestamp, false, [a, b]), c);
    assert e2 + [Arrive(c)] == [Arrive(a), Arrive(b), Arrive(c)] && [a, b] + [c] == [a, b, c];
  }

  /** Pausing and resuming within one second puts two segments into one file, which replays neither. */
  lemma SharedFileReplaysNeither(secs: int, u: AccessUnit, v: AccessUnit)
    requires secs > 0 && FileOf(u.timestamp) == FileOf(v.timestamp) && AllCarried([u, v])
    ensures var segs := Segments(Run(secs, [Arrive(u), SetPause(true), SetPause(false), Arrive(v)]));
            var file := FileOf(u.timestamp);
            && |segs| == 2 && file in DiskOf(segs)
            && !Replays(DiskOf(segs)[file], segs[0]) && !Replays(DiskOf(segs)[file], segs[1])
  {
    var evs := [Arrive(u), SetPause(true), SetPause(false), Arrive(v)];
    var segs := Segments(Run(secs, evs));
    SameSecondSharesAFile(secs, u, v);
    assert [u] + [v] == [u, v];
    PairReplaysNeither(Segment(u.timestamp, false, [u]), Segment(v.timestamp, false, [v]));
  }

  lemma PairReplaysNeither(s: Segment, t: Segment)
    requires FileOf(s.start) == FileOf(t.start) && s.units != [] && t.units != []
    requires AllCarried(s.units + t.units)
    ensures var segs, file := [s, t], FileOf(s.start);
            file in DiskOf(segs) && !Replays(DiskOf(segs)[file], s) && !Replays(DiskOf(segs)[file], t)
  {
    var segs := [s, t];
    assert segs[0] == s && segs[1] == t;
    UnitsOfPair(s, t);
    NewDiskHoldsContents(segs, FileOf(s.start));
    SharedFileIsNoReplay(segs, 1, 0);
    SharedFileIsNoReplay(segs, 0, 1);
  }

  lemma UnitsOfPair(s: Segment, t: Segment)
    requires FileOf(s.start) == FileOf(t.start)
    ensures UnitsOfFile([s, t], FileOf(t.start)) == s.units + t.units
  {
    assert [s, t][..1] == [s] && [s][..0] == [];
    assert UnitsOfFile([s], FileOf(t.start)) == [] + s.units;
  }

  lemma SameSecondSharesAFile(secs: int, u: AccessUnit, v: AccessUnit)
    requires secs > 0 && FileOf(u.timestamp) == FileOf(v.timestamp)
    ensures var r := Run(secs, [Arrive(u), SetPause(true), SetPause(false), Arrive(v)]);
            && Segments(r) == [Segment(u.timestamp, false, [u]), Segment(v.timestamp, false, [v])]
            && Info(Segments(r)[0]).file == Info(Segments(r)[1]).file
  {
    var e1, e2, e3 := [Arrive(u)], [Arrive(u), SetPause(true)], [Arrive(u), SetPause(true), SetPause(false)];
    var e4 := [Arrive(u), SetPause(true), SetPause(false), Arrive(v)];
    assert e1[..0] == [] && e2[..1] == e1 && e3[..2] == e2 && e4[..3] == e3;
    NewSegment(Run(secs, []), secs, u);
    assert Run(secs, e1) == Handle(Run(secs, []), secs, u);
    assert Run(secs, e2) == Recording(true, [Segment(u.timestamp, false, [u])], None);
    assert Run(secs, e3) == Recording(false, [Segment(u.timestamp, false, [u])], None);
    NewSegment(Run(secs, e3), secs, v);
    assert Run(secs, e4) == Handle(Run(secs, e3), secs, v);
  }

  /** The records of the index name distinct files exactly when the segments have files of their own. */
  lemma IndexNamesFiles(segs: seq<Segment>)
    ensures SegmentIndex.DistinctFiles(Index(segs)) <==> DistinctFiles(segs)
  {
    var ix := Index(segs);
    assert forall k :: 0 <= k < |segs| ==> ix[k].file == FileOf(segs[k].start);
  }

  /** Of a recording that resumes in new seconds only, age-based retention removes exactly the old segments. */
  lemma RecordingAgesExactly(secs: int, evs: seq<Event>, cutoff: int)
    requires secs >= 1 && NonDecreasing(Heard(evs)) && ResumesInNewSeconds(secs, evs)
    ensures var ix := Index(Segments(Run(secs, evs)));
            Retention.Pruned(ix, Retention.OldFiles(ix, cutoff)) == Retention.Young(ix, cutoff)
  {
    var segs := Segments(Run(secs, evs));
    FilesAreDistinctExactly(secs, evs);
    IndexNamesFiles(segs);
    Retention.DistinctFilesAgeTogether(Index(segs), cutoff);
    Retention.AgeIsExact(Index(segs), cutoff);
  }

  /** The recorder's index is one whose files are stretches of time. */
  lemma IndexFilesAreStretches(segs: seq<Segment>)
    ensures Retention.FilesAreStretches(Index(segs))
  {
    var ix := Index(segs);
    forall a, b, c | a in ix && b in ix && c in ix && a.file == c.file && a.startMS <= b.startMS <= c.startMS
      ensures b.file == a.file
    {
      FileByMilli(a, segs);
      FileByMilli(b, segs);
      FileByMilli(c, segs);
    }
  }

  lemma FileByMilli(s: SegmentIndex.SegmentInfo, segs: seq<Segment>)
    requires s in Index(segs)
    ensures s.file == s.startMS / 1000
  {
    var k :| 0 <= k < |segs| && s == Info(segs[k]);
    SecondsOfMilli(segs[k].start);
  }

  lemma SecondsOfMilli(t: int)
    ensures FileOf(t) == UnixMilli(t) / 1000
  {
  }

  /** Of any recording, capacity-based retention leaves the newest segments that fit unless they begin inside a file. */
  lemma RecordingTrimsExactly(secs: int, evs: seq<Event>, limit: int, r: seq<SegmentIndex.SegmentInfo>)
    requires Retention.Trims(Index(Segments(Run(secs, evs))), limit, r)
    ensures var o := SegmentIndex.OldestFirst(Index(Segments(Run(secs, evs))));
            SegmentIndex.OldestFirst(r) == Retention.Newest(o, limit) <==> !Retention.CutsFile(o, limit)
  {
    var ix := Index(Segments(Run(secs, evs)));
    IndexFilesAreStretches(Segments(Run(secs, evs)));
    Retention.TrimIsNewestExactly(ix, limit, r);
  }
}
