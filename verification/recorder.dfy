/**
 * The recording writer: it cuts the access units it handles into segment files
 * with a timestamp sidecar, rolls at a keyframe after the target duration, and
 * closes the segment on pause. File operations succeed. Times are nanoseconds;
 * a segment's file name is determined by the second it starts in.
 */
module Recorder {
  import opened Basics
  import opened AnnexB
  import opened AnnexBLaws
  import SegmentIndex
  import SegmentReplay

  /** Milliseconds since the epoch; rounds down. */
  function UnixMilli(t: int): int {
    t / MILLISECOND
  }

  /** Milliseconds of a duration; truncates towards zero. */
  function Milliseconds(d: int): int {
    if d >= 0 then d / MILLISECOND else -((-d) / MILLISECOND)
  }

  function FileOf(start: int): SegmentIndex.FileName {
    start / SECOND
  }

  /** What these are: whole units of time, the rest cut off, downwards or towards zero. */
  lemma TimesAreCut(t: int)
    ensures UnixMilli(t) * 1_000_000 <= t < UnixMilli(t) * 1_000_000 + 1_000_000
    ensures FileOf(t) * 1_000_000_000 <= t < FileOf(t) * 1_000_000_000 + 1_000_000_000
    ensures t >= 0 ==> Milliseconds(t) * 1_000_000 <= t < Milliseconds(t) * 1_000_000 + 1_000_000
    ensures t < 0 ==> Milliseconds(t) * 1_000_000 - 1_000_000 < t <= Milliseconds(t) * 1_000_000
  {
  }

  datatype SegmentFile = SegmentFile(data: seq<Byte>, sidecar: seq<int>)

  type Disk = map<SegmentIndex.FileName, SegmentFile>

  // ---------------------------------------------------------------- specification state

  datatype Segment = Segment(start: int, byRoll: bool, units: seq<AccessUnit>)

  datatype Recording = Recording(paused: bool, closed: seq<Segment>, open: Option<Segment>)

  function Segments(r: Recording): seq<Segment> {
    r.closed + (if r.open.Some? then [r.open.value] else [])
  }

  function NALUsOf(units: seq<AccessUnit>): seq<NALU> {
    Flatten(SegmentReplay.Units(units))
  }

  function Offsets(start: int, units: seq<AccessUnit>): (os: seq<int>)
    ensures |os| == |units|
  {
    seq(|units|, k requires 0 <= k < |units| => Milliseconds(units[k].timestamp - start))
  }

  function Content(s: Segment): SegmentFile {
    SegmentFile(Print(NALUsOf(s.units)), Offsets(s.start, s.units))
  }

  function Keyframes(units: seq<AccessUnit>): nat {
    if units == [] then 0
    else Keyframes(units[..|units| - 1]) + (if units[|units| - 1].keyFrame then 1 else 0)
  }

  function LastTime(s: Segment): int {
    if s.units == [] then s.start else s.units[|s.units| - 1].timestamp
  }

  function Info(s: Segment): SegmentIndex.SegmentInfo {
    SegmentIndex.SegmentInfo(FileOf(s.start), UnixMilli(s.start), UnixMilli(LastTime(s)),
                |Content(s).data|, |s.units|, Keyframes(s.units))
  }

  function Index(segs: seq<Segment>): (ix: seq<SegmentIndex.SegmentInfo>)
    ensures |ix| == |segs|
  {
    seq(|segs|, k requires 0 <= k < |segs| => Info(segs[k]))
  }

  /** Opening with create-and-append: a file that is there already is continued. */
  function AppendTo(disk: Disk, file: SegmentIndex.FileName, c: SegmentFile): Disk {
    if file in disk then disk[file := SegmentFile(disk[file].data + c.data, disk[file].sidecar + c.sidecar)]
    else disk[file := c]
  }

  /** The files after some segments have been written to a disk that may hold files from before. */
  function DiskOn(base: Disk, segs: seq<Segment>): Disk {
    if segs == [] then base
    else
      var s := segs[|segs| - 1];
      AppendTo(DiskOn(base, segs[..|segs| - 1]), FileOf(s.start), Content(s))
  }

  function DiskOf(segs: seq<Segment>): Disk {
    DiskOn(map[], segs)
  }

  function OpenAt(r: Recording, t: int, byRoll: bool): Recording {
    r.(open := Some(Segment(t, byRoll, [])))
  }

  function Close(r: Recording): Recording {
    if r.open.None? then r else r.(closed := r.closed + [r.open.value], open := None)
  }

  /** The roll condition at a keyframe: the open segment has reached its target duration. */
  predicate Rolls(s: Segment, secs: int, au: AccessUnit) {
    au.keyFrame && au.timestamp >= s.start + secs * SECOND
  }

  function Ready(r: Recording, secs: int, au: AccessUnit): (r': Recording)
    ensures r'.open.Some? && r'.paused == r.paused
  {
    var r1 := if r.open.None? then OpenAt(r, au.timestamp, false) else r;
    if Rolls(r1.open.value, secs, au) then OpenAt(Close(r1), au.timestamp, true) else r1
  }

  function Extend(s: Segment, au: AccessUnit): Segment {
    Segment(s.start, s.byRoll, s.units + [au])
  }

  function Handle(r: Recording, secs: int, au: AccessUnit): Recording {
    if r.paused then r
    else
      var r1 := Ready(r, secs, au);
      Recording(false, r1.closed, Some(Extend(r1.open.value, au)))
  }

  function Pause(r: Recording, paused: bool): Recording {
    if r.paused == paused then r
    else if paused then Close(r).(paused := true)
    else r.(paused := false)
  }

  lemma NALUsSnoc(units: seq<AccessUnit>, au: AccessUnit)
    ensures NALUsOf(units + [au]) == NALUsOf(units) + au.nalus
  {
    assert SegmentReplay.Units(units + [au]) == SegmentReplay.Units(units) + [au.nalus];
    FlattenSnoc(SegmentReplay.Units(units), au.nalus);
  }

  /** Writing one more unit extends the file by its printed form and one sidecar line. */
  lemma ContentSnoc(s: Segment, au: AccessUnit)
    ensures var c, c' := Content(s), Content(Extend(s, au));
            && c'.data == c.data + Print(au.nalus)
            && c'.sidecar == c.sidecar + [Milliseconds(au.timestamp - s.start)]
  {
    NALUsSnoc(s.units, au);
    PrintAppend(NALUsOf(s.units), au.nalus);
  }

  lemma DiskSnoc(base: Disk, segs: seq<Segment>, s: Segment)
    ensures DiskOn(base, segs + [s]) == AppendTo(DiskOn(base, segs), FileOf(s.start), Content(s))
  {
    assert (segs + [s])[..|segs|] == segs;
  }

  lemma IndexSnoc(segs: seq<Segment>, s: Segment)
    ensures Index(segs + [s]) == Index(segs) + [Info(s)]
  {
  }

  // ---------------------------------------------------------------- the writer

  /** The writer's bookkeeping for the open segment. */
  datatype Fields = Fields(file: SegmentIndex.FileName, start: int, startMS: int, lastMS: int,
                           frames: nat, keyframes: nat, bytes: nat, rollAt: int)

  function FieldsOf(s: Segment, secs: int): Fields {
    Fields(FileOf(s.start), s.start, UnixMilli(s.start), UnixMilli(LastTime(s)),
           |s.units|, Keyframes(s.units), |Content(s).data|, s.start + secs * SECOND)
  }

  /** The writer's fields, as determined by the recording so far. */
  datatype View = View(disk: Disk, seg: Option<Fields>, active: bool, paused: bool)

  ghost function ViewOf(base: Disk, r: Recording, secs: int): View {
    View(DiskOn(base, Segments(r)),
         if r.open.Some? then Some(FieldsOf(r.open.value, secs)) else None, r.open.Some?, r.paused)
  }

  /** The index records of the segments closed on the way from `r` to `r'`. */
  function Closed(r: Recording, r': Recording): seq<SegmentIndex.SegmentInfo> {
    if |r.closed| <= |r'.closed| then Index(r'.closed[|r.closed|..]) else []
  }

  /**
   * The index may hold records from before, and retention prunes it at any time; the
   * writer appends to whatever it holds. The disk may hold files from before.
   */
  class Writer {
    const segmentSecs: int
    const index: SegmentIndex.Index
    ghost const base: Disk
    var disk: Disk
    var seg: Option<Fields>
    var active: bool
    var paused: bool

    ghost var state: Recording

    ghost predicate Valid()
      reads this
    {
      View(disk, seg, active, paused) == ViewOf(base, state, segmentSecs)
    }

    constructor (secs: int, index: SegmentIndex.Index, disk: Disk)
      ensures Valid() && state == Recording(false, [], None)
      ensures segmentSecs == secs && this.index == index && base == disk
    {
      segmentSecs, this.index, base := secs, index, disk;
      this.disk, seg, active, paused := disk, None, false, false;
      state := Recording(false, [], None);
    }

    /** The list in the index has grown by the segments closed since, and its file with it. */
    twostate predicate IndexGrew()
      reads this, index
    {
      && index.segments == old(index.segments) + Closed(old(state), state)
      && (old(index.InSync()) ==> index.InSync())
    }

    method SetPaused(paused: bool)
      requires Valid()
      modifies this, index
      ensures Valid() && state == Pause(old(state), paused)
      ensures IndexGrew()
    {
      if this.paused == paused {
        return;
      }
      this.paused := paused;
      if paused && seg.Some? {
        state := state.(paused := paused);
        CloseSegment();
      } else {
        state := state.(paused := paused);
      }
    }

    method OpenSegment(au: AccessUnit, ghost byRoll: bool)
      requires Valid() && seg.None?
      modifies this
      ensures Valid() && state == OpenAt(old(state), au.timestamp, byRoll)
    {
      var now := au.timestamp;
      ViewOpens(base, state, segmentSecs, now, byRoll);
      var file := FileOf(now);
      if file !in disk {
        disk := disk[file := SegmentFile([], [])];
      }
      seg := Some(Fields(file, now, UnixMilli(now), UnixMilli(now), 0, 0, 0, now + segmentSecs * SECOND));
      active := true;
      state := OpenAt(state, now, byRoll);
    }

    method CloseSegment()
      requires Valid()
      modifies this, index
      ensures Valid() && state == Close(old(state)) && seg.None?
      ensures IndexGrew()
    {
      if seg.None? {
        return;
      }
      var f := seg.value;
      index.Append(SegmentIndex.SegmentInfo(f.file, f.startMS, f.lastMS, f.bytes, f.frames, f.keyframes));
      ViewCloses(base, state, segmentSecs);
      seg := None;
      active := false;
      state := Close(state);
    }

    method HandleAU(au: AccessUnit)
      requires Valid()
      modifies this, index
      ensures Valid() && state == Handle(old(state), segmentSecs, au)
      ensures IndexGrew()
    {
      if paused {
        return;
      }
      OpenOrRoll(au);
      WriteUnit(au);
    }

    /** The first half of HandleAU: a segment is opened if there is none, and rolled at a keyframe that is due. */
    method OpenOrRoll(au: AccessUnit)
      requires Valid() && !paused
      modifies this, index
      ensures Valid() && !paused && state == Ready(old(state), segmentSecs, au)
      ensures IndexGrew()
    {
      if seg.None? {
        OpenSegment(au, false);
      }
      if au.keyFrame && au.timestamp >= seg.value.rollAt {
        CloseSegment();
        OpenSegment(au, true);
      }
    }

    /** The writing half of HandleAU: the unit as Annex-B, one sidecar line, and the counters. */
    method WriteUnit(au: AccessUnit)
      requires Valid() && seg.Some?
      modifies this`disk, this`seg, this`state
      ensures Valid()
      ensures state == old(state).(open := Some(Extend(old(state.open.value), au)))
    {
      ViewWrites(base, state, segmentSecs, au);
      ghost var d, f := disk, seg.value;
      WriteNALUs(au.nalus);
      WriteLine(au);
      assert disk == d[f.file := SegmentFile(d[f.file].data + Print(au.nalus),
                                             d[f.file].sidecar + [Milliseconds(au.timestamp - f.start)])];
      assert seg == Some(f.(bytes := f.bytes + |Print(au.nalus)|, frames := f.frames + 1,
                            keyframes := f.keyframes + (if au.keyFrame then 1 else 0),
                            lastMS := UnixMilli(au.timestamp)));
      state := state.(open := Some(Extend(state.open.value, au)));
    }

    method WriteLine(au: AccessUnit)
      requires seg.Some? && seg.value.file in disk
      modifies this`disk, this`seg
      ensures var f := old(seg.value);
              seg == Some(f.(frames := f.frames + 1, keyframes := f.keyframes + (if au.keyFrame then 1 else 0),
                             lastMS := UnixMilli(au.timestamp)))
      ensures var f, before := old(seg.value), old(disk)[old(seg.value.file)];
              disk == old(disk)[f.file := before.(sidecar := before.sidecar + [Milliseconds(au.timestamp - f.start)])]
    {
      var f := seg.value;
      var pts := Milliseconds(au.timestamp - f.start);
      disk := disk[f.file := SegmentFile(disk[f.file].data, disk[f.file].sidecar + [pts])];
      f := f.(frames := f.frames + 1, lastMS := UnixMilli(au.timestamp));
      if au.keyFrame {
        f := f.(keyframes := f.keyframes + 1);
      }
      seg := Some(f);
    }

    method WriteNALUs(nalus: seq<NALU>)
      requires seg.Some? && seg.value.file in disk
      modifies this`disk, this`seg
      ensures seg == Some(old(seg.value).(bytes := old(seg.value.bytes) + |Print(nalus)|))
      ensures var file, before := old(seg.value.file), old(disk)[old(seg.value.file)];
              disk == old(disk)[file := before.(data := before.data + Print(nalus))]
    {
      ghost var f0, before := seg.value, disk[seg.value.file];
      assert before.data + Print([]) == before.data;
      for i := 0 to |nalus|
        invariant seg == Some(f0.(bytes := f0.bytes + |Print(nalus[..i])|))
        invariant disk == old(disk)[f0.file := before.(data := before.data + Print(nalus[..i]))]
      {
        PrintSnoc(nalus, i);
        var f := seg.value;
        var file := disk[f.file];
        file := file.(data := file.data + [0, 0, 0, 1]);
        file := file.(data := file.data + nalus[i].data);
        disk := disk[f.file := file];
        seg := Some(f.(bytes := f.bytes + (4 + |nalus[i].data|)));
        assert ((before.data + Print(nalus[..i])) + [0, 0, 0, 1]) + nalus[i].data
            == before.data + Print(nalus[..i + 1]);
      }
      assert nalus[..|nalus|] == nalus;
    }
  }

  lemma CountSnoc(s: Segment, au: AccessUnit)
    ensures Keyframes(s.units + [au]) == Keyframes(s.units) + (if au.keyFrame then 1 else 0)
    ensures LastTime(Extend(s, au)) == au.timestamp
  {
    assert (s.units + [au])[..|s.units|] == s.units;
  }

  lemma FieldsGrow(s: Segment, au: AccessUnit, secs: int)
    ensures var f := FieldsOf(s, secs);
            FieldsOf(Extend(s, au), secs) ==
            f.(bytes := f.bytes + |Print(au.nalus)|, frames := f.frames + 1,
               keyframes := f.keyframes + (if au.keyFrame then 1 else 0), lastMS := UnixMilli(au.timestamp))
  {
    ContentSnoc(s, au);
    CountSnoc(s, au);
  }

  lemma ViewOpens(base: Disk, r: Recording, secs: int, t: int, byRoll: bool)
    requires r.open.None?
    ensures var v, f := ViewOf(base, r, secs), FileOf(t);
            ViewOf(base, OpenAt(r, t, byRoll), secs) ==
            View(if f in v.disk then v.disk else v.disk[f := SegmentFile([], [])],
                 Some(Fields(f, t, UnixMilli(t), UnixMilli(t), 0, 0, 0, t + secs * SECOND)), true, v.paused)
  {
    var s := Segment(t, byRoll, []);
    DiskOpens(base, r.closed, s);
    EmptyContent(s);
    assert Segments(r) == r.closed;
  }

  lemma ViewCloses(base: Disk, r: Recording, secs: int)
    requires r.open.Some?
    ensures var v := ViewOf(base, r, secs); var f := v.seg.value;
            && ViewOf(base, Close(r), secs) == View(v.disk, None, false, v.paused)
            && Closed(r, Close(r))
               == [SegmentIndex.SegmentInfo(f.file, f.startMS, f.lastMS, f.bytes, f.frames, f.keyframes)]
  {
    assert (r.closed + [r.open.value])[|r.closed|..] == [r.open.value];
    assert Segments(Close(r)) == Segments(r);
  }

  lemma ViewWrites(base: Disk, r: Recording, secs: int, au: AccessUnit)
    requires r.open.Some?
    ensures var v := ViewOf(base, r, secs); var f := v.seg.value;
            && f.file in v.disk
            && ViewOf(base, r.(open := Some(Extend(r.open.value, au))), secs) ==
               View(v.disk[f.file := SegmentFile(v.disk[f.file].data + Print(au.nalus),
                                                 v.disk[f.file].sidecar + [Milliseconds(au.timestamp - f.start)])],
                    Some(f.(bytes := f.bytes + |Print(au.nalus)|, frames := f.frames + 1,
                            keyframes := f.keyframes + (if au.keyFrame then 1 else 0),
                            lastMS := UnixMilli(au.timestamp))),
                    true, v.paused)
  {
    DiskGrows(base, r.closed, r.open.value, au);
    FieldsGrow(r.open.value, au, secs);
  }

  lemma EmptyContent(s: Segment)
    requires s.units == []
    ensures Content(s) == SegmentFile([], [])
  {
    assert SegmentReplay.Units(s.units) == [];
  }

  lemma PrintSnoc(nalus: seq<NALU>, i: nat)
    requires i < |nalus|
    ensures Print(nalus[..i + 1]) == (Print(nalus[..i]) + [0, 0, 0, 1]) + nalus[i].data
  {
    assert nalus[..i + 1] == nalus[..i] + [nalus[i]];
    PrintAppend(nalus[..i], [nalus[i]]);
    assert Print([nalus[i]]) == START_CODE + nalus[i].data + [];
  }

  lemma DiskGrows(base: Disk, closed: seq<Segment>, s: Segment, au: AccessUnit)
    ensures var d, f := DiskOn(base, closed + [s]), FileOf(s.start);
            && f in d
            && DiskOn(base, closed + [Extend(s, au)]) ==
               d[f := SegmentFile(d[f].data + Print(au.nalus),
                                  d[f].sidecar + [Milliseconds(au.timestamp - s.start)])]
  {
    var s' := Extend(s, au);
    DiskSnoc(base, closed, s);
    DiskSnoc(base, closed, s');
    ContentSnoc(s, au);
    var m, f := DiskOn(base, closed), FileOf(s.start);
    if f in m {
      AppendStep(m[f].data, Content(s).data, Print(au.nalus));
      AppendStep(m[f].sidecar, Content(s).sidecar, [Milliseconds(au.timestamp - s.start)]);
    }
  }

  /** Opening a file changes the disk only by creating it. */
  lemma DiskOpens(base: Disk, closed: seq<Segment>, s: Segment)
    requires s.units == []
    ensures var d, f := DiskOn(base, closed), FileOf(s.start);
            DiskOn(base, closed + [s]) == if f in d then d else d[f := SegmentFile([], [])]
  {
    DiskSnoc(base, closed, s);
    EmptyContent(s);
    var d, f := DiskOn(base, closed), FileOf(s.start);
    if f in d {
      assert SegmentFile(d[f].data + [], d[f].sidecar + []) == d[f];
      assert d[f := d[f]] == d;
    }
  }

  // ---------------------------------------------------------------- whole runs

  datatype Event = Arrive(au: AccessUnit) | SetPause(paused: bool)

  function Step(r: Recording, secs: int, e: Event): Recording {
    match e
    case Arrive(au) => Handle(r, secs, au)
    case SetPause(p) => Pause(r, p)
  }

  function Run(secs: int, evs: seq<Event>): Recording {
    if evs == [] then Recording(false, [], None)
    else Step(Run(secs, evs[..|evs| - 1]), secs, evs[|evs| - 1])
  }

  function PausedAfter(evs: seq<Event>): bool {
    if evs == [] then false
    else match evs[|evs| - 1]
         case SetPause(p) => p
         case Arrive(_) => PausedAfter(evs[..|evs| - 1])
  }

  /** The access units that arrive while the recording is not paused. */
  function Heard(evs: seq<Event>): seq<AccessUnit> {
    if evs == [] then []
    else
      var init, e := evs[..|evs| - 1], evs[|evs| - 1];
      Heard(init) + (if e.Arrive? && !PausedAfter(init) then [e.au] else [])
  }

  function UnitsIn(segs: seq<Segment>): seq<AccessUnit> {
    if segs == [] then [] else UnitsIn(segs[..|segs| - 1]) + segs[|segs| - 1].units
  }

  lemma UnitsInSnoc(segs: seq<Segment>, s: Segment)
    ensures UnitsIn(segs + [s]) == UnitsIn(segs) + s.units
  {
    assert (segs + [s])[..|segs|] == segs;
  }

  lemma HandleConserves(r: Recording, secs: int, au: AccessUnit)
    requires !r.paused
    ensures UnitsIn(Segments(Handle(r, secs, au))) == UnitsIn(Segments(r)) + [au]
  {
    var r1 := Ready(r, secs, au);
    ReadyConserves(r, secs, au);
    var s := r1.open.value;
    UnitsInSnoc(r1.closed, s);
    UnitsInSnoc(r1.closed, Extend(s, au));
    AppendStep(UnitsIn(r1.closed), s.units, [au]);
  }

  lemma ReadyConserves(r: Recording, secs: int, au: AccessUnit)
    ensures UnitsIn(Segments(Ready(r, secs, au))) == UnitsIn(Segments(r))
  {
    OpenConserves(r, au.timestamp, false);
    var r1 := if r.open.None? then OpenAt(r, au.timestamp, false) else r;
    OpenConserves(Close(r1), au.timestamp, true);
    assert Segments(Close(r1)) == Segments(r1);
  }

  lemma OpenConserves(r: Recording, t: int, byRoll: bool)
    ensures r.open.None? ==> UnitsIn(Segments(OpenAt(r, t, byRoll))) == UnitsIn(Segments(r))
  {
    UnitsInSnoc(r.closed, Segment(t, byRoll, []));
    assert UnitsIn(r.closed) + [] == UnitsIn(r.closed);
    assert r.open.None? ==> Segments(r) == r.closed;
  }

  /** Over any run, the segments hold exactly the units heard, in order. */
  lemma {:induction false} SegmentsHoldWhatWasHeard(secs: int, evs: seq<Event>)
    ensures UnitsIn(Segments(Run(secs, evs))) == Heard(evs)
    ensures Run(secs, evs).paused == PausedAfter(evs)
    ensures Heard(evs) == [] ==> Segments(Run(secs, evs)) == []
  {
    if evs != [] {
      var init, e := evs[..|evs| - 1], evs[|evs| - 1];
      SegmentsHoldWhatWasHeard(secs, init);
      var r := Run(secs, init);
      assert Run(secs, evs) == Step(r, secs, e);
      match e {
        case Arrive(au) =>
          if !r.paused {
            HandleConserves(r, secs, au);
          }
        case SetPause(p) =>
          PauseKeepsSegments(r, p);
      }
    }
  }

  function Frames(ix: seq<SegmentIndex.SegmentInfo>): nat {
    if ix == [] then 0 else Frames(ix[..|ix| - 1]) + ix[|ix| - 1].frames
  }

  function KeyframesIn(ix: seq<SegmentIndex.SegmentInfo>): nat {
    if ix == [] then 0 else KeyframesIn(ix[..|ix| - 1]) + ix[|ix| - 1].keyframes
  }

  lemma {:induction false} KeyframesAppend(us: seq<AccessUnit>, vs: seq<AccessUnit>)
    ensures Keyframes(us + vs) == Keyframes(us) + Keyframes(vs)
  {
    if vs == [] {
      assert us + vs == us;
    } else {
      var init := vs[..|vs| - 1];
      KeyframesAppend(us, init);
      assert (us + vs)[..|us + vs| - 1] == us + init;
    }
  }

  lemma {:induction false} NALUsAppend(us: seq<AccessUnit>, vs: seq<AccessUnit>)
    ensures NALUsOf(us + vs) == NALUsOf(us) + NALUsOf(vs)
  {
    assert SegmentReplay.Units(us + vs) == SegmentReplay.Units(us) + SegmentReplay.Units(vs);
    FlattenAppend(SegmentReplay.Units(us), SegmentReplay.Units(vs));
  }

  /** The index totals of a list of segments count their units, keyframes and printed bytes. */
  lemma {:induction false} TotalsCount(segs: seq<Segment>)
    ensures Frames(Index(segs)) == |UnitsIn(segs)|
    ensures KeyframesIn(Index(segs)) == Keyframes(UnitsIn(segs))
    ensures SegmentIndex.Total(Index(segs)) == |Print(NALUsOf(UnitsIn(segs)))|
  {
    if segs == [] {
      assert SegmentReplay.Units([]) == [];
    } else {
      var init, s := segs[..|segs| - 1], segs[|segs| - 1];
      TotalsCount(init);
      TotalsSnoc(init, s);
      assert segs == init + [s];
    }
  }

  lemma TotalsSnoc(init: seq<Segment>, s: Segment)
    requires Frames(Index(init)) == |UnitsIn(init)| && KeyframesIn(Index(init)) == Keyframes(UnitsIn(init))
    requires SegmentIndex.Total(Index(init)) == |Print(NALUsOf(UnitsIn(init)))|
    ensures var segs := init + [s];
            && Frames(Index(segs)) == |UnitsIn(segs)| && KeyframesIn(Index(segs)) == Keyframes(UnitsIn(segs))
            && SegmentIndex.Total(Index(segs)) == |Print(NALUsOf(UnitsIn(segs)))|
  {
    var segs := init + [s];
    IndexSnoc(init, s);
    UnitsInSnoc(init, s);
    assert Index(segs)[..|init|] == Index(init);
    SegmentIndex.TotalSnoc(Index(init), Info(s));
    KeyframesAppend(UnitsIn(init), s.units);
    NALUsAppend(UnitsIn(init), s.units);
    PrintAppend(NALUsOf(UnitsIn(init)), NALUsOf(s.units));
  }

  /**
   * Over any run, the index plus the open segment account for every unit heard:
   * frames, keyframes and bytes.
   */
  lemma NothingIsLost(secs: int, evs: seq<Event>)
    ensures var ix := Index(Segments(Run(secs, evs)));
            && Frames(ix) == |Heard(evs)|
            && KeyframesIn(ix) == Keyframes(Heard(evs))
            && SegmentIndex.Total(ix) == |Print(NALUsOf(Heard(evs)))|
  {
    SegmentsHoldWhatWasHeard(secs, evs);
    TotalsCount(Segments(Run(secs, evs)));
  }

  // ---------------------------------------------------------------- rolls and time

  /**
   * A segment opened by a roll starts with a keyframe, at that keyframe's time,
   * at least the target duration after the start of the segment before it.
   */
  predicate RollsAreClean(secs: int, segs: seq<Segment>) {
    forall k :: 0 <= k < |segs| && segs[k].byRoll ==>
      && k > 0 && segs[k].start >= segs[k - 1].start + secs * SECOND
      && segs[k].units != [] && segs[k].units[0].keyFrame && segs[k].units[0].timestamp == segs[k].start
  }

  lemma HandleRollsCleanly(r: Recording, secs: int, au: AccessUnit)
    requires RollsAreClean(secs, Segments(r))
    ensures RollsAreClean(secs, Segments(Handle(r, secs, au)))
  {
    if !r.paused {
      var r' := Handle(r, secs, au);
      var last := r'.open.value;
      if r.open.None? {
        assert Segments(r) == r.closed;
        CleanSnoc(secs, r.closed, Segment(au.timestamp, false, []));
        CleanSnoc(secs, r'.closed, last);
      } else {
        assert Segments(r)[|r.closed|] == r.open.value;
        assert Segments(r)[..|r.closed|] == r.closed;
        CleanSnoc(secs, r'.closed, last);
      }
    }
  }

  lemma CleanSnoc(secs: int, segs: seq<Segment>, s: Segment)
    requires RollsAreClean(secs, segs)
    requires s.byRoll ==>
               && segs != [] && s.start >= segs[|segs| - 1].start + secs * SECOND
               && s.units != [] && s.units[0].keyFrame && s.units[0].timestamp == s.start
    ensures RollsAreClean(secs, segs + [s])
  {
  }

  lemma {:induction false} RunRollsCleanly(secs: int, evs: seq<Event>)
    ensures RollsAreClean(secs, Segments(Run(secs, evs)))
  {
    if evs != [] {
      var init, e := evs[..|evs| - 1], evs[|evs| - 1];
      var r := Run(secs, init);
      RunRollsCleanly(secs, init);
      match e {
        case Arrive(au) => HandleRollsCleanly(r, secs, au);
        case SetPause(p) =>
          PauseKeepsSegments(r, p);
      }
    }
  }

  /** A roll is not missed: behind the first unit of a segment no keyframe is at or past the boundary. */
  predicate NoRollMissed(secs: int, s: Segment) {
    forall i :: 1 <= i < |s.units| && s.units[i].keyFrame ==> s.units[i].timestamp < s.start + secs * SECOND
  }

  lemma HandleMissesNoRoll(r: Recording, secs: int, au: AccessUnit)
    requires secs > 0 && NoneEmpty(Segments(r)) && forall s :: s in Segments(r) ==> NoRollMissed(secs, s)
    ensures forall s :: s in Segments(Handle(r, secs, au)) ==> NoRollMissed(secs, s)
  {
    if !r.paused {
      if r.open.Some? && !Rolls(r.open.value, secs, au) {
        var o := r.open.value;
        assert Segments(r)[|r.closed|] == o;
        assert o in Segments(r) && NoRollMissed(secs, Extend(o, au));
      } else {
        NewSegment(r, secs, au);
        assert NoRollMissed(secs, Segment(au.timestamp, r.open.Some?, [au]));
      }
    }
  }

  /** Over any run every segment rolls at the first keyframe that is due. */
  lemma {:induction false} RunMissesNoRoll(secs: int, evs: seq<Event>)
    requires secs > 0
    ensures forall s :: s in Segments(Run(secs, evs)) ==> NoRollMissed(secs, s)
  {
    if evs != [] {
      var init, e := evs[..|evs| - 1], evs[|evs| - 1];
      var r := Run(secs, init);
      RunMissesNoRoll(secs, init);
      SegmentsStartWithKeyframesExactly(secs, init);
      match e {
        case Arrive(au) => HandleMissesNoRoll(r, secs, au);
        case SetPause(p) => PauseKeepsSegments(r, p);
      }
    }
  }

  /** Segments follow each other in time and none is later than `latest`. */
  predicate InTime(segs: seq<Segment>, latest: int) {
    && (forall k :: 0 <= k < |segs| ==> segs[k].start <= LastTime(segs[k]) <= latest)
    && (forall j, k :: 0 <= j < k < |segs| ==> LastTime(segs[j]) <= segs[k].start)
  }

  lemma InTimeSnoc(segs: seq<Segment>, s: Segment, latest: int)
    requires InTime(segs, latest) && latest <= s.start <= LastTime(s)
    ensures InTime(segs + [s], LastTime(s))
  {
  }

  lemma InTimeExtend(segs: seq<Segment>, s: Segment, latest: int, au: AccessUnit)
    requires InTime(segs + [s], latest) && latest <= au.timestamp
    ensures InTime(segs + [Extend(s, au)], au.timestamp)
  {
    var before, after := segs + [s], segs + [Extend(s, au)];
    CountSnoc(s, au);
    assert before[|segs|] == s;
    assert forall k :: 0 <= k < |segs| ==> before[k] == after[k];
  }

  lemma HandleKeepsTime(r: Recording, secs: int, au: AccessUnit, latest: int)
    requires !r.paused && InTime(Segments(r), latest) && latest <= au.timestamp
    ensures InTime(Segments(Handle(r, secs, au)), au.timestamp)
  {
    var t := au.timestamp;
    var r1 := if r.open.None? then OpenAt(r, t, false) else r;
    if r.open.None? {
      assert Segments(r) == r.closed;
      InTimeSnoc(r.closed, Segment(t, false, []), latest);
    }
    assert InTime(Segments(r1), t);
    var r2 := Ready(r, secs, au);
    if Rolls(r1.open.value, secs, au) {
      InTimeSnoc(r2.closed, Segment(t, true, []), t);
    }
    InTimeExtend(r2.closed, r2.open.value, t, au);
  }

  predicate NonDecreasing(us: seq<AccessUnit>) {
    forall j, k :: 0 <= j < k < |us| ==> us[j].timestamp <= us[k].timestamp
  }

  function LatestOf(us: seq<AccessUnit>): int {
    if us == [] then 0 else us[|us| - 1].timestamp
  }

  lemma HeardBefore(evs: seq<Event>)
    requires evs != [] && NonDecreasing(Heard(evs))
    ensures NonDecreasing(Heard(evs[..|evs| - 1]))
  {
    var h := Heard(evs[..|evs| - 1]);
    assert forall k :: 0 <= k < |h| ==> h[k] == Heard(evs)[k];
  }

  lemma {:induction false} RunKeepsTime(secs: int, evs: seq<Event>)
    requires NonDecreasing(Heard(evs))
    ensures InTime(Segments(Run(secs, evs)), LatestOf(Heard(evs)))
  {
    if evs == [] {
      assert Segments(Run(secs, evs)) == [];
    } else {
      var init, e := evs[..|evs| - 1], evs[|evs| - 1];
      var r, h := Run(secs, init), Heard(init);
      HeardBefore(evs);
      RunKeepsTime(secs, init);
      SegmentsHoldWhatWasHeard(secs, init);
      if e.SetPause? {
        PauseKeepsSegments(r, e.paused);
      } else if !r.paused {
        ArriveKeepsTime(r, secs, e.au, h);
      }
    }
  }

  lemma PauseKeepsSegments(r: Recording, p: bool)
    ensures Segments(Pause(r, p)) == Segments(r)
  {
    assert Segments(Close(r)) == Segments(r);
  }

  lemma ArriveKeepsTime(r: Recording, secs: int, au: AccessUnit, h: seq<AccessUnit>)
    requires !r.paused && NonDecreasing(h + [au]) && InTime(Segments(r), LatestOf(h))
    requires UnitsIn(Segments(r)) == h
    requires h == [] ==> Segments(r) == []
    ensures InTime(Segments(Handle(r, secs, au)), au.timestamp)
  {
    if h == [] {
      HandleKeepsTime(r, secs, au, au.timestamp);
    } else {
      var all := h + [au];
      assert all[|h| - 1].timestamp <= all[|h|].timestamp;
      HandleKeepsTime(r, secs, au, LatestOf(h));
    }
  }

  lemma MilliMonotone(a: int, b: int)
    requires a <= b
    ensures UnixMilli(a) <= UnixMilli(b)
  {
  }

  /** With non-decreasing timestamps the index lists segments in order of time, without overlap. */
  lemma IndexIsOrdered(secs: int, evs: seq<Event>)
    requires NonDecreasing(Heard(evs))
    ensures var ix := Index(Segments(Run(secs, evs)));
            && (forall k :: 0 <= k < |ix| ==> ix[k].startMS <= ix[k].endMS)
            && (forall j, k :: 0 <= j < k < |ix| ==> ix[j].endMS <= ix[k].startMS)
  {
    var segs := Segments(Run(secs, evs));
    var ix := Index(segs);
    RunKeepsTime(secs, evs);
    forall k | 0 <= k < |ix| ensures ix[k].startMS <= ix[k].endMS {
      MilliMonotone(segs[k].start, LastTime(segs[k]));
    }
    forall j, k | 0 <= j < k < |ix| ensures ix[j].endMS <= ix[k].startMS {
      MilliMonotone(LastTime(segs[j]), segs[k].start);
    }
  }

  /** Every segment has a unit, and starts at the time of its first. */
  predicate StartAtFirst(segs: seq<Segment>) {
    forall k :: 0 <= k < |segs| ==> segs[k].units != [] && segs[k].start == segs[k].units[0].timestamp
  }

  lemma {:induction false} RunStartsAtFirst(secs: int, evs: seq<Event>)
    requires secs > 0
    ensures StartAtFirst(Segments(Run(secs, evs)))
  {
    if evs != [] {
      var init, e := evs[..|evs| - 1], evs[|evs| - 1];
      var r := Run(secs, init);
      RunStartsAtFirst(secs, init);
      match e {
        case Arrive(au) => HandleStartsAtFirst(r, secs, au);
        case SetPause(p) => PauseKeepsSegments(r, p);
      }
    }
  }

  lemma HandleStartsAtFirst(r: Recording, secs: int, au: AccessUnit)
    requires secs > 0 && StartAtFirst(Segments(r))
    ensures StartAtFirst(Segments(Handle(r, secs, au)))
  {
    if !r.paused {
      var before, after := Segments(r), Segments(Handle(r, secs, au));
      if r.open.Some? && !Rolls(r.open.value, secs, au) {
        var n := |r.closed|;
        assert before[n] == r.open.value && after[n] == Extend(r.open.value, au);
        assert forall k :: 0 <= k < n ==> before[k] == after[k];
      } else {
        NewSegment(r, secs, au);
        assert after[|before|].units == [au];
        assert forall k :: 0 <= k < |before| ==> before[k] == after[k];
      }
    }
  }

  lemma OrderedParts(us: seq<AccessUnit>, vs: seq<AccessUnit>)
    requires NonDecreasing(us + vs)
    ensures NonDecreasing(us) && NonDecreasing(vs)
  {
    var all := us + vs;
    forall j, k | 0 <= j < k < |us| ensures us[j].timestamp <= us[k].timestamp {
      assert all[j] == us[j] && all[k] == us[k];
    }
    forall j, k | 0 <= j < k < |vs| ensures vs[j].timestamp <= vs[k].timestamp {
      assert all[|us| + j] == vs[j] && all[|us| + k] == vs[k];
    }
  }

  lemma {:induction false} SegmentsAreOrdered(segs: seq<Segment>, k: nat)
    requires k < |segs| && NonDecreasing(UnitsIn(segs))
    ensures NonDecreasing(segs[k].units)
  {
    var n := |segs| - 1;
    OrderedParts(UnitsIn(segs[..n]), segs[n].units);
    if k < n {
      SegmentsAreOrdered(segs[..n], k);
    }
  }

  lemma {:induction false} KeyframesCount(us: seq<AccessUnit>)
    ensures Keyframes(us) == |set i | 0 <= i < |us| && us[i].keyFrame|
  {
    var all := set i | 0 <= i < |us| && us[i].keyFrame;
    if us == [] {
      assert all == {};
    } else {
      var n := |us| - 1;
      var before := set i | 0 <= i < |us[..n]| && us[..n][i].keyFrame;
      KeyframesCount(us[..n]);
      assert all == if us[n].keyFrame then before + {n} else before;
    }
  }

  /**
   * The record of a segment tells, to the millisecond, when its first and its last
   * unit were taken, and how many units and keyframes it has; its file is named by the
   * second of the first.
   */
  lemma RecordTells(secs: int, evs: seq<Event>, k: nat)
    requires secs > 0 && k < |Segments(Run(secs, evs))|
    ensures var us := Segments(Run(secs, evs))[k].units; var info := Index(Segments(Run(secs, evs)))[k];
            && us != []
            && info.startMS * 1_000_000 <= us[0].timestamp < info.startMS * 1_000_000 + 1_000_000
            && info.endMS * 1_000_000 <= us[|us| - 1].timestamp < info.endMS * 1_000_000 + 1_000_000
            && info.file * 1_000_000_000 <= us[0].timestamp < info.file * 1_000_000_000 + 1_000_000_000
            && info.frames == |us| && info.keyframes == |set i | 0 <= i < |us| && us[i].keyFrame|
  {
    RunStartsAtFirst(secs, evs);
    var us := Segments(Run(secs, evs))[k].units;
    TimesAreCut(us[0].timestamp);
    TimesAreCut(us[|us| - 1].timestamp);
    KeyframesCount(us);
  }

  // ---------------------------------------------------------------- segments that start with a keyframe

  predicate AllStartWithKeyframe(segs: seq<Segment>) {
    forall k :: 0 <= k < |segs| ==> segs[k].units != [] && segs[k].units[0].keyFrame
  }

  predicate NoneEmpty(segs: seq<Segment>) {
    forall k :: 0 <= k < |segs| ==> segs[k].units != []
  }

  /** A segment that was just opened does not roll at once. */
  lemma NewSegment(r: Recording, secs: int, au: AccessUnit)
    requires secs > 0 && !r.paused && !(r.open.Some? && !Rolls(r.open.value, secs, au))
    ensures Handle(r, secs, au) == Recording(false, Segments(r), Some(Segment(au.timestamp, r.open.Some?, [au])))
  {
    assert secs * SECOND > 0;
    assert r.open.None? ==> Segments(r) == r.closed;
    assert [] + [au] == [au];
  }

  lemma HandleAtKeyframe(r: Recording, secs: int, au: AccessUnit)
    requires secs > 0 && !r.paused && NoneEmpty(Segments(r))
    ensures var segs := Segments(Handle(r, secs, au));
            && NoneEmpty(segs)
            && (AllStartWithKeyframe(segs) <==>
                  AllStartWithKeyframe(Segments(r)) && (r.open.None? ==> au.keyFrame))
  {
    var before, after := Segments(r), Segments(Handle(r, secs, au));
    if r.open.Some? && !Rolls(r.open.value, secs, au) {
      var n := |r.closed|;
      assert before[n] == r.open.value && after[n] == Extend(r.open.value, au);
      assert forall k :: 0 <= k < n ==> before[k] == after[k];
    } else {
      NewSegment(r, secs, au);
      assert after[|before|].units == [au];
      assert forall k :: 0 <= k < |before| ==> before[k] == after[k];
    }
  }

  /** Nothing has been heard since the start, or since recording was last paused. */
  predicate Fresh(evs: seq<Event>) {
    if evs == [] then true
    else
      var init := evs[..|evs| - 1];
      match evs[|evs| - 1]
      case SetPause(p) => p || Fresh(init)
      case Arrive(_) => PausedAfter(init) && Fresh(init)
  }

  /** Every unit that is heard first, or first after a pause, is a keyframe. */
  predicate ResumesAtKeyframes(evs: seq<Event>) {
    forall k :: 0 <= k < |evs| && evs[k].Arrive? && !PausedAfter(evs[..k]) && Fresh(evs[..k]) ==>
      evs[k].au.keyFrame
  }

  lemma ResumesSnoc(evs: seq<Event>)
    requires evs != []
    ensures var init, e := evs[..|evs| - 1], evs[|evs| - 1];
            ResumesAtKeyframes(evs) <==>
              ResumesAtKeyframes(init) && (e.Arrive? && !PausedAfter(init) && Fresh(init) ==> e.au.keyFrame)
  {
    var init, n := evs[..|evs| - 1], |evs| - 1;
    assert forall k :: 0 <= k < n ==> evs[k] == init[k] && evs[..k] == init[..k];
    assert evs[..n] == init;
  }

  /**
   * "Every segment starts with an IDR" is true of a run exactly when each unit
   * that is heard first, or first after a pause, happens to be a keyframe: only
   * segments opened by a roll wait for one.
   */
  lemma {:induction false} SegmentsStartWithKeyframesExactly(secs: int, evs: seq<Event>)
    requires secs > 0
    ensures var r := Run(secs, evs);
            && NoneEmpty(Segments(r))
            && (r.open.None? <==> Fresh(evs))
            && (AllStartWithKeyframe(Segments(r)) <==> ResumesAtKeyframes(evs))
  {
    if evs != [] {
      var init, e := evs[..|evs| - 1], evs[|evs| - 1];
      var r := Run(secs, init);
      SegmentsStartWithKeyframesExactly(secs, init);
      SegmentsHoldWhatWasHeard(secs, init);
      ResumesSnoc(evs);
      match e {
        case Arrive(au) =>
          if !r.paused {
            HandleAtKeyframe(r, secs, au);
          }
        case SetPause(p) =>
          PauseKeepsSegments(r, p);
          PausedIsClosed(secs, init);
      }
    }
  }

  lemma {:induction false} PausedIsClosed(secs: int, evs: seq<Event>)
    ensures Run(secs, evs).paused ==> Run(secs, evs).open.None?
  {
    if evs != [] {
      PausedIsClosed(secs, evs[..|evs| - 1]);
    }
  }
}
