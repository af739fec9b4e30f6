/**
 * The recording index: the records of all segments, in memory and in a file, and
 * the lookups made in it.
 */
module SegmentIndex {
  import opened Basics

  /** A segment file is named after the second it was opened in; two segments may name the same file. */
  type FileName = int

  datatype SegmentInfo =
    SegmentInfo(file: FileName, startMS: int, endMS: int, size: int, frames: nat, keyframes: nat)

  /** A line of the index file. */
  datatype Line = Record(segment: SegmentInfo) | Blank | Corrupt

  // ---------------------------------------------------------------- lists of records

  /** The records of an index file, blank and corrupt lines skipped. */
  function Records(lines: seq<Line>): seq<SegmentInfo> {
    if lines == [] then []
    else
      var n := |lines| - 1;
      if lines[n].Record? then Records(lines[..n]) + [lines[n].segment] else Records(lines[..n])
  }

  function LinesOf(ss: seq<SegmentInfo>): (lines: seq<Line>)
    ensures |lines| == |ss|
  {
    seq(|ss|, i requires 0 <= i < |ss| => Record(ss[i]))
  }

  lemma {:induction false} RecordsOfLines(ss: seq<SegmentInfo>)
    ensures Records(LinesOf(ss)) == ss
  {
    if ss != [] {
      var n := |ss| - 1;
      RecordsOfLines(ss[..n]);
      assert LinesOf(ss)[..n] == LinesOf(ss[..n]);
    }
  }

  /** Loading goes line by line, in order; blank and corrupt lines give nothing. */
  lemma {:induction false} RecordsTell(lines: seq<Line>, line: Line)
    ensures Records([]) == []
    ensures Records(lines + [line]) == Records(lines) + (if line.Record? then [line.segment] else [])
  {
    assert (lines + [line])[..|lines|] == lines;
  }

  /** The records left once all records of one file are gone. */
  function Removed(ss: seq<SegmentInfo>, file: FileName): seq<SegmentInfo> {
    if ss == [] then []
    else if ss[0].file == file then Removed(ss[1..], file)
    else [ss[0]] + Removed(ss[1..], file)
  }

  function Overlapping(ss: seq<SegmentInfo>, startMS: int, endMS: int): seq<SegmentInfo> {
    if ss == [] then []
    else
      var n := |ss| - 1;
      if ss[n].endMS >= startMS && ss[n].startMS <= endMS then Overlapping(ss[..n], startMS, endMS) + [ss[n]]
      else Overlapping(ss[..n], startMS, endMS)
  }

  predicate Covers(s: SegmentInfo, t: int) {
    s.startMS <= t <= s.endMS
  }

  lemma {:induction false} OverlappingFilters(ss: seq<SegmentInfo>, startMS: int, endMS: int, s: SegmentInfo)
    ensures s in Overlapping(ss, startMS, endMS) <==> s in ss && s.endMS >= startMS && s.startMS <= endMS
  {
    if ss != [] {
      var n := |ss| - 1;
      OverlappingFilters(ss[..n], startMS, endMS, s);
      assert ss == ss[..n] + [ss[n]];
    }
  }

  /** The positions of the records that overlap the range. */
  function OverlappingIds(ss: seq<SegmentInfo>, startMS: int, endMS: int): seq<nat> {
    if ss == [] then []
    else
      var n := |ss| - 1;
      var ids := OverlappingIds(ss[..n], startMS, endMS);
      if ss[n].endMS >= startMS && ss[n].startMS <= endMS then ids + [n] else ids
  }

  /** A lookup returns them once each, in the order of the index. */
  lemma {:induction false} OverlappingPicks(ss: seq<SegmentInfo>, startMS: int, endMS: int, k: nat)
    ensures Picks(Overlapping(ss, startMS, endMS), OverlappingIds(ss, startMS, endMS), ss)
    ensures k in OverlappingIds(ss, startMS, endMS) <==>
              k < |ss| && ss[k].endMS >= startMS && ss[k].startMS <= endMS
  {
    if ss != [] {
      var n := |ss| - 1;
      var found, ids := Overlapping(ss[..n], startMS, endMS), OverlappingIds(ss[..n], startMS, endMS);
      OverlappingPicks(ss[..n], startMS, endMS, k);
      OverlappingPicks(ss[..n], startMS, endMS, n);
      PicksLonger(found, ids, ss[..n], ss[n]);
      PicksSnoc(found, ids, ss[..n], ss[n]);
      assert ss == ss[..n] + [ss[n]];
    }
  }

  /** The positions of the records of other files. */
  function RemainingIds(ss: seq<SegmentInfo>, file: FileName): seq<nat> {
    if ss == [] then []
    else
      var n := |ss| - 1;
      RemainingIds(ss[..n], file) + (if ss[n].file == file then [] else [n])
  }

  lemma {:induction false} RemovedSnoc(ss: seq<SegmentInfo>, s: SegmentInfo, file: FileName)
    ensures Removed(ss + [s], file) == Removed(ss, file) + (if s.file == file then [] else [s])
  {
    if ss == [] {
      assert [s][1..] == [] && [] + [s] == [s];
    } else {
      assert (ss + [s])[1..] == ss[1..] + [s];
      RemovedSnoc(ss[1..], s, file);
    }
  }

  /** Removing a file leaves all other records, in their order. */
  lemma {:induction false} RemovedPicks(ss: seq<SegmentInfo>, file: FileName, k: nat)
    ensures Picks(Removed(ss, file), RemainingIds(ss, file), ss)
    ensures k in RemainingIds(ss, file) <==> k < |ss| && ss[k].file != file
  {
    if ss != [] {
      var n := |ss| - 1;
      var left, ids := Removed(ss[..n], file), RemainingIds(ss[..n], file);
      RemovedPicks(ss[..n], file, k);
      RemovedPicks(ss[..n], file, n);
      PicksLonger(left, ids, ss[..n], ss[n]);
      PicksSnoc(left, ids, ss[..n], ss[n]);
      assert ss == ss[..n] + [ss[n]];
      RemovedSnoc(ss[..n], ss[n], file);
    }
  }

  /** A lookup finds a record exactly if it shares a moment with the range. */
  lemma FoundExactly(ss: seq<SegmentInfo>, startMS: int, endMS: int, s: SegmentInfo)
    requires startMS <= endMS && s.startMS <= s.endMS
    ensures s in Overlapping(ss, startMS, endMS) <==> s in ss && exists t :: Covers(s, t) && startMS <= t <= endMS
  {
    OverlappingFilters(ss, startMS, endMS, s);
    if s.endMS >= startMS && s.startMS <= endMS {
      assert Covers(s, if s.startMS > startMS then s.startMS else startMS);
    }
  }

  function Total(ss: seq<SegmentInfo>): int {
    if ss == [] then 0 else ss[0].size + Total(ss[1..])
  }

  lemma {:induction false} TotalSnoc(ss: seq<SegmentInfo>, s: SegmentInfo)
    ensures Total(ss + [s]) == Total(ss) + s.size
  {
    if ss != [] {
      assert (ss + [s])[1..] == ss[1..] + [s];
      TotalSnoc(ss[1..], s);
    }
  }

  predicate DistinctFiles(ss: seq<SegmentInfo>) {
    forall i, j :: 0 <= i < j < |ss| ==> ss[i].file != ss[j].file
  }

  predicate DistinctStarts(ss: seq<SegmentInfo>) {
    forall i, j :: 0 <= i < j < |ss| ==> ss[i].startMS != ss[j].startMS
  }

  predicate SortedByStart(ss: seq<SegmentInfo>) {
    forall i, j :: 0 <= i < j < |ss| ==> ss[i].startMS <= ss[j].startMS
  }

  // ---------------------------------------------------------------- oldest first

  function Insert(s: SegmentInfo, ss: seq<SegmentInfo>): seq<SegmentInfo> {
    if ss == [] || s.startMS < ss[0].startMS then [s] + ss else [ss[0]] + Insert(s, ss[1..])
  }

  function OldestFirst(ss: seq<SegmentInfo>): seq<SegmentInfo> {
    if ss == [] then [] else Insert(ss[0], OldestFirst(ss[1..]))
  }

  lemma {:induction false} InsertKeeps(s: SegmentInfo, ss: seq<SegmentInfo>)
    ensures multiset(Insert(s, ss)) == multiset(ss) + multiset{s}
    ensures |Insert(s, ss)| == |ss| + 1
    ensures Insert(s, ss)[0] == s || (ss != [] && Insert(s, ss)[0] == ss[0])
  {
    if !(ss == [] || s.startMS < ss[0].startMS) {
      InsertKeeps(s, ss[1..]);
      assert ss == [ss[0]] + ss[1..];
    }
  }

  lemma {:induction false} InsertSorts(s: SegmentInfo, ss: seq<SegmentInfo>)
    requires SortedByStart(ss)
    ensures SortedByStart(Insert(s, ss))
  {
    if !(ss == [] || s.startMS < ss[0].startMS) {
      InsertSorts(s, ss[1..]);
      InsertKeeps(s, ss[1..]);
      SortedCons(ss[0], Insert(s, ss[1..]));
    }
  }

  lemma SortedCons(s: SegmentInfo, ss: seq<SegmentInfo>)
    requires SortedByStart(ss) && (ss != [] ==> s.startMS <= ss[0].startMS)
    ensures SortedByStart([s] + ss)
  {
  }

  lemma {:induction false} OldestFirstSorts(ss: seq<SegmentInfo>)
    ensures SortedByStart(OldestFirst(ss)) && multiset(OldestFirst(ss)) == multiset(ss)
  {
    if ss != [] {
      OldestFirstSorts(ss[1..]);
      InsertSorts(ss[0], OldestFirst(ss[1..]));
      InsertKeeps(ss[0], OldestFirst(ss[1..]));
      assert ss == [ss[0]] + ss[1..];
    }
  }

  lemma SameHead(a: seq<SegmentInfo>, b: seq<SegmentInfo>)
    requires SortedByStart(a) && SortedByStart(b) && multiset(a) == multiset(b) && DistinctStarts(b)
    requires a != [] && b != []
    ensures a[0] == b[0]
  {
    assert a[0] in multiset(b) && b[0] in multiset(a);
    assert a[0].startMS == b[0].startMS;
  }

  lemma TailsAgree(a: seq<SegmentInfo>, b: seq<SegmentInfo>)
    requires multiset(a) == multiset(b) && a != [] && b != [] && a[0] == b[0]
    ensures multiset(a[1..]) == multiset(b[1..])
  {
    assert a == [a[0]] + a[1..] && b == [a[0]] + b[1..];
    assert multiset(a[1..]) == multiset(a) - multiset{a[0]};
    assert multiset(b[1..]) == multiset(b) - multiset{a[0]};
  }

  lemma SameSize(a: seq<SegmentInfo>, b: seq<SegmentInfo>)
    requires multiset(a) == multiset(b)
    ensures |a| == |b|
  {
    assert |multiset(a)| == |a| && |multiset(b)| == |b|;
  }

  /** Without ties there is only one way to sort. */
  lemma {:induction false} OneWayToSort(a: seq<SegmentInfo>, b: seq<SegmentInfo>)
    requires SortedByStart(a) && SortedByStart(b) && multiset(a) == multiset(b) && DistinctStarts(b)
    ensures a == b
    decreases |a|
  {
    SameSize(a, b);
    if a != [] {
      SameHead(a, b);
      TailsAgree(a, b);
      OneWayToSort(a[1..], b[1..]);
    }
  }

  // ---------------------------------------------------------------- the index

  /** The index with its file; `lines` is None while there is no file. File operations succeed. */
  class Index {
    var segments: seq<SegmentInfo>
    var lines: Option<seq<Line>>

    constructor (lines: Option<seq<Line>>)
      ensures segments == [] && this.lines == lines
    {
      segments, this.lines := [], lines;
    }

    function OnDisk(): seq<SegmentInfo>
      reads this
    {
      if lines.Some? then Records(lines.value) else []
    }

    /** Reloading the file would give the list in memory. */
    predicate InSync()
      reads this
    {
      segments == OnDisk()
    }

    method Load()
      modifies this`segments
      ensures InSync()
    {
      segments := [];
      if lines.None? {
        return;
      }
      var ls := lines.value;
      for i := 0 to |ls|
        invariant segments == Records(ls[..i])
      {
        assert ls[..i + 1][..i] == ls[..i];
        if ls[i].Record? {
          segments := segments + [ls[i].segment];
        }
      }
      assert ls[..|ls|] == ls;
    }

    method Append(si: SegmentInfo)
      modifies this
      ensures segments == old(segments) + [si] && OnDisk() == old(OnDisk()) + [si]
      ensures old(InSync()) ==> InSync()
    {
      var ls := if lines.Some? then lines.value else [];
      assert Records(ls) == OnDisk();
      lines := Some(ls + [Record(si)]);
      assert (ls + [Record(si)])[..|ls|] == ls;
      segments := segments + [si];
    }

    method Lookup(startMS: int, endMS: int) returns (found: seq<SegmentInfo>)
      ensures found == if startMS > endMS then [] else Overlapping(segments, startMS, endMS)
    {
      if startMS > endMS {
        return [];
      }
      found := [];
      for i := 0 to |segments|
        invariant found == Overlapping(segments[..i], startMS, endMS)
      {
        assert segments[..i + 1][..i] == segments[..i];
        if segments[i].endMS >= startMS && segments[i].startMS <= endMS {
          found := found + [segments[i]];
        }
      }
      assert segments[..|segments|] == segments;
    }

    /** The file is rewritten to match, whatever it held before. */
    method Remove(file: FileName)
      modifies this
      ensures segments == Removed(old(segments), file) && InSync()
    {
      var kept := [];
      for i := 0 to |segments|
        invariant kept + Removed(segments[i..], file) == Removed(segments, file)
      {
        assert segments[i..][1..] == segments[i + 1..];
        if segments[i].file != file {
          kept := kept + [segments[i]];
        }
      }
      assert kept + [] == kept;
      segments := kept;
      lines := Some(LinesOf(segments));
      RecordsOfLines(segments);
    }

    /** Sorted by start; how ties are ordered is left open. */
    method Snapshot() returns (out: seq<SegmentInfo>)
      ensures SortedByStart(out) && multiset(out) == multiset(segments)
    {
      OldestFirstSorts(segments);
      out := OldestFirst(segments);
    }

    method TotalSize() returns (total: int)
      ensures total == Total(segments)
    {
      total := 0;
      for i := 0 to |segments|
        invariant total + Total(segments[i..]) == Total(segments)
      {
        assert segments[i..][1..] == segments[i + 1..];
        total := total + segments[i].size;
      }
    }
  }

  datatype Change = Appended(si: SegmentInfo) | RemovedFile(file: FileName)

  /** Any sequence of changes leaves a file that reloads to the list in memory. */
  method Changes(ix: Index, changes: seq<Change>)
    requires ix.InSync()
    modifies ix
    ensures ix.InSync()
  {
    for i := 0 to |changes|
      invariant ix.InSync()
    {
      match changes[i]
      case Appended(si) => ix.Append(si);
      case RemovedFile(file) => ix.Remove(file);
    }
  }
}
