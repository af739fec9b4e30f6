/**
 * The retention policy: pruning the recording index by age and by total size. It
 * works by file, and a file that was appended to has several records.
 */
module Retention {
  import opened Basics
  import opened SegmentIndex

  // ---------------------------------------------------------------- pruning by age

  /** The records that end at the cutoff or later. */
  function Young(ss: seq<SegmentInfo>, cutoff: int): seq<SegmentInfo> {
    if ss == [] then []
    else if ss[0].endMS < cutoff then Young(ss[1..], cutoff)
    else [ss[0]] + Young(ss[1..], cutoff)
  }

  function Pruned(ss: seq<SegmentInfo>, gone: set<FileName>): seq<SegmentInfo> {
    if ss == [] then []
    else if ss[0].file in gone then Pruned(ss[1..], gone)
    else [ss[0]] + Pruned(ss[1..], gone)
  }

  lemma {:induction false} PruneOneMore(ss: seq<SegmentInfo>, gone: set<FileName>, file: FileName)
    ensures Removed(Pruned(ss, gone), file) == Pruned(ss, gone + {file})
  {
    if ss != [] {
      PruneOneMore(ss[1..], gone, file);
      if ss[0].file !in gone {
        assert ([ss[0]] + Pruned(ss[1..], gone))[1..] == Pruned(ss[1..], gone);
      }
    }
  }

  lemma {:induction false} PruneNone(ss: seq<SegmentInfo>)
    ensures Pruned(ss, {}) == ss
  {
    if ss != [] {
      PruneNone(ss[1..]);
    }
  }

  /** The files of the records that are too old. */
  function OldFiles(ss: seq<SegmentInfo>, cutoff: int): set<FileName> {
    if ss == [] then {}
    else
      var n := |ss| - 1;
      if ss[n].endMS < cutoff then OldFiles(ss[..n], cutoff) + {ss[n].file} else OldFiles(ss[..n], cutoff)
  }

  lemma {:induction false} OldFilesAre(ss: seq<SegmentInfo>, cutoff: int, file: FileName)
    ensures file in OldFiles(ss, cutoff) <==> exists s :: s in ss && s.endMS < cutoff && s.file == file
  {
    if ss != [] {
      var n := |ss| - 1;
      OldFilesAre(ss[..n], cutoff, file);
      assert ss == ss[..n] + [ss[n]];
    }
  }

  lemma OldFilesSame(ss: seq<SegmentInfo>, snap: seq<SegmentInfo>, cutoff: int)
    requires multiset(snap) == multiset(ss)
    ensures OldFiles(snap, cutoff) == OldFiles(ss, cutoff)
  {
    forall file ensures file in OldFiles(snap, cutoff) <==> file in OldFiles(ss, cutoff) {
      OldFilesAre(snap, cutoff, file);
      OldFilesAre(ss, cutoff, file);
      assert forall s :: s in snap <==> s in multiset(snap);
      assert forall s :: s in ss <==> s in multiset(ss);
    }
  }

  /** Removes every file that has a record which ended before the cutoff; the rest keeps its order. */
  method EnforceAge(ix: Index, retentionDays: int, nowMS: int)
    modifies ix
    ensures retentionDays <= 0 ==> ix.segments == old(ix.segments)
    ensures retentionDays > 0 ==>
              ix.segments == Pruned(old(ix.segments), OldFiles(old(ix.segments), Cutoff(retentionDays, nowMS)))
  {
    if retentionDays <= 0 {
      return;
    }
    var cutoff := nowMS - retentionDays * 24 * 3600 * 1000;
    ghost var ss := ix.segments;
    var snap := ix.Snapshot();
    PruneNone(ss);
    for i := 0 to |snap|
      invariant ix.segments == Pruned(ss, OldFiles(snap[..i], cutoff))
    {
      assert snap[..i + 1][..i] == snap[..i];
      if snap[i].endMS < cutoff {
        PruneOneMore(ss, OldFiles(snap[..i], cutoff), snap[i].file);
        ix.Remove(snap[i].file);
      }
    }
    assert snap[..|snap|] == snap;
    OldFilesSame(ss, snap, cutoff);
  }

  function Cutoff(retentionDays: int, nowMS: int): int {
    nowMS - retentionDays * 24 * 3600 * 1000
  }

  /** A day has 86 400 000 milliseconds: a record stays as long as it is not older than that many for each day. */
  lemma CutoffIsDaysBack(retentionDays: int, nowMS: int, endMS: int)
    ensures endMS < Cutoff(retentionDays, nowMS) <==> nowMS - endMS > retentionDays * 86_400_000
  {
    assert retentionDays * 24 * 3600 * 1000 == retentionDays * 86_400_000;
  }

  /** What enforcing the age leaves: the records of every file of which no record is too old. */
  lemma KeptByAgeExactly(ss: seq<SegmentInfo>, retentionDays: int, nowMS: int, s: SegmentInfo)
    ensures s in Pruned(ss, OldFiles(ss, Cutoff(retentionDays, nowMS))) <==>
              s in ss && forall t :: t in ss && t.file == s.file ==> nowMS - t.endMS <= retentionDays * 86_400_000
  {
    var cutoff := Cutoff(retentionDays, nowMS);
    PrunedFilters(ss, OldFiles(ss, cutoff), s);
    OldFilesAre(ss, cutoff, s.file);
    forall t | t in ss ensures t.endMS < cutoff <==> nowMS - t.endMS > retentionDays * 86_400_000 {
      CutoffIsDaysBack(retentionDays, nowMS, t.endMS);
    }
  }

  /** No file with an old record has a young one too. */
  predicate FilesAgeTogether(ss: seq<SegmentInfo>, cutoff: int) {
    forall s :: s in ss && s.endMS >= cutoff ==> s.file !in OldFiles(ss, cutoff)
  }

  /** Going by files removes exactly the old records if and only if no file has an old record and a young one. */
  lemma AgeIsExact(ss: seq<SegmentInfo>, cutoff: int)
    ensures Pruned(ss, OldFiles(ss, cutoff)) == Young(ss, cutoff) <==> FilesAgeTogether(ss, cutoff)
  {
    forall s | s in ss && s.endMS < cutoff ensures s.file in OldFiles(ss, cutoff) {
      OldFilesAre(ss, cutoff, s.file);
    }
    PrunedIsYoungExactly(ss, OldFiles(ss, cutoff), cutoff);
  }

  lemma {:induction false} PrunedIsYoungExactly(ss: seq<SegmentInfo>, gone: set<FileName>, cutoff: int)
    requires forall s :: s in ss && s.endMS < cutoff ==> s.file in gone
    ensures |Pruned(ss, gone)| <= |Young(ss, cutoff)|
    ensures Pruned(ss, gone) == Young(ss, cutoff) <==> forall s :: s in ss && s.endMS >= cutoff ==> s.file !in gone
  {
    if ss != [] {
      PrunedIsYoungExactly(ss[1..], gone, cutoff);
      assert ss == [ss[0]] + ss[1..];
      if ss[0].file !in gone {
        assert Pruned(ss, gone)[1..] == Pruned(ss[1..], gone) && Young(ss, cutoff)[1..] == Young(ss[1..], cutoff);
      }
    }
  }

  // ---------------------------------------------------------------- pruning by capacity

  predicate OldestIn(s: SegmentInfo, ss: seq<SegmentInfo>) {
    s in ss && forall t :: t in ss ==> s.startMS <= t.startMS
  }

  /**
   * `r` is left when the file of an oldest record is removed, again and again, until
   * the total is within the limit. Among records that start at the same time any
   * may be the one.
   */
  ghost predicate Trims(ss: seq<SegmentInfo>, limit: int, r: seq<SegmentInfo>)
    decreases |ss|
  {
    if Total(ss) <= limit then r == ss
    else exists s :: OldestIn(s, ss) && |Removed(ss, s.file)| < |ss| && Trims(Removed(ss, s.file), limit, r)
  }

  lemma {:induction false} RemovedShorter(ss: seq<SegmentInfo>, s: SegmentInfo)
    ensures |Removed(ss, s.file)| <= |ss| && (s in ss ==> |Removed(ss, s.file)| < |ss|)
  {
    if ss != [] {
      RemovedShorter(ss[1..], s);
      assert ss == [ss[0]] + ss[1..];
    }
  }

  /** Removes the file of the oldest record until the total is within the limit. */
  method EnforceCapacity(ix: Index, maxStorageMB: int)
    modifies ix
    ensures maxStorageMB <= 0 ==> ix.segments == old(ix.segments)
    ensures maxStorageMB > 0 ==> Trims(old(ix.segments), maxStorageMB * 1024 * 1024, ix.segments)
  {
    if maxStorageMB <= 0 {
      return;
    }
    var limit := maxStorageMB * 1024 * 1024;
    var total := ix.TotalSize();
    while total > limit
      invariant total == Total(ix.segments)
      invariant forall r :: Trims(ix.segments, limit, r) ==> Trims(old(ix.segments), limit, r)
      decreases |ix.segments|
    {
      var segs := ix.Snapshot();
      SameSize(segs, ix.segments);
      if |segs| == 0 {
        return;
      }
      FirstIsOldest(segs, ix.segments);
      RemovedShorter(ix.segments, segs[0]);
      ix.Remove(segs[0].file);
      total := ix.TotalSize();
    }
  }

  lemma FirstIsOldest(out: seq<SegmentInfo>, ss: seq<SegmentInfo>)
    requires SortedByStart(out) && multiset(out) == multiset(ss) && out != []
    ensures OldestIn(out[0], ss)
  {
    assert out[0] in multiset(out);
    forall t | t in ss ensures out[0].startMS <= t.startMS {
      assert t in multiset(out);
    }
  }

  lemma {:induction false} PruneAfterRemove(ss: seq<SegmentInfo>, file: FileName, gone: set<FileName>)
    ensures Pruned(Removed(ss, file), gone) == Pruned(ss, gone + {file})
  {
    if ss != [] {
      PruneAfterRemove(ss[1..], file, gone);
      if ss[0].file != file {
        assert ([ss[0]] + Removed(ss[1..], file))[1..] == Removed(ss[1..], file);
      }
    }
  }

  lemma {:induction false} RemovedFilters(ss: seq<SegmentInfo>, file: FileName, s: SegmentInfo)
    ensures s in Removed(ss, file) <==> s in ss && s.file != file
  {
    if ss != [] {
      RemovedFilters(ss[1..], file, s);
      assert ss == [ss[0]] + ss[1..];
    }
  }

  lemma {:induction false} PrunedFilters(ss: seq<SegmentInfo>, gone: set<FileName>, s: SegmentInfo)
    ensures s in Pruned(ss, gone) <==> s in ss && s.file !in gone
  {
    if ss != [] {
      PrunedFilters(ss[1..], gone, s);
      assert ss == [ss[0]] + ss[1..];
    }
  }

  /** Every file in `gone` has a record that starts no later than any record left. */
  ghost predicate GoneAreOldest(ss: seq<SegmentInfo>, gone: set<FileName>) {
    forall f :: f in gone ==>
      exists t :: t in ss && t.file == f && forall u :: u in Pruned(ss, gone) ==> t.startMS <= u.startMS
  }

  /** Were it for one file less, the total would be over the limit. */
  ghost predicate NoneTooMany(ss: seq<SegmentInfo>, gone: set<FileName>, limit: int) {
    gone != {} ==> exists f :: f in gone && Total(Pruned(ss, gone - {f})) > limit
  }

  /**
   * What is left, also where files have several records or records start together:
   * files go as a whole, the oldest first, and no more of them than it takes.
   */
  lemma {:induction false} TrimsWholeFiles(ss: seq<SegmentInfo>, limit: int, r: seq<SegmentInfo>)
    returns (gone: set<FileName>)
    requires Trims(ss, limit, r)
    ensures r == Pruned(ss, gone) && Total(r) <= limit
    ensures GoneAreOldest(ss, gone) && NoneTooMany(ss, gone, limit)
    decreases |ss|
  {
    gone := {};
    PruneNone(ss);
    if Total(ss) > limit {
      var s :| OldestIn(s, ss) && |Removed(ss, s.file)| < |ss| && Trims(Removed(ss, s.file), limit, r);
      var less := Removed(ss, s.file);
      var before := TrimsWholeFiles(less, limit, r);
      gone := before + {s.file};
      PruneAfterRemove(ss, s.file, before);
      GoneMore(ss, s, before);
      RemovedIsNotThere(ss, s.file, before);
      OneFileLess(ss, s, before, limit);
    }
  }

  lemma GoneMore(ss: seq<SegmentInfo>, s: SegmentInfo, before: set<FileName>)
    requires OldestIn(s, ss) && GoneAreOldest(Removed(ss, s.file), before)
    ensures GoneAreOldest(ss, before + {s.file})
  {
    var less, gone := Removed(ss, s.file), before + {s.file};
    PruneAfterRemove(ss, s.file, before);
    forall f | f in gone
      ensures exists t :: t in ss && t.file == f && forall u :: u in Pruned(ss, gone) ==> t.startMS <= u.startMS
    {
      if f in before {
        var t :| t in less && t.file == f && forall u :: u in Pruned(less, before) ==> t.startMS <= u.startMS;
        RemovedFilters(ss, s.file, t);
      } else {
        forall u | u in Pruned(ss, gone) ensures s.startMS <= u.startMS {
          PrunedFilters(ss, gone, u);
        }
      }
    }
  }

  lemma OneFileLess(ss: seq<SegmentInfo>, s: SegmentInfo, before: set<FileName>, limit: int)
    requires Total(ss) > limit && NoneTooMany(Removed(ss, s.file), before, limit) && s.file !in before
    ensures NoneTooMany(ss, before + {s.file}, limit)
  {
    var less, gone := Removed(ss, s.file), before + {s.file};
    if before == {} {
      PruneNone(ss);
      assert gone - {s.file} == {};
    } else {
      var f :| f in before && Total(Pruned(less, before - {f})) > limit;
      PruneAfterRemove(ss, s.file, before - {f});
      assert (before - {f}) + {s.file} == gone - {f};
    }
  }

  lemma RemovedIsNotThere(ss: seq<SegmentInfo>, file: FileName, before: set<FileName>)
    requires GoneAreOldest(Removed(ss, file), before)
    ensures file !in before
  {
    if file in before {
      var t :| t in Removed(ss, file) && t.file == file;
      RemovedFilters(ss, file, t);
    }
  }

  // ---------------------------------------------------------------- when files are stretches of time

  /**
   * No record starts among those of another file, or together with one. The
   * recorder's index is like that: a file is named by a stretch of start times.
   */
  predicate FilesAreStretches(ss: seq<SegmentInfo>) {
    forall a, b, c :: a in ss && b in ss && c in ss && a.file == c.file && a.startMS <= b.startMS <= c.startMS ==>
      b.file == a.file
  }

  lemma StretchesOfSome(rs: seq<SegmentInfo>, ss: seq<SegmentInfo>)
    requires FilesAreStretches(ss) && forall s :: s in rs ==> s in ss
    ensures FilesAreStretches(rs)
  {
  }

  lemma {:induction false} InsertRemoved(s: SegmentInfo, ss: seq<SegmentInfo>, file: FileName)
    requires SortedByStart(ss)
    ensures Removed(Insert(s, ss), file) == if s.file == file then Removed(ss, file) else Insert(s, Removed(ss, file))
    decreases |ss|
  {
    if ss == [] || s.startMS < ss[0].startMS {
      assert ([s] + ss)[1..] == ss;
      RemovedStaysAbove(ss, file);
    } else {
      assert ([ss[0]] + Insert(s, ss[1..]))[1..] == Insert(s, ss[1..]);
      InsertRemoved(s, ss[1..], file);
      RemovedStaysAbove(ss[1..], file);
      InsertInFront(s, ss[0], Removed(ss[1..], file));
    }
  }

  lemma InsertInFront(s: SegmentInfo, x: SegmentInfo, ss: seq<SegmentInfo>)
    requires s.startMS >= x.startMS
    ensures Insert(s, [x] + ss) == [x] + Insert(s, ss)
  {
    assert ([x] + ss)[1..] == ss;
  }

  lemma {:induction false} RemovedStaysAbove(ss: seq<SegmentInfo>, file: FileName)
    requires SortedByStart(ss)
    ensures Removed(ss, file) != [] ==> ss != [] && Removed(ss, file)[0].startMS >= ss[0].startMS
    decreases |ss|
  {
    if ss != [] && ss[0].file == file {
      RemovedStaysAbove(ss[1..], file);
    }
  }

  /** Sorting and removing a file's records go together in either order. */
  lemma {:induction false} SortedRemoved(ss: seq<SegmentInfo>, file: FileName)
    ensures OldestFirst(Removed(ss, file)) == Removed(OldestFirst(ss), file)
  {
    if ss != [] {
      SortedRemoved(ss[1..], file);
      OldestFirstSorts(ss[1..]);
      InsertRemoved(ss[0], OldestFirst(ss[1..]), file);
      if ss[0].file != file {
        assert ([ss[0]] + Removed(ss[1..], file))[1..] == Removed(ss[1..], file);
      }
    }
  }

  lemma {:induction false} NothingToRemove(ss: seq<SegmentInfo>, file: FileName)
    requires forall i :: 0 <= i < |ss| ==> ss[i].file != file
    ensures Removed(ss, file) == ss
  {
    if ss != [] {
      NothingToRemove(ss[1..], file);
    }
  }

  lemma {:induction false} TotalInsert(s: SegmentInfo, ss: seq<SegmentInfo>)
    ensures Total(Insert(s, ss)) == Total(ss) + s.size
  {
    if !(ss == [] || s.startMS < ss[0].startMS) {
      TotalInsert(s, ss[1..]);
      assert ([ss[0]] + Insert(s, ss[1..]))[1..] == Insert(s, ss[1..]);
    } else {
      assert ([s] + ss)[1..] == ss;
    }
  }

  lemma {:induction false} TotalSorted(ss: seq<SegmentInfo>)
    ensures Total(OldestFirst(ss)) == Total(ss)
  {
    if ss != [] {
      TotalSorted(ss[1..]);
      TotalInsert(ss[0], OldestFirst(ss[1..]));
    }
  }

  /** The newest records, as many as fit under the limit. */
  function Newest(oldestFirst: seq<SegmentInfo>, limit: int): seq<SegmentInfo> {
    if oldestFirst == [] || Total(oldestFirst) <= limit then oldestFirst else Newest(oldestFirst[1..], limit)
  }

  /** It is the longest run of newest records that fits: every longer one is over the limit. */
  lemma {:induction false} NewestIsLongest(ss: seq<SegmentInfo>, limit: int) returns (k: nat)
    ensures k <= |ss| && Newest(ss, limit) == ss[k..]
    ensures limit >= 0 ==> Total(Newest(ss, limit)) <= limit
    ensures forall j :: 0 <= j < k ==> Total(ss[j..]) > limit
  {
    if ss == [] || Total(ss) <= limit {
      k := 0;
    } else {
      var m := NewestIsLongest(ss[1..], limit);
      k := m + 1;
      forall j | 0 <= j < k ensures Total(ss[j..]) > limit {
        if j > 0 {
          assert ss[j..] == ss[1..][j - 1..];
        } else {
          assert ss[0..] == ss;
        }
      }
    }
  }

  /** The records of the first record's file, at the front. */
  function FirstBlock(o: seq<SegmentInfo>, file: FileName): (n: nat)
    ensures n <= |o| && forall i :: 0 <= i < n ==> o[i].file == file
    ensures n < |o| ==> o[n].file != file
  {
    if o == [] || o[0].file != file then 0 else 1 + FirstBlock(o[1..], file)
  }

  lemma {:induction false} RemovedFront(o: seq<SegmentInfo>, file: FileName, n: nat)
    requires n <= |o| && (forall i :: 0 <= i < n ==> o[i].file == file)
    requires forall i :: n <= i < |o| ==> o[i].file != file
    ensures Removed(o, file) == o[n..]
  {
    if n == 0 {
      NothingToRemove(o, file);
    } else {
      RemovedFront(o[1..], file, n - 1);
      assert o[1..][n - 1..] == o[n..];
    }
  }

  /** In order of time, what is left without the oldest file is what follows its block. */
  lemma OldestFileIsFront(o: seq<SegmentInfo>)
    requires SortedByStart(o) && FilesAreStretches(o) && o != []
    ensures var n := FirstBlock(o, o[0].file); 0 < n && Removed(o, o[0].file) == o[n..]
  {
    var n := FirstBlock(o, o[0].file);
    forall i | n <= i < |o| ensures o[i].file != o[0].file {
      assert o[0] in o && o[n] in o && o[i] in o;
      assert o[0].startMS <= o[n].startMS;
      assert o[n].startMS <= o[i].startMS;
    }
    RemovedFront(o, o[0].file, n);
  }

  /** The records in order of time, without the oldest file, and so on until the rest is within the limit. */
  function Left(o: seq<SegmentInfo>, limit: int): seq<SegmentInfo>
    decreases |o|
  {
    if o == [] || Total(o) <= limit then o
    else
      RemovedShorter(o, o[0]);
      Left(Removed(o, o[0].file), limit)
  }

  lemma {:induction false} TrimIsLeft(ss: seq<SegmentInfo>, limit: int, r: seq<SegmentInfo>)
    requires FilesAreStretches(ss) && Trims(ss, limit, r)
    ensures OldestFirst(r) == Left(OldestFirst(ss), limit)
    decreases |ss|
  {
    TotalSorted(ss);
    if Total(ss) > limit {
      var s :| OldestIn(s, ss) && |Removed(ss, s.file)| < |ss| && Trims(Removed(ss, s.file), limit, r);
      OldestIsFirst(ss, s);
      forall t | t in Removed(ss, s.file) ensures t in ss {
        RemovedFilters(ss, s.file, t);
      }
      StretchesOfSome(Removed(ss, s.file), ss);
      TrimIsLeft(Removed(ss, s.file), limit, r);
      SortedRemoved(ss, s.file);
    }
  }

  lemma SortedMembers(ss: seq<SegmentInfo>)
    ensures forall s :: s in OldestFirst(ss) <==> s in ss
  {
    OldestFirstSorts(ss);
    forall s ensures s in OldestFirst(ss) <==> s in ss {
      assert s in multiset(ss) <==> s in ss;
      assert s in multiset(OldestFirst(ss)) <==> s in OldestFirst(ss);
    }
  }

  lemma OldestIsFirst(ss: seq<SegmentInfo>, s: SegmentInfo)
    requires FilesAreStretches(ss) && OldestIn(s, ss)
    ensures OldestFirst(ss) != [] && OldestFirst(ss)[0].file == s.file
  {
    var o := OldestFirst(ss);
    OldestFirstSorts(ss);
    SortedMembers(ss);
    assert s in o;
    var k :| 0 <= k < |o| && o[k] == s;
    assert o[0] in ss && o[0].startMS <= o[k].startMS;
  }

  /** The newest records that fit begin inside a file. */
  predicate CutsFile(o: seq<SegmentInfo>, limit: int) {
    var k := |o| - |Newest(o, limit)|;
    0 < k < |o| && o[k - 1].file == o[k].file
  }

  lemma {:induction false} NewestIsSuffix(o: seq<SegmentInfo>, limit: int, n: nat)
    requires n <= |o| && n <= |o| - |Newest(o, limit)|
    ensures Newest(o, limit) == Newest(o[n..], limit)
  {
    if n > 0 {
      NewestIsSuffix(o[1..], limit, n - 1);
      assert o[1..][n - 1..] == o[n..];
    }
  }

  lemma {:induction false} NewestIsShorter(o: seq<SegmentInfo>, limit: int)
    ensures |Newest(o, limit)| <= |o|
    ensures o != [] && Total(o) > limit ==> |Newest(o, limit)| < |o|
  {
    if o != [] && Total(o) > limit {
      NewestIsShorter(o[1..], limit);
    }
  }

  lemma CutBehindBlock(o: seq<SegmentInfo>, limit: int, n: nat)
    requires 0 < n <= |o| - |Newest(o, limit)| && n == FirstBlock(o, o[0].file)
    ensures CutsFile(o, limit) <==> CutsFile(o[n..], limit)
  {
    var k := |o| - |Newest(o, limit)|;
    NewestIsSuffix(o, limit, n);
    assert k < |o| ==> o[n..][k - n] == o[k];
    assert n < k <= |o| ==> o[n..][k - n - 1] == o[k - 1];
  }

  lemma {:induction false} LeftIsNewestExactly(o: seq<SegmentInfo>, limit: int)
    requires SortedByStart(o) && FilesAreStretches(o)
    ensures |Left(o, limit)| <= |o|
    ensures Left(o, limit) == Newest(o, limit) <==> !CutsFile(o, limit)
    decreases |o|
  {
    if o != [] && Total(o) > limit {
      var n := FirstBlock(o, o[0].file);
      OldestFileIsFront(o);
      StretchesOfSome(o[n..], o);
      LeftIsNewestExactly(o[n..], limit);
      NewestIsShorter(o, limit);
      BlockLeftExactly(o, limit, n, |o| - |Newest(o, limit)|);
    }
  }

  lemma BlockLeftExactly(o: seq<SegmentInfo>, limit: int, n: nat, k: nat)
    requires o != [] && n == FirstBlock(o, o[0].file) && 0 < k == |o| - |Newest(o, limit)|
    requires 0 < n && Left(o, limit) == Left(o[n..], limit) && |Left(o, limit)| <= |o| - n
    requires Left(o[n..], limit) == Newest(o[n..], limit) <==> !CutsFile(o[n..], limit)
    ensures Left(o, limit) == Newest(o, limit) <==> !CutsFile(o, limit)
  {
    if k >= n {
      NewestIsSuffix(o, limit, n);
      CutBehindBlock(o, limit, n);
    } else {
      assert o[k - 1].file == o[k].file;
    }
  }

  /**
   * For an index like the recorder's: exactly the newest records that fit are left if
   * and only if they do not begin inside a file; otherwise that file is lost too.
   */
  lemma TrimIsNewestExactly(ss: seq<SegmentInfo>, limit: int, r: seq<SegmentInfo>)
    requires FilesAreStretches(ss) && Trims(ss, limit, r)
    ensures OldestFirst(r) == Newest(OldestFirst(ss), limit) <==> !CutsFile(OldestFirst(ss), limit)
  {
    TrimIsLeft(ss, limit, r);
    OldestFirstSorts(ss);
    SortedMembers(ss);
    StretchesOfSome(OldestFirst(ss), ss);
    LeftIsNewestExactly(OldestFirst(ss), limit);
  }

  lemma AllRemoved(ss: seq<SegmentInfo>, file: FileName)
    requires forall s :: s in ss ==> s.file == file
    ensures Removed(ss, file) == []
  {
    if Removed(ss, file) != [] {
      RemovedFilters(ss, file, Removed(ss, file)[0]);
    }
  }

  lemma PairInOrder(a: SegmentInfo, b: SegmentInfo)
    requires a.startMS < b.startMS
    ensures OldestFirst([a, b]) == [a, b]
  {
    assert [a, b][1..] == [b] && [b][1..] == [];
    assert OldestFirst([b]) == Insert(b, OldestFirst([])) == Insert(b, []);
    assert OldestFirst([a, b]) == Insert(a, [b]);
  }

  /** Two records of one file, of which the newer would fit: both are lost. */
  lemma CutFileIsLost(a: SegmentInfo, b: SegmentInfo, limit: int)
    requires a.file == b.file && a.startMS < b.startMS && 0 <= b.size <= limit < a.size + b.size
    ensures OldestFirst([a, b]) == [a, b] && Newest([a, b], limit) == [b]
    ensures forall r :: Trims([a, b], limit, r) <==> r == []
  {
    var ss := [a, b];
    assert ss[1..] == [b] && [b][1..] == [];
    PairInOrder(a, b);
    assert Total([]) == 0 && Total([b]) == b.size + Total([]) && Total(ss) == a.size + Total([b]);
    AllRemoved(ss, a.file);
    assert OldestIn(a, ss) && b in ss;
    forall r ensures Trims(ss, limit, r) <==> r == [] {
      assert Trims([], limit, r) <==> r == [];
    }
  }

  /** Age first, then capacity. */
  method Enforce(ix: Index, retentionDays: int, maxStorageMB: int, nowMS: int)
    modifies ix
    ensures var ss := old(ix.segments);
            var kept := if retentionDays <= 0 then ss else Pruned(ss, OldFiles(ss, Cutoff(retentionDays, nowMS)));
            if maxStorageMB <= 0 then ix.segments == kept else Trims(kept, maxStorageMB * 1024 * 1024, ix.segments)
  {
    EnforceAge(ix, retentionDays, nowMS);
    EnforceCapacity(ix, maxStorageMB);
  }

  lemma DistinctFilesAgeTogether(ss: seq<SegmentInfo>, cutoff: int)
    requires DistinctFiles(ss)
    ensures FilesAgeTogether(ss, cutoff)
  {
    forall s | s in ss && s.endMS >= cutoff ensures s.file !in OldFiles(ss, cutoff) {
      OldFilesAre(ss, cutoff, s.file);
    }
  }

  lemma {:induction false} YoungFilters(ss: seq<SegmentInfo>, cutoff: int)
    ensures forall t :: t in Young(ss, cutoff) <==> t in ss && t.endMS >= cutoff
  {
    if ss != [] {
      YoungFilters(ss[1..], cutoff);
      assert ss == [ss[0]] + ss[1..];
    }
  }

  /**
   * Both policies: exactly the newest of the young records that fit are left if and
   * only if they do not begin inside a file, as long as no file has an old record and
   * a young one.
   */
  lemma EnforcedIsNewestOfYoungExactly(ss: seq<SegmentInfo>, cutoff: int, limit: int, r: seq<SegmentInfo>)
    requires FilesAreStretches(ss) && FilesAgeTogether(ss, cutoff)
    requires Trims(Pruned(ss, OldFiles(ss, cutoff)), limit, r)
    ensures var young := OldestFirst(Young(ss, cutoff));
            OldestFirst(r) == Newest(young, limit) <==> !CutsFile(young, limit)
  {
    AgeIsExact(ss, cutoff);
    YoungFilters(ss, cutoff);
    StretchesOfSome(Young(ss, cutoff), ss);
    TrimIsNewestExactly(Young(ss, cutoff), limit, r);
  }
}
