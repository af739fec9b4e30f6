/**
 * Laws of the Annex-B parser: extraction over arbitrary read boundaries refines
 * batch parsing, and printing and parsing undo each other.
 */
module AnnexBLaws {
  import opened Basics
  import opened AnnexB

  // ---------------------------------------------------------------- core lists

  /** Ascending lists with the same elements are equal. */
  lemma {:induction false} AscendingUnique(cs: seq<nat>, ds: seq<nat>)
    requires forall j, k :: 0 <= j < k < |cs| ==> cs[j] < cs[k]
    requires forall j, k :: 0 <= j < k < |ds| ==> ds[j] < ds[k]
    requires forall c :: c in cs <==> c in ds
    ensures cs == ds
  {
    assert cs != [] ==> cs[0] in ds;
    assert ds != [] ==> ds[0] in cs;
    if cs != [] {
      assert cs[0] == ds[0];
      forall c ensures c in cs[1..] <==> c in ds[1..] {
        assert c in cs[1..] <==> c in cs && c != cs[0];
        assert c in ds[1..] <==> c in ds && c != ds[0];
      }
      AscendingUnique(cs[1..], ds[1..]);
    }
  }

  function Plus(cs: seq<nat>, p: nat): (ds: seq<nat>)
    ensures |ds| == |cs|
  {
    seq(|cs|, k requires 0 <= k < |cs| => p + cs[k])
  }

  lemma {:induction false} CoresShift(d: seq<Byte>, p: nat, j: nat)
    requires p + j <= |d|
    ensures Plus(CoresFrom(d[p..], j), p) == CoresFrom(d, p + j)
    decreases |d| - j
  {
    var e := d[p..];
    if j == |e| {
      assert CoresFrom(e, j) == [] == CoresFrom(d, p + j);
    } else {
      var tail := CoresFrom(e, j + 1);
      CoresShift(d, p, j + 1);
      assert Plus(tail, p) == CoresFrom(d, p + j + 1);
      assert IsCore(e, j) <==> IsCore(d, p + j);
      if IsCore(e, j) {
        assert CoresFrom(e, j) == [j] + tail;
        assert CoresFrom(d, p + j) == [p + j] + CoresFrom(d, p + j + 1);
        assert Plus([j] + tail, p) == [p + j] + Plus(tail, p);
      }
    }
  }

  /** Appending bytes changes the core list only from its last element on. */
  lemma {:induction false} CoresAppend(s: seq<Byte>, t: seq<Byte>, i: nat)
    requires i <= |s| && CoresFrom(s, i) != []
    ensures var cs := CoresFrom(s, i); var m := |cs| - 1;
            && IsCore(s + t, cs[m])
            && CoresFrom(s + t, i) == cs[..m] + CoresFrom(s + t, cs[m])
    decreases |s| - i
  {
    var cs, d := CoresFrom(s, i), s + t;
    var l := cs[|cs| - 1];
    assert CoresFrom(d, i) == (if IsCore(d, i) then [i] else []) + CoresFrom(d, i + 1);
    if IsCore(s, i) {
      var tail := CoresFrom(s, i + 1);
      assert IsCore(d, i) && cs == [i] + tail;
      if tail != [] {
        CoresAppend(s, t, i + 1);
        assert l == tail[|tail| - 1];
        assert cs[..|cs| - 1] == [i] + tail[..|tail| - 1];
        AppendStep([i], tail[..|tail| - 1], CoresFrom(d, l));
      } else {
        assert cs[..|cs| - 1] == [] && l == i;
      }
    } else {
      CoresAreAll(s, i + 1);
      assert cs[0] in cs;
      assert i + 3 < |s| && !IsCore(d, i);
      CoresAppend(s, t, i + 1);
    }
  }

  /** Cutting at the start of the last core leaves all the others. */
  lemma CoresOfPrefix(d: seq<Byte>, cs: seq<nat>)
    requires cs == CoresFrom(d, 0) && cs != []
    ensures StartOf(d, cs[|cs| - 1]) <= |d|
    ensures CoresFrom(d[..StartOf(d, cs[|cs| - 1])], 0) == cs[..|cs| - 1]
  {
    var m := |cs| - 1;
    var p := StartOf(d, cs[m]);
    CoresAreAll(d, 0);
    assert cs[m] in cs;
    var es := CoresFrom(d[..p], 0);
    CoresAreAll(d[..p], 0);
    forall c ensures c in es <==> c in cs[..m] {
      if c in es {
        assert IsCore(d, c) && c < cs[m];
      }
      if c in cs[..m] {
        CoreGap(d, c, cs[m]);
      }
    }
    AscendingUnique(es, cs[..m]);
  }

  // ---------------------------------------------------------------- unit lists

  lemma {:induction false} UnitsSplit(d: seq<Byte>, cs: seq<nat>, k: nat, m: nat, n: nat)
    requires k <= m <= n <= |cs|
    ensures Units(d, cs, k, n) == Units(d, cs, k, m) + Units(d, cs, m, n)
    decreases m - k
  {
    if k == m {
      assert Units(d, cs, k, m) == [];
    } else {
      UnitsSplit(d, cs, k + 1, m, n);
      assert Units(d, cs, k, n) == UnitAt(d, cs, k) + Units(d, cs, k + 1, n);
      assert Units(d, cs, k, m) == UnitAt(d, cs, k) + Units(d, cs, k + 1, m);
      AppendStep(UnitAt(d, cs, k), Units(d, cs, k + 1, m), Units(d, cs, m, n));
    }
  }

  /** The units after cores `k` to `n` of one list are those after the cores from `j` on of another, one by one. */
  predicate SameUnits(d: seq<Byte>, cs: seq<nat>, k: nat, n: nat, e: seq<Byte>, es: seq<nat>, j: nat) {
    && (k <= n ==> n <= |cs| && j + (n - k) <= |es|)
    && forall i :: k <= i < n ==> UnitAt(d, cs, i) == UnitAt(e, es, j + (i - k))
  }

  lemma {:induction false} UnitsMatch(d: seq<Byte>, cs: seq<nat>, k: nat, n: nat, e: seq<Byte>, es: seq<nat>,
                                      j: nat, m: nat)
    requires k <= n <= |cs| && j <= m <= |es| && n - k == m - j && SameUnits(d, cs, k, n, e, es, j)
    ensures Units(d, cs, k, n) == Units(e, es, j, m)
    decreases n - k
  {
    if k < n {
      SameUnitsHead(d, cs, k, n, e, es, j);
      UnitsMatch(d, cs, k + 1, n, e, es, j + 1, m);
      UnitsCons(d, cs, k, n, e, es, j, m);
    } else {
      UnitsNone(d, cs, k);
      UnitsNone(e, es, j);
    }
  }

  lemma SameUnitsHead(d: seq<Byte>, cs: seq<nat>, k: nat, n: nat, e: seq<Byte>, es: seq<nat>, j: nat)
    requires k < n && SameUnits(d, cs, k, n, e, es, j)
    ensures k < |cs| && j < |es| && UnitAt(d, cs, k) == UnitAt(e, es, j) && SameUnits(d, cs, k + 1, n, e, es, j + 1)
  {
  }

  lemma UnitsNone(d: seq<Byte>, cs: seq<nat>, k: nat)
    requires k <= |cs|
    ensures Units(d, cs, k, k) == []
  {
  }

  lemma UnitsCons(d: seq<Byte>, cs: seq<nat>, k: nat, n: nat, e: seq<Byte>, es: seq<nat>, j: nat, m: nat)
    requires k < n <= |cs| && j < m <= |es| && UnitAt(d, cs, k) == UnitAt(e, es, j)
    requires Units(d, cs, k + 1, n) == Units(e, es, j + 1, m)
    ensures Units(d, cs, k, n) == Units(e, es, j, m)
  {
  }

  lemma UnitShift(d: seq<Byte>, p: nat, cs: seq<nat>, k: nat)
    requires p <= |d| && k < |cs| && (k + 1 < |cs| ==> 0 < cs[k + 1])
    ensures UnitAt(d[p..], cs, k) == UnitAt(d, Plus(cs, p), k)
  {
    var e, ds := d[p..], Plus(cs, p);
    var s, f := cs[k] + 3, EndOf(e, cs, k);
    assert EndOf(d, ds, k) == p + f;
    if s < f <= |e| {
      assert e[s..f] == d[p + s..p + f];
    }
  }

  // ---------------------------------------------------------------- streaming refines batch

  /**
   * One read. Extracting from the kept bytes and the new ones together yields
   * exactly what extracting from the whole stream yields beyond what was already
   * emitted, and keeps the same bytes.
   */
  lemma ExtractStep(s: seq<Byte>, t: seq<Byte>)
    ensures var (ns, rest) := Extract(s);
            var (ms, rest') := Extract(rest + t);
            Extract(s + t) == (ns + ms, rest')
  {
    if CoresFrom(s, 0) == [] {
      ExtractNone(s);
      assert [] + Extract(s + t).0 == Extract(s + t).0;
    } else {
      ExtractEarlier(s, t);
      ExtractAgain(s, t);
    }
  }

  lemma ExtractNone(s: seq<Byte>)
    requires CoresFrom(s, 0) == []
    ensures Extract(s) == ([], s)
  {
  }

  /** Extraction from the kept bytes and the new ones. */
  lemma ExtractAgain(s: seq<Byte>, t: seq<Byte>)
    requires CoresFrom(s, 0) != []
    ensures var cs := CoresFrom(s, 0);
            Extract(Extract(s).1 + t) == ExtractWith(s + t, CoresFrom(s + t, cs[|cs| - 1]))
  {
    var cs := CoresFrom(s, 0);
    KeptSuffix(s, t);
    ExtractFrom(s + t, cs[|cs| - 1]);
  }

  lemma KeptSuffix(s: seq<Byte>, t: seq<Byte>)
    requires CoresFrom(s, 0) != []
    ensures var cs := CoresFrom(s, 0); var l := cs[|cs| - 1];
            IsCore(s + t, l) && Extract(s).1 + t == (s + t)[StartOf(s + t, l)..]
  {
    var cs := CoresFrom(s, 0);
    var l := cs[|cs| - 1];
    CoresAreAll(s, 0);
    var p := StartOf(s, l);
    assert StartOf(s + t, l) == p;
    assert s[p..] + t == (s + t)[p..];
  }

  /** Extraction restarted at the start code of core `l`. */
  lemma ExtractFrom(d: seq<Byte>, l: nat)
    requires IsCore(d, l)
    ensures Extract(d[StartOf(d, l)..]) == ExtractWith(d, CoresFrom(d, l))
  {
    var p := StartOf(d, l);
    var es := CoresFrom(d[p..], 0);
    CoresShift(d, p, 0);
    assert Plus(es, p) == CoresFrom(d, p) == CoresFrom(d, l);
    LastCoreAtLeast(d, l);
    CoresAreAll(d[p..], 0);
    ExtractShift(d, l, es);
  }

  lemma LastCoreAtLeast(d: seq<Byte>, l: nat)
    requires IsCore(d, l)
    ensures var cs := CoresFrom(d, l); cs != [] && l <= cs[|cs| - 1] && cs[0] == l
  {
    assert CoresFrom(d, l) == [l] + CoresFrom(d, l + 1);
    CoresAreAll(d, l);
  }

  lemma ExtractShift(d: seq<Byte>, l: nat, es: seq<nat>)
    requires IsCore(d, l) && CoreList(d[StartOf(d, l)..], es) && es != []
    requires l <= StartOf(d, l) + es[|es| - 1]
    ensures ExtractWith(d[StartOf(d, l)..], es) == ExtractWith(d, Plus(es, StartOf(d, l)))
  {
    var p, z := StartOf(d, l), |es| - 1;
    UnitsShift(d, p, es, z);
    LastShifted(d, l, es);
    ExtractSame(d[p..], es, d, Plus(es, p));
  }

  lemma LastShifted(d: seq<Byte>, l: nat, es: seq<nat>)
    requires IsCore(d, l) && CoreList(d[StartOf(d, l)..], es) && es != []
    requires l <= StartOf(d, l) + es[|es| - 1]
    ensures var p := StartOf(d, l); LastRest(d[p..], es) == LastRest(d, Plus(es, p))
  {
    var p, c := StartOf(d, l), es[|es| - 1];
    assert IsCore(d[p..], c);
    assert Plus(es, p)[|es| - 1] == p + c;
    SameStart(d, l, c);
  }

  /** The bytes from the last start code on. */
  function LastRest(d: seq<Byte>, cs: seq<nat>): seq<Byte>
    requires cs != []
  {
    Suffix(d, StartOf(d, cs[|cs| - 1]))
  }

  lemma ExtractSame(e: seq<Byte>, es: seq<nat>, d: seq<Byte>, ds: seq<nat>)
    requires es != [] && |es| == |ds| && Units(e, es, 0, |es| - 1) == Units(d, ds, 0, |ds| - 1)
    requires LastRest(e, es) == LastRest(d, ds)
    ensures ExtractWith(e, es) == ExtractWith(d, ds)
  {
  }

  /** The bytes kept by an extraction from the suffix at core `l`. */
  lemma SameStart(d: seq<Byte>, l: nat, c: nat)
    requires IsCore(d, l) && IsCore(d, StartOf(d, l) + c) && l <= StartOf(d, l) + c
    ensures var p := StartOf(d, l); Suffix(d[p..], StartOf(d[p..], c)) == Suffix(d, StartOf(d, p + c))
  {
    var p := StartOf(d, l);
    if l < p + c {
      CoreGap(d, l, p + c);
    }
    var e := d[p..];
    var q := StartOf(e, c);
    assert c > 0 ==> e[c - 1] == d[p + c - 1];
    assert StartOf(d, p + c) == p + q;
    assert e[q..] == d[p + q..];
  }

  lemma UnitsShift(d: seq<Byte>, p: nat, es: seq<nat>, z: nat)
    requires p <= |d| && CoreList(d[p..], es) && z <= |es|
    ensures Units(d[p..], es, 0, z) == Units(d, Plus(es, p), 0, z)
  {
    SameUnitsShifted(d, p, es, z);
    UnitsMatch(d[p..], es, 0, z, d, Plus(es, p), 0, z);
  }

  lemma SameUnitsShifted(d: seq<Byte>, p: nat, es: seq<nat>, z: nat)
    requires p <= |d| && CoreList(d[p..], es) && z <= |es|
    ensures SameUnits(d[p..], es, 0, z, d, Plus(es, p), 0)
  {
    forall i | 0 <= i < z ensures UnitAt(d[p..], es, i) == UnitAt(d, Plus(es, p), i) {
      ShiftedUnit(d, p, es, i);
    }
  }

  lemma ShiftedUnit(d: seq<Byte>, p: nat, es: seq<nat>, k: nat)
    requires p <= |d| && CoreList(d[p..], es) && k < |es|
    ensures |Plus(es, p)| == |es| && UnitAt(d[p..], es, k) == UnitAt(d, Plus(es, p), k)
  {
    assert k + 1 < |es| ==> es[k] < es[k + 1];
    UnitShift(d, p, es, k);
  }

  /** Extraction after appending bytes: what was complete already, then extraction from the last core. */
  lemma ExtractEarlier(s: seq<Byte>, t: seq<Byte>)
    requires CoresFrom(s, 0) != []
    ensures var cs := CoresFrom(s, 0);
            var (ms, rest) := ExtractWith(s + t, CoresFrom(s + t, cs[|cs| - 1]));
            Extract(s + t) == (Extract(s).0 + ms, rest)
  {
    var cs := CoresFrom(s, 0);
    var m := |cs| - 1;
    CoresAppend(s, t, 0);
    var ds := CoresFrom(s + t, cs[m]);
    LastCoreAtLeast(s + t, cs[m]);
    CoresAreAll(s, 0);
    JoinedUnits(s, cs, s + t, m, ds);
    ExtractJoined(s, cs, s + t, m, ds, CoresFrom(s + t, 0));
  }

  lemma ExtractJoined(s: seq<Byte>, cs: seq<nat>, d: seq<Byte>, m: nat, ds: seq<nat>, all: seq<nat>)
    requires m + 1 == |cs| && ds != [] && all == cs[..m] + ds
    requires Units(d, all, 0, |all| - 1) == Units(s, cs, 0, m) + Units(d, ds, 0, |ds| - 1)
    ensures ExtractWith(d, all) == (ExtractWith(s, cs).0 + ExtractWith(d, ds).0, ExtractWith(d, ds).1)
  {
    assert all[|all| - 1] == ds[|ds| - 1];
  }

  lemma JoinedUnits(s: seq<Byte>, cs: seq<nat>, d: seq<Byte>, m: nat, ds: seq<nat>)
    requires CoreList(s, cs) && s <= d && m + 1 == |cs| && ds != [] && ds[0] == cs[m]
    ensures var all := cs[..m] + ds;
            Units(d, all, 0, |all| - 1) == Units(s, cs, 0, m) + Units(d, ds, 0, |ds| - 1)
  {
    var all := cs[..m] + ds;
    var z := |all| - 1;
    UnitsSplit(d, all, 0, m, z);
    assert ds == all[m..] && z == m + (|ds| - 1);
    UnitsOfSuffix(d, all, m, ds, |ds| - 1);
    assert all[..m + 1] == cs[..m + 1];
    UnitsBefore(s, cs, d, all, m);
  }

  lemma SuffixUnit(d: seq<Byte>, all: seq<nat>, m: nat, i: nat)
    requires m <= i < |all|
    ensures UnitAt(d, all, i) == UnitAt(d, all[m..], i - m)
  {
    assert i + 1 < |all| ==> all[i + 1] == all[m..][i - m + 1];
  }

  lemma UnitsOfSuffix(d: seq<Byte>, all: seq<nat>, m: nat, ds: seq<nat>, n: nat)
    requires m <= |all| && ds == all[m..] && n <= |ds|
    ensures Units(d, all, m, m + n) == Units(d, ds, 0, n)
  {
    SameUnitsOfSuffix(d, all, m, ds, n);
    UnitsMatch(d, all, m, m + n, d, ds, 0, n);
  }

  lemma SameUnitsOfSuffix(d: seq<Byte>, all: seq<nat>, m: nat, ds: seq<nat>, n: nat)
    requires m <= |all| && ds == all[m..] && n <= |ds|
    ensures SameUnits(d, all, m, m + n, d, ds, 0)
  {
    forall i | m <= i < m + n ensures UnitAt(d, all, i) == UnitAt(d, ds, i - m) {
      SuffixUnit(d, all, m, i);
    }
  }

  /** The units that were complete already do not change when bytes are appended. */
  lemma UnitsBefore(s: seq<Byte>, cs: seq<nat>, d: seq<Byte>, all: seq<nat>, m: nat)
    requires CoreList(s, cs) && s <= d
    requires m < |cs| && m < |all| && cs[..m + 1] == all[..m + 1]
    ensures Units(s, cs, 0, m) == Units(d, all, 0, m)
  {
    SameUnitsBefore(s, cs, d, all, m);
    UnitsMatch(s, cs, 0, m, d, all, 0, m);
  }

  lemma SameUnitsBefore(s: seq<Byte>, cs: seq<nat>, d: seq<Byte>, all: seq<nat>, m: nat)
    requires CoreList(s, cs) && s <= d
    requires m < |cs| && m < |all| && cs[..m + 1] == all[..m + 1]
    ensures SameUnits(s, cs, 0, m, d, all, 0)
  {
    forall i | 0 <= i < m ensures UnitAt(s, cs, i) == UnitAt(d, all, i) {
      UnitBefore(s, cs, d, all, i, m);
    }
  }

  lemma UnitBefore(s: seq<Byte>, cs: seq<nat>, d: seq<Byte>, all: seq<nat>, k: nat, m: nat)
    requires CoreList(s, cs) && s <= d
    requires k < m < |cs| && m < |all| && cs[..m + 1] == all[..m + 1]
    ensures UnitAt(s, cs, k) == UnitAt(d, all, k)
  {
    assert cs[..m + 1][k] == all[k] && cs[..m + 1][k + 1] == all[k + 1];
    SpanInRange(s, cs, k);
    SameSlice(s, d, cs[k] + 3, StartOf(s, cs[k + 1]));
  }

  lemma SameSlice(s: seq<Byte>, d: seq<Byte>, i: nat, j: nat)
    requires s <= d && i <= j <= |s|
    ensures s[i..j] == d[i..j]
  {
  }

  /** The reader's state after a list of reads: everything emitted, and the bytes kept. */
  function Feed(chunks: seq<seq<Byte>>): (seq<NALU>, seq<Byte>) {
    if chunks == [] then ([], [])
    else
      var (ns, rest) := Feed(chunks[..|chunks| - 1]);
      var (ms, rest') := Extract(rest + chunks[|chunks| - 1]);
      (ns + ms, rest')
  }

  /** However the stream is cut into reads, the emitted units and the kept bytes are the same. */
  lemma {:induction false} StreamingRefinesBatch(chunks: seq<seq<Byte>>)
    ensures Feed(chunks) == Extract(Flatten(chunks))
  {
    if chunks != [] {
      var init, last := chunks[..|chunks| - 1], chunks[|chunks| - 1];
      StreamingRefinesBatch(init);
      ExtractStep(Flatten(init), last);
      assert chunks == init + [last];
      FlattenSnoc(init, last);
    }
  }

  /**
   * Once a start code has been seen, the emitted units are the batch parse of the
   * stream cut at its last start code, and the kept bytes are the rest. Before
   * that nothing is emitted and everything is kept. What batch parsing of the
   * whole stream adds is the one unit that is still pending.
   */
  lemma ExtractIsParseUpToLastStartCode(d: seq<Byte>)
    ensures var ps := Starts(d, CoresFrom(d, 0));
            if ps == [] then
              Extract(d) == ([], d) && Parsed(d) == []
            else
              var p := ps[|ps| - 1];
              && p <= |d|
              && Extract(d) == (Parsed(d[..p]), d[p..])
              && Parsed(d) == Parsed(d[..p]) + Parsed(d[p..])
              && |Parsed(d[p..])| <= 1
  {
    var cs := CoresFrom(d, 0);
    if cs != [] {
      var m := |cs| - 1;
      var p := StartOf(d, cs[m]);
      CoresOfPrefix(d, cs);
      ParsedPrefix(d, cs, p);
      ParsedTail(d, cs, p);
      UnitsSplit(d, cs, 0, m, m + 1);
    }
  }

  lemma UnitInPrefix(d: seq<Byte>, cs: seq<nat>, i: nat)
    requires CoreList(d, cs) && i + 1 < |cs|
    ensures var m := |cs| - 1; var p := StartOf(d, cs[m]);
            p <= |d| && UnitAt(d[..p], cs[..m], i) == UnitAt(d, cs, i)
  {
    var m := |cs| - 1;
    var p := StartOf(d, cs[m]);
    assert IsCore(d, cs[m]);
    if i + 1 < m {
      assert cs[i + 1] < cs[m];
      CoreGap(d, cs[i + 1], cs[m]);
    }
    SpanInRange(d, cs, i);
    assert EndOf(d[..p], cs[..m], i) == EndOf(d, cs, i) <= p;
    SameSlice(d[..p], d, cs[i] + 3, EndOf(d, cs, i));
  }

  lemma SameUnitsOfPrefix(d: seq<Byte>, cs: seq<nat>, e: seq<Byte>, es: seq<nat>)
    requires CoreList(d, cs) && cs != [] && es == cs[..|cs| - 1]
    requires StartOf(d, cs[|cs| - 1]) <= |d| && e == d[..StartOf(d, cs[|cs| - 1])]
    ensures SameUnits(e, es, 0, |es|, d, cs, 0)
  {
    forall i | 0 <= i < |es| ensures UnitAt(e, es, i) == UnitAt(d, cs, i) {
      UnitInPrefix(d, cs, i);
    }
  }

  lemma ParsedPrefix(d: seq<Byte>, cs: seq<nat>, p: nat)
    requires cs == CoresFrom(d, 0) && cs != []
    requires p == StartOf(d, cs[|cs| - 1]) <= |d|
    requires CoresFrom(d[..p], 0) == cs[..|cs| - 1]
    ensures Parsed(d[..p]) == Units(d, cs, 0, |cs| - 1)
  {
    CoresAreAll(d, 0);
    var e, es := d[..p], cs[..|cs| - 1];
    SameUnitsOfPrefix(d, cs, e, es);
    UnitsMatch(e, es, 0, |es|, d, cs, 0, |es|);
  }

  lemma ParsedTail(d: seq<Byte>, cs: seq<nat>, p: nat)
    requires cs == CoresFrom(d, 0) && cs != []
    requires p == StartOf(d, cs[|cs| - 1]) <= |d|
    ensures Parsed(d[p..]) == Units(d, cs, |cs| - 1, |cs|)
    ensures |Parsed(d[p..])| <= 1
  {
    var m := |cs| - 1;
    var e := d[p..];
    CoresAreAll(d, 0);
    assert cs[m] in cs;
    LastCoreOf(d, cs, 0);
    CoresShift(d, p, 0);
    assert CoresFrom(d, p) == CoresFrom(d, cs[m]) == [cs[m]];
    var es := CoresFrom(e, 0);
    assert es == [cs[m] - p] by {
      assert Plus(es, p) == [cs[m]];
      assert Plus(es, p)[0] == p + es[0];
    }
    UnitShift(d, p, es, 0);
    assert UnitAt(d, Plus(es, p), 0) == UnitAt(d, cs, m);
    assert Units(e, es, 0, 1) == UnitAt(e, es, 0) + Units(e, es, 1, 1) == UnitAt(e, es, 0);
    assert Units(d, cs, m, m + 1) == UnitAt(d, cs, m) + Units(d, cs, m + 1, m + 1) == UnitAt(d, cs, m);
  }

  lemma {:induction false} LastCoreOf(d: seq<Byte>, cs: seq<nat>, i: nat)
    requires i <= |d| && cs == CoresFrom(d, i) && cs != []
    ensures cs[|cs| - 1] <= |d| && CoresFrom(d, cs[|cs| - 1]) == [cs[|cs| - 1]]
    decreases |d| - i
  {
    var tail := CoresFrom(d, i + 1);
    if tail != [] {
      LastCoreOf(d, tail, i + 1);
    }
  }

  // ---------------------------------------------------------------- printing

  const START_CODE: seq<Byte> := [0, 0, 0, 1]

  /** Each unit behind a four-byte start code. */
  function Print(ns: seq<NALU>): seq<Byte> {
    if ns == [] then [] else START_CODE + ns[0].data + Print(ns[1..])
  }

  /** What printing writes, byte by byte, for each unit. */
  lemma PrintTells(n: NALU, ns: seq<NALU>)
    ensures Print([n] + ns) == [0, 0, 0, 1] + n.data + Print(ns) && Print([]) == []
  {
    assert ([n] + ns)[1..] == ns;
  }

  lemma {:induction false} PrintAppend(ns: seq<NALU>, ms: seq<NALU>)
    ensures Print(ns + ms) == Print(ns) + Print(ms)
  {
    if ns == [] {
      assert ns + ms == ms;
    } else {
      assert (ns + ms)[1..] == ns[1..] + ms;
      PrintAppend(ns[1..], ms);
    }
  }

  predicate HasCore(d: seq<Byte>) {
    exists i :: 0 <= i < |d| && IsCore(d, i)
  }

  /** A unit that a byte stream can carry: not empty, no 00 00 01 inside, flags as the first byte says. */
  predicate Good(n: NALU) {
    n.data != [] && !HasCore(n.data) && n == MakeNALU(n.data)
  }

  predicate AllGood(ns: seq<NALU>) {
    forall n :: n in ns ==> Good(n)
  }

  lemma {:induction false} UnitsGood(d: seq<Byte>, k: nat)
    requires k <= |CoresFrom(d, 0)|
    ensures AllGood(Units(d, CoresFrom(d, 0), k, |CoresFrom(d, 0)|))
    decreases |CoresFrom(d, 0)| - k
  {
    var cs := CoresFrom(d, 0);
    if k < |cs| {
      UnitsGood(d, k + 1);
      UnitGood(d, k);
      assert Units(d, cs, k, |cs|) == UnitAt(d, cs, k) + Units(d, cs, k + 1, |cs|);
    }
  }

  lemma NoCoreInside(d: seq<Byte>, cs: seq<nat>, k: nat, j: nat)
    requires CoreList(d, cs) && k < |cs| && j < |cs|
    ensures cs[j] <= cs[k] || EndOf(d, cs, k) <= cs[j]
  {
    if k + 1 < j {
      assert cs[k + 1] < cs[j];
    }
  }

  lemma UnitGood(d: seq<Byte>, k: nat)
    requires k < |CoresFrom(d, 0)|
    ensures AllGood(UnitAt(d, CoresFrom(d, 0), k))
  {
    var cs := CoresFrom(d, 0);
    CoresAreAll(d, 0);
    SpanInRange(d, cs, k);
    var s, e := cs[k] + 3, EndOf(d, cs, k);
    var payload := d[s..e];
    forall i | 0 <= i < |payload| ensures !IsCore(payload, i) {
      if IsCore(payload, i) {
        assert IsCore(d, s + i) && s + i in cs;
        var j :| 0 <= j < |cs| && cs[j] == s + i;
        NoCoreInside(d, cs, k, j);
      }
    }
  }

  /** On any input the parser returns only units that a stream can carry. */
  lemma ParsedGood(d: seq<Byte>)
    ensures AllGood(Parsed(d))
  {
    UnitsGood(d, 0);
  }

  /** The type of a parsed unit is the low five bits of its first byte, and decides its flags. */
  lemma ParsedTells(d: seq<Byte>, n: NALU)
    requires n in Parsed(d)
    ensures n.data != [] && n.typ == n.data[0] % 32
    ensures (n.isIDR <==> n.typ == 5) && (n.isSPS <==> n.typ == 7) && (n.isPPS <==> n.typ == 8)
  {
    ParsedGood(d);
  }

  /** A printed unit holds exactly one core: that of its own start code. */
  lemma PrintedHead(n: NALU, tail: seq<Byte>)
    requires Good(n) && (tail == [] || START_CODE <= tail)
    ensures var d := START_CODE + n.data + tail; var m := 4 + |n.data|;
            && IsCore(d, 1) && !IsCore(d, 0)
            && forall k :: 2 <= k <= m ==> !IsCore(d, k)
  {
    var d, m := START_CODE + n.data + tail, 4 + |n.data|;
    forall k | 2 <= k <= m ensures !IsCore(d, k) {
      if 4 <= k && k + 2 < m {
        assert !IsCore(n.data, k - 4);
      } else if 4 <= k && tail != [] {
        assert d[k + 2] == START_CODE[k + 2 - m];
      }
    }
  }

  lemma PrintedBytes(ns: seq<NALU>)
    requires ns != []
    ensures var d := Print(ns); var m := 4 + |ns[0].data|;
            && m <= |d| && d[m..] == Print(ns[1..]) && d[4..m] == ns[0].data
            && START_CODE <= d
  {
    assert Print(ns) == START_CODE + ns[0].data + Print(ns[1..]);
  }

  /** A printed stream has the core of its first unit and the cores of the rest. */
  lemma PrintedCores(ns: seq<NALU>)
    requires ns != [] && Good(ns[0])
    ensures var d := Print(ns); var m := 4 + |ns[0].data|;
            m <= |d| && CoresFrom(d, 0) == [1] + Plus(CoresFrom(d[m..], 0), m)
  {
    PrintedBytes(ns);
    if ns[1..] != [] {
      PrintedBytes(ns[1..]);
    }
    PrintedHead(ns[0], Print(ns[1..]));
    CoresOfHead(Print(ns), 4 + |ns[0].data|);
  }

  lemma CoresOfHead(d: seq<Byte>, m: nat)
    requires 4 <= m <= |d| && IsCore(d, 1) && !IsCore(d, 0)
    requires forall k :: 2 <= k < m ==> !IsCore(d, k)
    ensures CoresFrom(d, 0) == [1] + Plus(CoresFrom(d[m..], 0), m)
  {
    assert CoresFrom(d, 0) == CoresFrom(d, 1) == [1] + CoresFrom(d, 2);
    NoCoresBetween(d, 2, m);
    CoresShift(d, m, 0);
  }

  lemma {:induction false} NoCoresBetween(d: seq<Byte>, i: nat, j: nat)
    requires i <= j <= |d| && forall k :: i <= k < j ==> !IsCore(d, k)
    ensures CoresFrom(d, i) == CoresFrom(d, j)
    decreases j - i
  {
    if i < j {
      NoCoresBetween(d, i + 1, j);
    }
  }

  lemma {:induction false} ParseUndoesPrint(ns: seq<NALU>)
    requires AllGood(ns)
    ensures Parsed(Print(ns)) == ns
  {
    if ns != [] {
      var d, m := Print(ns), 4 + |ns[0].data|;
      PrintedBytes(ns);
      PrintedCores(ns);
      ParseUndoesPrint(ns[1..]);
      var cs, es := CoresFrom(d, 0), CoresFrom(d[m..], 0);
      FirstPrintedUnit(ns, cs);
      CoresAreAll(d[m..], 0);
      LaterPrintedUnits(d, m, cs, es, cs[1..]);
      assert Units(d, cs, 0, |cs|) == UnitAt(d, cs, 0) + Units(d, cs, 1, |cs|);
    }
  }

  lemma LaterPrintedUnits(d: seq<Byte>, m: nat, cs: seq<nat>, es: seq<nat>, ds: seq<nat>)
    requires m <= |d| && cs != [] && ds == cs[1..] && ds == Plus(es, m) && CoreList(d[m..], es)
    ensures Units(d, cs, 1, |cs|) == Units(d[m..], es, 0, |es|)
  {
    SameUnitsLater(d, m, cs, es, ds);
    UnitsMatch(d[m..], es, 0, |es|, d, cs, 1, |cs|);
  }

  lemma SameUnitsLater(d: seq<Byte>, m: nat, cs: seq<nat>, es: seq<nat>, ds: seq<nat>)
    requires m <= |d| && cs != [] && ds == cs[1..] && ds == Plus(es, m) && CoreList(d[m..], es)
    ensures SameUnits(d[m..], es, 0, |es|, d, cs, 1)
  {
    forall i | 0 <= i < |es| ensures UnitAt(d[m..], es, i) == UnitAt(d, cs, 1 + i) {
      LaterUnit(d, m, cs, es, ds, i);
    }
  }

  lemma LaterUnit(d: seq<Byte>, m: nat, cs: seq<nat>, es: seq<nat>, ds: seq<nat>, k: nat)
    requires m <= |d| && cs != [] && ds == cs[1..] && ds == Plus(es, m) && CoreList(d[m..], es) && k < |es|
    ensures UnitAt(d[m..], es, k) == UnitAt(d, cs, k + 1)
  {
    assert k + 1 < |es| ==> es[k] < es[k + 1];
    UnitShift(d, m, es, k);
    SuffixUnit(d, cs, 1, k + 1);
  }

  lemma FirstPrintedUnit(ns: seq<NALU>, cs: seq<nat>)
    requires ns != [] && AllGood(ns) && cs == CoresFrom(Print(ns), 0) && cs != []
    ensures UnitAt(Print(ns), cs, 0) == [ns[0]]
  {
    var d, m := Print(ns), 4 + |ns[0].data|;
    PrintedBytes(ns);
    PrintedCores(ns);
    if ns[1..] != [] {
      PrintedBytes(ns[1..]);
      PrintedCores(ns[1..]);
      assert cs[1] == m + 1 && d[m] == d[m..][0];
    }
    assert EndOf(d, cs, 0) == m;
  }

  /**
   * The round trip, exactly: a list of units survives printing and parsing if
   * and only if every unit is one a stream can carry. Trailing zero bytes are
   * no obstacle.
   */
  lemma RoundTripExactly(ns: seq<NALU>)
    ensures Parsed(Print(ns)) == ns <==> AllGood(ns)
  {
    if AllGood(ns) {
      ParseUndoesPrint(ns);
    }
    ParsedGood(Print(ns));
  }

  /** Re-framing any stream with four-byte start codes does not change its units. */
  lemma ReframingPreservesUnits(d: seq<Byte>)
    ensures Parsed(Print(Parsed(d))) == Parsed(d)
  {
    ParsedGood(d);
    ParseUndoesPrint(Parsed(d));
  }
}
