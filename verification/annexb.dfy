/**
 * The Annex-B byte stream format (section B.1 of ITU-T H.264): start-code
 * search, batch parsing and incremental extraction.
 *
 * A "core" is an occurrence of 00 00 01. A start code is a core together with
 * the zero byte in front of it, when there is one.
 */
module AnnexB {
  import opened Basics

  datatype NALU = NALU(typ: Byte, data: seq<Byte>, isIDR: bool, isSPS: bool, isPPS: bool)

  function MakeNALU(data: seq<Byte>): NALU
    requires data != []
  {
    var t := data[0] % 32;
    NALU(t, data, t == 5, t == 7, t == 8)
  }

  /** One picture with its parameter sets; the timestamp is in nanoseconds. */
  datatype AccessUnit = AccessUnit(nalus: seq<NALU>, timestamp: int, keyFrame: bool)

  // ---------------------------------------------------------------- start codes

  predicate IsCore(d: seq<Byte>, i: int) {
    0 <= i && i + 2 < |d| && d[i] == 0 && d[i + 1] == 0 && d[i + 2] == 1
  }

  /** Where the start code with core `c` begins. */
  function StartOf(d: seq<Byte>, c: nat): nat {
    if 0 < c <= |d| && d[c - 1] == 0 then c - 1 else c
  }

  /** Cores in ascending order. */
  predicate CoreList(d: seq<Byte>, cs: seq<nat>) {
    && (forall k :: 0 <= k < |cs| ==> IsCore(d, cs[k]))
    && (forall j, k :: 0 <= j < k < |cs| ==> cs[j] < cs[k])
  }

  /** All cores at or after `i`. */
  function CoresFrom(d: seq<Byte>, i: nat): seq<nat>
    decreases |d| - i
  {
    if i >= |d| then []
    else if IsCore(d, i) then [i] + CoresFrom(d, i + 1)
    else CoresFrom(d, i + 1)
  }

  /** Where the start codes begin. */
  function Starts(d: seq<Byte>, cs: seq<nat>): (ps: seq<nat>)
    ensures |ps| == |cs|
  {
    seq(|cs|, k requires 0 <= k < |cs| => StartOf(d, cs[k]))
  }

  /** Two cores never overlap, even counting the optional leading zero of the second. */
  lemma CoreGap(d: seq<Byte>, c: nat, n: nat)
    requires IsCore(d, c) && IsCore(d, n) && c < n
    ensures c + 3 <= StartOf(d, n)
  {
    assert d[c + 2] == 1;
  }

  lemma NoCoresAtEnd(d: seq<Byte>, i: nat)
    requires i <= |d| <= i + 2
    ensures CoresFrom(d, i) == []
    decreases |d| - i
  {
    if i < |d| {
      NoCoresAtEnd(d, i + 1);
    }
  }

  /** After a core the scan may skip three bytes. */
  lemma SkipCore(d: seq<Byte>, i: nat)
    requires IsCore(d, i)
    ensures CoresFrom(d, i) == [i] + CoresFrom(d, i + 3)
  {
    assert CoresFrom(d, i + 1) == CoresFrom(d, i + 2);
  }

  lemma ScanStep(d: seq<Byte>, cs: seq<nat>, n: nat, i: nat)
    requires n <= |cs| && IsCore(d, i)
    requires CoresFrom(d, i) == cs[n..]
    ensures n < |cs| && CoresFrom(d, i + 3) == cs[n + 1..]
    ensures Starts(d, cs)[..n + 1] == Starts(d, cs)[..n] + [StartOf(d, i)]
  {
    SkipCore(d, i);
    assert cs[n..][0] == i && cs[n..][1..] == cs[n + 1..];
  }

  /** The cores, each of them once and in ascending order. */
  lemma CoresAreAll(d: seq<Byte>, i: nat)
    ensures CoreList(d, CoresFrom(d, i))
    ensures forall c :: c in CoresFrom(d, i) <==> i <= c && IsCore(d, c)
  {
    CoresAscend(d, i);
    CoresAreFound(d, i);
  }

  lemma {:induction false} CoresAscend(d: seq<Byte>, i: nat)
    ensures CoreList(d, CoresFrom(d, i))
    ensures forall k :: 0 <= k < |CoresFrom(d, i)| ==> i <= CoresFrom(d, i)[k]
    decreases |d| - i
  {
    if i < |d| {
      CoresAscend(d, i + 1);
      if IsCore(d, i) {
        CoreInFront(d, i, CoresFrom(d, i + 1));
      }
    }
  }

  lemma CoreInFront(d: seq<Byte>, i: nat, tail: seq<nat>)
    requires IsCore(d, i) && CoreList(d, tail) && forall k :: 0 <= k < |tail| ==> i < tail[k]
    ensures CoreList(d, [i] + tail)
  {
  }

  lemma {:induction false} CoresAreFound(d: seq<Byte>, i: nat)
    ensures forall c :: c in CoresFrom(d, i) <==> i <= c && IsCore(d, c)
    decreases |d| - i
  {
    if i < |d| {
      CoresAreFound(d, i + 1);
    }
  }

  /** FindStartCodes skips three bytes past each core; no core is lost by it. */
  method FindStartCodes(data: seq<Byte>) returns (positions: seq<nat>)
    ensures positions == Starts(data, CoresFrom(data, 0))
  {
    if |data| < 3 {
      NoCoresAtEnd(data, 0);
      return [];
    }
    positions := [];
    ghost var cs := CoresFrom(data, 0);
    var i: nat := 0;
    while i < |data| - 2
      invariant i <= |data| && |positions| <= |cs|
      invariant CoresFrom(data, i) == cs[|positions|..]
      invariant positions == Starts(data, cs)[..|positions|]
    {
      if data[i] == 0 && data[i + 1] == 0 && data[i + 2] == 1 {
        ScanStep(data, cs, |positions|, i);
        if i > 0 && data[i - 1] == 0 {
          positions := positions + [i - 1];
        } else {
          positions := positions + [i];
        }
        i := i + 3;
      } else {
        i := i + 1;
      }
    }
    NoCoresAtEnd(data, i);
  }

  // ---------------------------------------------------------------- batch parsing

  /** Where the unit after core `k` ends: at the next start code or at the end of the data. */
  function EndOf(d: seq<Byte>, cs: seq<nat>, k: nat): nat {
    if k + 1 < |cs| then StartOf(d, cs[k + 1]) else |d|
  }

  /** The unit in `d[s..e]`, as a list: nothing when there are no bytes. */
  function UnitIn(d: seq<Byte>, s: nat, e: nat): seq<NALU> {
    if s < e <= |d| then [MakeNALU(d[s..e])] else []
  }

  /** The unit after core `k`. */
  function UnitAt(d: seq<Byte>, cs: seq<nat>, k: nat): seq<NALU>
    requires k < |cs|
  {
    UnitIn(d, cs[k] + 3, EndOf(d, cs, k))
  }

  /** The units after cores `k`, `k + 1`, ..., `n - 1`. */
  function Units(d: seq<Byte>, cs: seq<nat>, k: nat, n: nat): seq<NALU>
    requires k <= n <= |cs|
    decreases n - k
  {
    if k == n then [] else UnitAt(d, cs, k) + Units(d, cs, k + 1, n)
  }

  /** No unit's slice leaves the data or runs backwards. */
  lemma SpanInRange(d: seq<Byte>, cs: seq<nat>, k: nat)
    requires CoreList(d, cs) && k < |cs|
    ensures IsCore(d, cs[k]) && cs[k] + 3 <= EndOf(d, cs, k) <= |d|
    ensures PayloadStart(d, StartOf(d, cs[k])) == cs[k] + 3
  {
    if k + 1 < |cs| {
      CoreGap(d, cs[k], cs[k + 1]);
    }
    PayloadStartIsAfterCore(d, cs[k]);
  }

  function Parsed(d: seq<Byte>): seq<NALU> {
    var cs := CoresFrom(d, 0);
    Units(d, cs, 0, |cs|)
  }

  /** The first byte after the start code at `pos`, as the code tests for it. */
  function PayloadStart(d: seq<Byte>, pos: nat): nat {
    if pos + 4 <= |d| && d[pos] == 0 && d[pos + 1] == 0 && d[pos + 2] == 0 && d[pos + 3] == 1
    then pos + 4
    else pos + 3
  }

  lemma PayloadStartIsAfterCore(d: seq<Byte>, c: nat)
    requires IsCore(d, c)
    ensures PayloadStart(d, StartOf(d, c)) == c + 3
  {
  }

  /** What `acc` grows to with the units after cores `k`, `k + 1`, ..., `n - 1`. */
  function Collect(acc: seq<NALU>, d: seq<Byte>, cs: seq<nat>, k: nat, n: nat): seq<NALU>
    requires k <= n <= |cs|
    decreases n - k
  {
    if k == n then acc else Collect(acc + UnitAt(d, cs, k), d, cs, k + 1, n)
  }

  lemma {:induction false} CollectsUnits(acc: seq<NALU>, d: seq<Byte>, cs: seq<nat>, k: nat, n: nat)
    requires k <= n <= |cs|
    ensures Collect(acc, d, cs, k, n) == acc + Units(d, cs, k, n)
    decreases n - k
  {
    if k < n {
      CollectsUnits(acc + UnitAt(d, cs, k), d, cs, k + 1, n);
      AppendStep(acc, UnitAt(d, cs, k), Units(d, cs, k + 1, n));
    }
  }

  /** One turn of a loop that collects units. */
  lemma CollectStep(acc: seq<NALU>, d: seq<Byte>, cs: seq<nat>, k: nat, n: nat, s: nat, e: nat)
    requires CoreList(d, cs) && k < n <= |cs|
    requires s == PayloadStart(d, StartOf(d, cs[k])) && e == EndOf(d, cs, k)
    ensures s <= e <= |d|
    ensures s < e ==> Collect(acc, d, cs, k, n) == Collect(acc + [MakeNALU(d[s..e])], d, cs, k + 1, n)
    ensures s == e ==> Collect(acc, d, cs, k, n) == Collect(acc, d, cs, k + 1, n)
    ensures s == |d| ==> k + 1 == |cs|
  {
    SpanInRange(d, cs, k);
    AppendStep(acc, [], []);
    assert k + 1 < |cs| ==> IsCore(d, cs[k + 1]);
  }

  method Parse(data: seq<Byte>) returns (nalus: seq<NALU>)
    ensures nalus == Parsed(data)
  {
    if |data| == 0 {
      return [];
    }
    var positions := FindStartCodes(data);
    if |positions| == 0 {
      return [];
    }
    nalus := [];
    ghost var cs := CoresFrom(data, 0);
    CoresAreAll(data, 0);
    CollectsUnits([], data, cs, 0, |cs|);
    for i := 0 to |positions|
      invariant Collect(nalus, data, cs, i, |cs|) == Parsed(data)
    {
      var pos := positions[i];
      var naluStart := PayloadStart(data, pos);
      var naluEnd := if i + 1 < |positions| then positions[i + 1] else |data|;
      CollectStep(nalus, data, cs, i, |cs|, naluStart, naluEnd);
      if naluStart >= |data| {
        break;
      }
      var naluData := data[naluStart..naluEnd];
      if |naluData| == 0 {
        continue;
      }
      nalus := nalus + [MakeNALU(naluData)];
    }
  }

  // ---------------------------------------------------------------- incremental extraction

  function Suffix(d: seq<Byte>, p: nat): seq<Byte> {
    if p <= |d| then d[p..] else []
  }

  /** The units closed by a later start code, and the bytes from the last start code on. */
  function ExtractWith(d: seq<Byte>, cs: seq<nat>): (seq<NALU>, seq<Byte>) {
    if cs == [] then ([], d)
    else (Units(d, cs, 0, |cs| - 1), Suffix(d, StartOf(d, cs[|cs| - 1])))
  }

  /** What one extraction yields, and the bytes it keeps for the next read. */
  function Extract(d: seq<Byte>): (seq<NALU>, seq<Byte>) {
    ExtractWith(d, CoresFrom(d, 0))
  }

  method ExtractCompleteNALUs(data: seq<Byte>) returns (nalus: seq<NALU>, rest: seq<Byte>)
    ensures (nalus, rest) == Extract(data)
  {
    var positions := FindStartCodes(data);
    if |positions| == 0 {
      return [], data;
    }
    nalus := [];
    ghost var cs := CoresFrom(data, 0);
    ghost var last := |cs| - 1;
    CoresAreAll(data, 0);
    CollectsUnits([], data, cs, 0, last);
    for i := 0 to |positions| - 1
      invariant Collect(nalus, data, cs, i, last) == Units(data, cs, 0, last)
    {
      var pos := positions[i];
      var naluStart := PayloadStart(data, pos);
      var naluEnd := positions[i + 1];
      CollectStep(nalus, data, cs, i, last, naluStart, naluEnd);
      if naluStart >= naluEnd {
        continue;
      }
      nalus := nalus + [MakeNALU(data[naluStart..naluEnd])];
    }
    rest := data[positions[|positions| - 1]..];
  }
}
