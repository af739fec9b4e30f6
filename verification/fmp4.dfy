/**
 * Fragmented MP4 boxes (sections 4.2 and 8.8 of ISO/IEC 14496-12): the box
 * writer, the media segment of one access unit, and a box parser to read both
 * kinds of segment back.
 */
module Fmp4 {
  import opened Basics
  import opened Wire

  /** A box type: four characters, as a number. */
  type FourCC = U32

  const FTYP: FourCC := 0x66747970
  const MOOV: FourCC := 0x6D6F6F76
  const MVHD: FourCC := 0x6D766864
  const TRAK: FourCC := 0x7472616B
  const TKHD: FourCC := 0x746B6864
  const MDIA: FourCC := 0x6D646961
  const MDHD: FourCC := 0x6D646864
  const HDLR: FourCC := 0x68646C72
  const MINF: FourCC := 0x6D696E66
  const VMHD: FourCC := 0x766D6864
  const DINF: FourCC := 0x64696E66
  const DREF: FourCC := 0x64726566
  const URL: FourCC := 0x75726C20
  const STBL: FourCC := 0x7374626C
  const STSD: FourCC := 0x73747364
  const STTS: FourCC := 0x73747473
  const STSC: FourCC := 0x73747363
  const STSZ: FourCC := 0x7374737A
  const STCO: FourCC := 0x7374636F
  const AVC1: FourCC := 0x61766331
  const AVCC: FourCC := 0x61766343
  const MVEX: FourCC := 0x6D766578
  const TREX: FourCC := 0x74726578
  const MOOF: FourCC := 0x6D6F6F66
  const MFHD: FourCC := 0x6D666864
  const TRAF: FourCC := 0x74726166
  const TFHD: FourCC := 0x74666864
  const TFDT: FourCC := 0x74666474
  const TRUN: FourCC := 0x7472756E
  const MDAT: FourCC := 0x6D646174

  // ---------------------------------------------------------------- boxes

  /** Four characters, one byte each, are the type's bytes. */
  lemma Spelled(s: string, kind: FourCC)
    requires |s| == 4 && forall k :: 0 <= k < 4 ==> s[k] as int < 256
    requires s[0] as int * 16777216 + s[1] as int * 65536 + s[2] as int * 256 + s[3] as int == kind
    ensures BE32(kind) == Ascii(s)
  {
    var b := BE32(kind);
    BytesTell(kind);
    OneWayToWrite(b[0], b[1], b[2], b[3], s[0] as int, s[1] as int, s[2] as int, s[3] as int);
  }

  lemma OneWayToWrite(a: Byte, b: Byte, c: Byte, d: Byte, a': Byte, b': Byte, c': Byte, d': Byte)
    requires Join32(a, b, c, d) == Join32(a', b', c', d')
    ensures a == a' && b == b' && c == c' && d == d'
  {
  }

  /** The types of the boxes of a media segment. */
  lemma SegmentBoxesSpell()
    ensures BE32(MOOF) == Ascii("moof") && BE32(MFHD) == Ascii("mfhd")
    ensures BE32(TRAF) == Ascii("traf") && BE32(TFHD) == Ascii("tfhd")
    ensures BE32(TFDT) == Ascii("tfdt") && BE32(TRUN) == Ascii("trun")
    ensures BE32(MDAT) == Ascii("mdat")
  {
    Spelled("moof", MOOF);
    Spelled("mfhd", MFHD);
    Spelled("traf", TRAF);
    Spelled("tfhd", TFHD);
    Spelled("tfdt", TFDT);
    Spelled("trun", TRUN);
    Spelled("mdat", MDAT);
  }

  /** The types of the boxes of an init segment. */
  lemma InitBoxesSpell()
    ensures BE32(FTYP) == Ascii("ftyp") && BE32(MOOV) == Ascii("moov")
    ensures BE32(MVHD) == Ascii("mvhd") && BE32(TRAK) == Ascii("trak")
    ensures BE32(TKHD) == Ascii("tkhd") && BE32(MDIA) == Ascii("mdia")
    ensures BE32(MDHD) == Ascii("mdhd") && BE32(HDLR) == Ascii("hdlr")
    ensures BE32(MINF) == Ascii("minf") && BE32(VMHD) == Ascii("vmhd")
    ensures BE32(DINF) == Ascii("dinf") && BE32(DREF) == Ascii("dref")
  {
    Spelled("ftyp", FTYP);
    Spelled("moov", MOOV);
    Spelled("mvhd", MVHD);
    Spelled("trak", TRAK);
    Spelled("tkhd", TKHD);
    Spelled("mdia", MDIA);
    Spelled("mdhd", MDHD);
    Spelled("hdlr", HDLR);
    Spelled("minf", MINF);
    Spelled("vmhd", VMHD);
    Spelled("dinf", DINF);
    Spelled("dref", DREF);
  }

  lemma SampleBoxesSpell()
    ensures BE32(URL) == Ascii("url ") && BE32(STBL) == Ascii("stbl")
    ensures BE32(STSD) == Ascii("stsd") && BE32(STTS) == Ascii("stts")
    ensures BE32(STSC) == Ascii("stsc") && BE32(STSZ) == Ascii("stsz")
    ensures BE32(STCO) == Ascii("stco") && BE32(AVC1) == Ascii("avc1")
    ensures BE32(AVCC) == Ascii("avcC") && BE32(MVEX) == Ascii("mvex")
    ensures BE32(TREX) == Ascii("trex")
  {
    Spelled("url ", URL);
    Spelled("stbl", STBL);
    Spelled("stsd", STSD);
    Spelled("stts", STTS);
    Spelled("stsc", STSC);
    Spelled("stsz", STSZ);
    Spelled("stco", STCO);
    Spelled("avc1", AVC1);
    Spelled("avcC", AVCC);
    Spelled("mvex", MVEX);
    Spelled("trex", TREX);
  }

  function Mp4Box(kind: FourCC, payload: seq<Byte>): seq<Byte> {
    BE32(8 + |payload|) + BE32(kind) + payload
  }

  function Mp4FullBox(kind: FourCC, version: Byte, flags: nat, payload: seq<Byte>): seq<Byte> {
    BE32(12 + |payload|) + BE32(kind) + [version] + BE24(flags) + payload
  }

  /** A full box is a box whose payload starts with version and flags. */
  lemma FullBoxIsBox(kind: FourCC, version: Byte, flags: nat, payload: seq<Byte>)
    ensures Mp4FullBox(kind, version, flags, payload) == Mp4Box(kind, [version] + BE24(flags) + payload)
  {
  }

  /** A box starts with its whole length and its type, four bytes each; its payload is the rest. */
  lemma BoxTells(kind: FourCC, payload: seq<Byte>)
    requires 8 + |payload| < 0x1_0000_0000
    ensures var b := Mp4Box(kind, payload);
            && |b| == 8 + |payload| && b[8..] == payload
            && Join32(b[0], b[1], b[2], b[3]) == |b| && Join32(b[4], b[5], b[6], b[7]) == kind
  {
    var b := Mp4Box(kind, payload);
    assert b[0..4] == BE32(|b|) && b[4..8] == BE32(kind);
    JoinAt32(b, 0, |b|);
    JoinAt32(b, 4, kind);
  }

  // ---------------------------------------------------------------- box trees

  datatype Tree = Leaf(kind: FourCC, payload: seq<Byte>) | Node(kind: FourCC, header: seq<Byte>, children: Trees)

  datatype Trees = Nil | Cons(head: Tree, tail: Trees)

  /**
   * How a reader takes the data reference box: with so many bytes in front of its
   * child boxes or, if None, as a box without children. Section 8.7.2 of ISO/IEC
   * 14496-12 puts version, flags and an entry count there.
   */
  type Dref = Option<nat>

  const STANDARD: Dref := Some(8)

  /** How many bytes come before the child boxes, for the box types that have any. */
  function HeaderSize(kind: FourCC, d: Dref): Option<nat> {
    if kind == MOOV || kind == TRAK || kind == MDIA || kind == MINF || kind == DINF || kind == STBL
       || kind == MVEX || kind == MOOF || kind == TRAF then Some(0)
    else if kind == DREF then d
    else if kind == STSD then Some(8)
    else if kind == AVC1 then Some(78)
    else None
  }

  function Payload(t: Tree): seq<Byte> {
    match t
    case Leaf(_, payload) => payload
    case Node(_, header, children) => header + Bytes(children)
  }

  /** The bytes of boxes in a row. */
  function Bytes(ts: Trees): seq<Byte> {
    match ts
    case Nil => []
    case Cons(t, more) => Mp4Box(t.kind, Payload(t)) + Bytes(more)
  }

  /** Children only where the type has them, and no box too long for its size field. */
  predicate Proper(ts: Trees, d: Dref) {
    match ts
    case Nil => true
    case Cons(t, more) =>
      && 8 + |Payload(t)| < 0x1_0000_0000 && Proper(more, d)
      && (match t
          case Leaf(kind, _) => HeaderSize(kind, d) == None
          case Node(kind, header, children) => HeaderSize(kind, d) == Some(|header|) && Proper(children, d))
  }

  /** Reads boxes until the bytes are used up exactly. */
  function Parse(s: seq<Byte>, d: Dref): Option<Trees>
    decreases |s|, 0
  {
    if s == [] then Some(Nil)
    else if |s| < 8 then None
    else
      var size, kind := Join32(s[0], s[1], s[2], s[3]), Join32(s[4], s[5], s[6], s[7]);
      if size < 8 || size > |s| then None
      else
        var head := ParseBody(kind, s[8..size], d);
        var tail := Parse(s[size..], d);
        if head.None? || tail.None? then None else Some(Cons(head.value, tail.value))
  }

  function ParseBody(kind: FourCC, body: seq<Byte>, d: Dref): Option<Tree>
    decreases |body|, 1
  {
    match HeaderSize(kind, d)
    case None => Some(Leaf(kind, body))
    case Some(h) =>
      if |body| < h then None
      else
        var children := Parse(body[h..], d);
        if children.None? then None else Some(Node(kind, body[..h], children.value))
  }

  /** The sizes of all boxes, outer and inner, tile the bytes exactly, and the boxes come back as they were. */
  lemma {:induction false} ParseUndoesBytes(ts: Trees, d: Dref)
    requires Proper(ts, d)
    ensures Parse(Bytes(ts), d) == Some(ts)
    decreases ts
  {
    match ts
    case Nil =>
    case Cons(t, more) =>
      var p := Payload(t);
      BodyComesBack(t, d);
      ParseUndoesBytes(more, d);
      ParseBox(t.kind, p, Bytes(more), d);
  }

  lemma {:induction false} BodyComesBack(t: Tree, d: Dref)
    requires t.Leaf? ==> HeaderSize(t.kind, d) == None
    requires t.Node? ==> HeaderSize(t.kind, d) == Some(|t.header|) && Proper(t.children, d)
    ensures ParseBody(t.kind, Payload(t), d) == Some(t)
    decreases t, 0
  {
    if t.Node? {
      var body := Payload(t);
      assert body[|t.header|..] == Bytes(t.children) && body[..|t.header|] == t.header;
      ParseUndoesBytes(t.children, d);
    }
  }

  lemma ParseBox(kind: FourCC, p: seq<Byte>, rest: seq<Byte>, d: Dref)
    requires 8 + |p| < 0x1_0000_0000
    ensures Parse(Mp4Box(kind, p) + rest, d) ==
            var head := ParseBody(kind, p, d);
            var tail := Parse(rest, d);
            if head.None? || tail.None? then None else Some(Cons(head.value, tail.value))
  {
    var s := Mp4Box(kind, p) + rest;
    var n := 8 + |p|;
    assert s[0..4] == BE32(n) && s[4..8] == BE32(kind);
    JoinAt32(s, 0, n);
    JoinAt32(s, 4, kind);
    assert s[8..n] == p && s[n..] == rest;
    ParseOpened(s, n, kind, d);
  }

  lemma ParseOpened(s: seq<Byte>, n: nat, kind: FourCC, d: Dref)
    requires 8 <= n <= |s| && Join32(s[0], s[1], s[2], s[3]) == n && Join32(s[4], s[5], s[6], s[7]) == kind
    ensures Parse(s, d) ==
            var head := ParseBody(kind, s[8..n], d);
            var tail := Parse(s[n..], d);
            if head.None? || tail.None? then None else Some(Cons(head.value, tail.value))
  {
  }

  // ---------------------------------------------------------------- putting boxes together

  function Full(version: Byte, flags: nat, fields: seq<Byte>): seq<Byte> {
    [version] + BE24(flags) + fields
  }

  lemma OneBox(t: Tree, more: Trees)
    ensures Bytes(Cons(t, more)) == Mp4Box(t.kind, Payload(t)) + Bytes(more)
  {
  }

  /** A box in front of proper ones. */
  lemma ProperCons(t: Tree, more: Trees, d: Dref)
    requires Proper(more, d) && 8 + |Payload(t)| < 0x1_0000_0000
    requires t.Leaf? ==> HeaderSize(t.kind, d) == None
    requires t.Node? ==> HeaderSize(t.kind, d) == Some(|t.header|) && Proper(t.children, d)
    ensures Proper(Cons(t, more), d) && |Bytes(Cons(t, more))| == 8 + |Payload(t)| + |Bytes(more)|
  {
  }

  function Box(t: Tree): seq<Byte> {
    Mp4Box(t.kind, Payload(t))
  }

  lemma FullLeaf(kind: FourCC, version: Byte, flags: nat, fields: seq<Byte>)
    ensures Mp4FullBox(kind, version, flags, fields) == Box(Leaf(kind, Full(version, flags, fields)))
  {
    FullBoxIsBox(kind, version, flags, fields);
  }

  lemma OneChild(a: Tree)
    ensures Bytes(Cons(a, Nil)) == Box(a)
  {
    assert Bytes(Cons(a, Nil)) == Box(a) + Bytes(Nil) && Bytes(Nil) == [];
  }

  lemma TwoChildren(a: Tree, b: Tree)
    ensures Bytes(Cons(a, Cons(b, Nil))) == Box(a) + Box(b)
  {
    OneChild(b);
    OneBox(a, Cons(b, Nil));
  }

  lemma ThreeChildren(a: Tree, b: Tree, c: Tree)
    ensures Bytes(Cons(a, Cons(b, Cons(c, Nil)))) == Box(a) + Box(b) + Box(c)
  {
    TwoChildren(b, c);
    OneBox(a, Cons(b, Cons(c, Nil)));
    assert Box(a) + (Box(b) + Box(c)) == Box(a) + Box(b) + Box(c);
  }

  // ---------------------------------------------------------------- samples

  predicate IsDelimiter(nalu: seq<Byte>) {
    |nalu| > 0 && nalu[0] % 32 == 9
  }

  /** The units of an access unit that go into the sample: all but the delimiters. */
  function Kept(nalus: seq<seq<Byte>>): seq<seq<Byte>> {
    if nalus == [] then []
    else
      var n := |nalus| - 1;
      if IsDelimiter(nalus[n]) then Kept(nalus[..n]) else Kept(nalus[..n]) + [nalus[n]]
  }

  /** All units are kept but those of type 9, the access unit delimiters. */
  lemma KeptExactly(nalus: seq<seq<Byte>>, u: seq<Byte>)
    ensures u in Kept(nalus) <==> u in nalus && !(u != [] && u[0] % 32 == 9)
  {
    KeptAppend([], nalus);
    assert [] + nalus == nalus && [] + Kept(nalus) == Kept(nalus);
  }

  /** Keeping works unit by unit and in order. */
  lemma {:induction false} KeptAppend(a: seq<seq<Byte>>, b: seq<seq<Byte>>)
    ensures Kept(a + b) == Kept(a) + Kept(b)
    ensures forall u :: u in Kept(b) <==> u in b && !IsDelimiter(u)
    decreases |b|
  {
    if b == [] {
      assert a + b == a;
    } else {
      var n := |b| - 1;
      KeptAppend(a, b[..n]);
      assert (a + b)[..|a + b| - 1] == a + b[..n];
      assert b == b[..n] + [b[n]];
    }
  }

  /** Units with their 32-bit lengths in front. */
  function Sample(units: seq<seq<Byte>>): seq<Byte> {
    if units == [] then []
    else
      var n := |units| - 1;
      Sample(units[..n]) + BE32(|units[n]|) + units[n]
  }

  /** Cuts a sample into units by the lengths found in it. */
  function Split(s: seq<Byte>): Option<seq<seq<Byte>>>
    decreases |s|
  {
    if s == [] then Some([])
    else if |s| < 4 then None
    else
      var n := Join32(s[0], s[1], s[2], s[3]);
      if 4 + n > |s| then None
      else
        var more := Split(s[4 + n..]);
        if more.None? then None else Some([s[4..4 + n]] + more.value)
  }

  function Prepend(us: seq<seq<Byte>>, more: Option<seq<seq<Byte>>>): Option<seq<seq<Byte>>> {
    if more.None? then None else Some(us + more.value)
  }

  lemma PrependOneMore(us: seq<seq<Byte>>, u: seq<Byte>, more: Option<seq<seq<Byte>>>)
    ensures Prepend(us, Prepend([u], more)) == Prepend(us + [u], more)
    ensures Prepend([], more) == more
  {
    if more.Some? {
      assert us + ([u] + more.value) == us + [u] + more.value;
      assert [] + more.value == more.value;
    }
  }

  lemma SplitFirst(u: seq<Byte>, rest: seq<Byte>)
    requires |u| < 0x1_0000_0000
    ensures Split(BE32(|u|) + u + rest) == Prepend([u], Split(rest))
  {
    var n := |u|;
    var s := BE32(n) + u + rest;
    assert s[0..4] == BE32(n);
    JoinAt32(s, 0, n);
    assert s[4..4 + n] == u && s[4 + n..] == rest;
  }

  /** A sample is cut into exactly the units it was made of, whatever follows. */
  lemma {:induction false} SplitUndoesSample(units: seq<seq<Byte>>, rest: seq<Byte>)
    requires forall u :: u in units ==> |u| < 0x1_0000_0000
    ensures Split(Sample(units) + rest) == Prepend(units, Split(rest))
    decreases |units|
  {
    if units == [] {
      PrependOneMore([], [], Split(rest));
      assert Sample(units) + rest == rest;
    } else {
      var n := |units| - 1;
      var u := units[n];
      var rest' := BE32(|u|) + u + rest;
      SplitUndoesSample(units[..n], rest');
      SplitFirst(u, rest);
      PrependOneMore(units[..n], u, Split(rest));
      assert units == units[..n] + [u];
      SampleSnoc(units, n, rest);
    }
  }

  lemma SampleSnoc(units: seq<seq<Byte>>, n: nat, rest: seq<Byte>)
    requires |units| == n + 1
    ensures Sample(units) + rest == Sample(units[..n]) + (BE32(|units[n]|) + units[n] + rest)
  {
    var a, b, c := Sample(units[..n]), BE32(|units[n]|), units[n];
    assert a + b + c + rest == a + (b + c + rest);
  }

  // ---------------------------------------------------------------- media segments

  datatype Info = Info(sequence: U32, timestamp: nat, duration: U32, isKey: bool)

  function BE64(n: nat): seq<Byte> {
    BE32(n / 0x1_0000_0000) + BE32(n % 0x1_0000_0000)
  }

  /** Eight bytes of moof header, 16 of mfhd, 76 of traf, and eight of mdat header. */
  const DATA_OFFSET := 100 + 8

  function TrunFields(i: Info, size: nat): seq<Byte> {
    BE32(1) + BE32(DATA_OFFSET) + BE32(i.duration) + BE32(size) + BE32(if i.isKey then 0x02000000 else 0x01010000)
  }

  function MoofOf(i: Info, size: nat): seq<Byte> {
    var mfhd := Mp4FullBox(MFHD, 0, 0, BE32(i.sequence));
    var tfhd := Mp4FullBox(TFHD, 0, 0x020000, BE32(1));
    var tfdt := Mp4FullBox(TFDT, 1, 0, BE64(i.timestamp));
    var trun := Mp4FullBox(TRUN, 0, 0x000701, TrunFields(i, size));
    Mp4Box(MOOF, mfhd + Mp4Box(TRAF, tfhd + tfdt + trun))
  }

  method BuildMediaSegment(nalus: seq<seq<Byte>>, i: Info) returns (seg: seq<Byte>)
    ensures var data := Sample(Kept(nalus));
            seg == MoofOf(i, |data|) + Mp4Box(MDAT, data)
  {
    var mdat: seq<Byte> := [];
    for k := 0 to |nalus|
      invariant mdat == Sample(Kept(nalus[..k]))
    {
      assert nalus[..k + 1][..k] == nalus[..k];
      if |nalus[k]| > 0 && nalus[k][0] % 32 == 9 {
        continue;
      }
      KeptSnoc(nalus[..k], nalus[k]);
      mdat := mdat + BE32(|nalus[k]|);
      mdat := mdat + nalus[k];
    }
    assert nalus[..|nalus|] == nalus;
    seg := MoofOf(i, |mdat|) + Mp4Box(MDAT, mdat);
  }

  lemma KeptSnoc(nalus: seq<seq<Byte>>, u: seq<Byte>)
    requires !IsDelimiter(u)
    ensures Sample(Kept(nalus + [u])) == Sample(Kept(nalus)) + BE32(|u|) + u
  {
    assert (nalus + [u])[..|nalus|] == nalus;
    assert (Kept(nalus) + [u])[..|Kept(nalus)|] == Kept(nalus);
  }

  lemma TrafBytes(i: Info, size: nat)
    ensures var tfhd := Leaf(TFHD, Full(0, 0x020000, BE32(1)));
            var tfdt := Leaf(TFDT, Full(1, 0, BE64(i.timestamp)));
            var trun := Leaf(TRUN, Full(0, 0x000701, TrunFields(i, size)));
            var inner := Bytes(Cons(tfhd, Cons(tfdt, Cons(trun, Nil))));
            && inner == Mp4FullBox(TFHD, 0, 0x020000, BE32(1)) + Mp4FullBox(TFDT, 1, 0, BE64(i.timestamp))
                        + Mp4FullBox(TRUN, 0, 0x000701, TrunFields(i, size))
            && |inner| == 68
  {
    FullLeaf(TFHD, 0, 0x020000, BE32(1));
    FullLeaf(TFDT, 1, 0, BE64(i.timestamp));
    FullLeaf(TRUN, 0, 0x000701, TrunFields(i, size));
    ThreeChildren(Leaf(TFHD, Full(0, 0x020000, BE32(1))), Leaf(TFDT, Full(1, 0, BE64(i.timestamp))),
                  Leaf(TRUN, Full(0, 0x000701, TrunFields(i, size))));
  }

  function TrafTree(i: Info, size: nat): Tree {
    Node(TRAF, [], Cons(Leaf(TFHD, Full(0, 0x020000, BE32(1))),
                   Cons(Leaf(TFDT, Full(1, 0, BE64(i.timestamp))),
                   Cons(Leaf(TRUN, Full(0, 0x000701, TrunFields(i, size))), Nil))))
  }

  function MoofTree(i: Info, size: nat): Tree {
    Node(MOOF, [], Cons(Leaf(MFHD, Full(0, 0, BE32(i.sequence))), Cons(TrafTree(i, size), Nil)))
  }

  /** The movie fragment box is 100 bytes long, so the offset constant points just behind the mdat header. */
  lemma MoofBytes(i: Info, size: nat)
    ensures MoofOf(i, size) == Mp4Box(MOOF, Payload(MoofTree(i, size))) && |MoofOf(i, size)| == 100
  {
    TrafBytes(i, size);
    FullBoxIsBox(MFHD, 0, 0, BE32(i.sequence));
    var traf := TrafTree(i, size);
    assert Payload(traf) == Bytes(traf.children);
    assert Bytes(Cons(traf, Nil)) == Mp4Box(TRAF, Payload(traf)) + Bytes(Nil) == Mp4Box(TRAF, Payload(traf));
    OneBox(Leaf(MFHD, Full(0, 0, BE32(i.sequence))), Cons(traf, Nil));
    var moof := MoofTree(i, size);
    assert Payload(moof) == Bytes(moof.children);
  }

  lemma MoofProper(i: Info, size: nat, d: Dref)
    ensures Proper(MoofTree(i, size).children, d) && |Payload(MoofTree(i, size))| == 92
  {
    var traf, mfhd := TrafTree(i, size), Leaf(MFHD, Full(0, 0, BE32(i.sequence)));
    TrafProper(i, size, d);
    assert |mfhd.payload| == 8;
    ProperCons(traf, Nil, d);
    ProperCons(mfhd, Cons(traf, Nil), d);
    assert Payload(MoofTree(i, size)) == [] + Bytes(Cons(mfhd, Cons(traf, Nil)));
  }

  lemma TrafProper(i: Info, size: nat, d: Dref)
    ensures Proper(TrafTree(i, size).children, d) && |Payload(TrafTree(i, size))| == 68
  {
    var tfhd, tfdt := Leaf(TFHD, Full(0, 0x020000, BE32(1))), Leaf(TFDT, Full(1, 0, BE64(i.timestamp)));
    var trun := Leaf(TRUN, Full(0, 0x000701, TrunFields(i, size)));
    assert |tfhd.payload| == 8 && |tfdt.payload| == 12 && |trun.payload| == 24;
    ProperCons(trun, Nil, d);
    ProperCons(tfdt, Cons(trun, Nil), d);
    ProperCons(tfhd, Cons(tfdt, Cons(trun, Nil)), d);
    assert Payload(TrafTree(i, size)) == [] + Bytes(TrafTree(i, size).children);
  }

  /** For every sample the segment is read back as exactly the boxes it was built from. */
  lemma SegmentParses(i: Info, data: seq<Byte>, d: Dref)
    requires |data| + 8 < 0x1_0000_0000
    ensures Parse(MoofOf(i, |data|) + Mp4Box(MDAT, data), d)
         == Some(Cons(MoofTree(i, |data|), Cons(Leaf(MDAT, data), Nil)))
  {
    var moof, mdat := MoofTree(i, |data|), Leaf(MDAT, data);
    MoofBytes(i, |data|);
    MoofProper(i, |data|, d);
    TwoChildren(moof, mdat);
    ProperCons(mdat, Nil, d);
    ProperCons(moof, Cons(mdat, Nil), d);
    ParseUndoesBytes(Cons(moof, Cons(mdat, Nil)), d);
  }

  /** The sample is all that lies behind the offset given in the trun box. */
  lemma SampleStart(i: Info, data: seq<Byte>)
    ensures var seg := MoofOf(i, |data|) + Mp4Box(MDAT, data);
            |seg| == DATA_OFFSET + |data| && seg[DATA_OFFSET..] == data
  {
    MoofBytes(i, |data|);
    var moof := MoofOf(i, |data|);
    assert (moof + (BE32(8 + |data|) + BE32(MDAT) + data))[DATA_OFFSET..] == data;
  }

  /** The sample is cut by its lengths into the units it was made of. */
  lemma SplitWhole(units: seq<seq<Byte>>)
    requires |Sample(units)| < 0x1_0000_0000
    ensures Split(Sample(units)) == Some(units)
  {
    SampleBounds(units);
    SplitUndoesSample(units, []);
    assert Sample(units) + [] == Sample(units) && units + [] == units;
  }

  lemma {:induction false} SampleBounds(units: seq<seq<Byte>>)
    ensures forall u :: u in units ==> |u| <= |Sample(units)|
  {
    if units != [] {
      var n := |units| - 1;
      SampleBounds(units[..n]);
      assert units == units[..n] + [units[n]];
    }
  }

  /** What a player reads from the trun box: offset, duration and size of the sample, whether it is a sync sample. */
  lemma TrunTells(i: Info, size: U32)
    ensures var p := Full(0, 0x000701, TrunFields(i, size));
            && |p| == 24 && Join32(p[4], p[5], p[6], p[7]) == 1
            && Join32(p[8], p[9], p[10], p[11]) == DATA_OFFSET
            && Join32(p[12], p[13], p[14], p[15]) == i.duration
            && Join32(p[16], p[17], p[18], p[19]) == size
            && Join32(p[20], p[21], p[22], p[23]) == if i.isKey then 0x02000000 else 0x01010000
  {
    var p := Full(0, 0x000701, TrunFields(i, size));
    TrunLayout(i, size);
    JoinAt32(p, 4, 1);
    JoinAt32(p, 8, DATA_OFFSET);
    JoinAt32(p, 12, i.duration);
    JoinAt32(p, 16, size);
    JoinAt32(p, 20, if i.isKey then 0x02000000 else 0x01010000);
  }

  lemma TrunLayout(i: Info, size: U32)
    ensures var p := Full(0, 0x000701, TrunFields(i, size));
            && |p| == 24 && p[4..8] == BE32(1) && p[8..12] == BE32(DATA_OFFSET) && p[12..16] == BE32(i.duration)
            && p[16..20] == BE32(size) && p[20..24] == BE32(if i.isKey then 0x02000000 else 0x01010000)
  {
  }

  /** Sequence number and decode time of the fragment. */
  lemma FragmentTells(i: Info)
    requires i.timestamp < 0x1_0000_0000 * 0x1_0000_0000
    ensures var m := Full(0, 0, BE32(i.sequence));
            |m| == 8 && Join32(m[4], m[5], m[6], m[7]) == i.sequence
    ensures var t := Full(1, 0, BE64(i.timestamp));
            && |t| == 12
            && Join32(t[4], t[5], t[6], t[7]) * 0x1_0000_0000 + Join32(t[8], t[9], t[10], t[11]) == i.timestamp
  {
    var m, t := Full(0, 0, BE32(i.sequence)), Full(1, 0, BE64(i.timestamp));
    assert m[4..8] == BE32(i.sequence);
    JoinAt32(m, 4, i.sequence);
    assert t[4..8] == BE32(i.timestamp / 0x1_0000_0000) && t[8..12] == BE32(i.timestamp % 0x1_0000_0000);
    JoinAt32(t, 4, i.timestamp / 0x1_0000_0000);
    JoinAt32(t, 8, i.timestamp % 0x1_0000_0000);
  }
}
