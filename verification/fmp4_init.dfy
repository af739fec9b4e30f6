/**
 * The init segment of a fragmented MP4 stream: how it is built box by box, how it
 * is read back, and where the parameter sets are found in it.
 */
module Fmp4Init {
  import opened Basics
  import opened Fmp4
  import opened Wire

  function Zeros(n: nat): (z: seq<Byte>)
    ensures |z| == n
  {
    seq(n, _ => 0)
  }

  /** The decoder configuration: profile bytes of the first parameter set, then both sets with their lengths. */
  function AvcC(sps: seq<Byte>, pps: seq<Byte>): seq<Byte>
    requires |sps| >= 4
  {
    [1, sps[1], sps[2], sps[3], 0xFF, 0xE1] + BE16(|sps|) + sps + [1] + BE16(|pps|) + pps
  }

  /** The two parameter sets found in a decoder configuration. */
  function ReadAvcC(p: seq<Byte>): Option<(seq<Byte>, seq<Byte>)> {
    if |p| < 8 then None
    else
      var n := Join16(p[6], p[7]);
      if |p| < 11 + n then None
      else
        var m := Join16(p[9 + n], p[10 + n]);
        if |p| < 11 + n + m then None else Some((p[8..8 + n], p[11 + n..11 + n + m]))
  }

  /** Both parameter sets are recovered exactly when their lengths fit 16 bits. */
  lemma ParameterSetsComeBack(sps: seq<Byte>, pps: seq<Byte>)
    requires |sps| >= 4
    ensures ReadAvcC(AvcC(sps, pps)) == Some((sps, pps)) <==> |sps| < 65536 && |pps| < 65536
  {
    var p, n := AvcC(sps, pps), |sps|;
    assert p[6..8] == BE16(n);
    JoinAt16(p, 6, n);
    if n < 65536 {
      AvcCLayout(sps, pps);
      JoinAt16(p, 9 + n, |pps|);
      ReadLaidOut(p, sps, pps);
    }
  }

  /** What precedes the parameter sets: version 1, profile and level, four-byte lengths, and one set of each kind. */
  lemma ConfigTells(sps: seq<Byte>, pps: seq<Byte>)
    requires |sps| >= 4
    ensures var p := AvcC(sps, pps);
            && |p| == 11 + |sps| + |pps| && p[0] == 1 && p[1..4] == sps[1..4]
            && p[4] % 4 + 1 == 4 && p[5] % 32 == 1 && p[8 + |sps|] == 1
  {
    var p, head := AvcC(sps, pps), [1, sps[1], sps[2], sps[3], 0xFF, 0xE1];
    assert p[..6] == head && p[1..4] == head[1..4] == sps[1..4];
    assert p[4] == head[4] && p[5] == head[5];
    assert p[8 + |sps|..9 + |sps|] == [1];
  }

  lemma AvcCLayout(sps: seq<Byte>, pps: seq<Byte>)
    requires |sps| >= 4
    ensures var p, n := AvcC(sps, pps), |sps|;
            && |p| == 11 + n + |pps|
            && p[8..8 + n] == sps && p[9 + n..11 + n] == BE16(|pps|) && p[11 + n..] == pps
  {
  }

  lemma ReadLaidOut(p: seq<Byte>, sps: seq<Byte>, pps: seq<Byte>)
    requires var n := |sps|;
             && |p| == 11 + n + |pps| && Join16(p[6], p[7]) == n && Join16(p[9 + n], p[10 + n]) == |pps| % 65536
             && p[8..8 + n] == sps && p[11 + n..] == pps
    ensures ReadAvcC(p) == Some((sps, pps)) <==> |pps| < 65536
  {
    var n, m := |sps|, |pps| % 65536;
    assert p[11 + n..][..m] == p[11 + n..11 + n + m];
    if |pps| < 65536 {
      assert pps[..m] == pps;
    }
  }

  function Avc1Header(width: U32, height: U32): seq<Byte> {
    Zeros(6) + BE16(1) + Zeros(16) + BE16(width) + BE16(height) + BE32(0x00480000) + BE32(0x00480000) + BE32(0)
    + BE16(1) + Zeros(32) + BE16(0x0018) + [0xFF, 0xFF]
  }

  function Full0(fields: seq<Byte>): seq<Byte> {
    Full(0, 0, fields)
  }

  function StsdTree(header: seq<Byte>, entryHeader: seq<Byte>, config: seq<Byte>): Tree {
    Node(STSD, header, Cons(Node(AVC1, entryHeader, Cons(Leaf(AVCC, config), Nil)), Nil))
  }

  /** The sample table: the one sample entry with the decoder configuration, and empty tables. */
  function StblTree(sps: seq<Byte>, pps: seq<Byte>, width: U32, height: U32): Tree
    requires |sps| >= 4
  {
    Node(STBL, [],
      Cons(StsdTree(Full0(BE32(1)), Avc1Header(width, height), AvcC(sps, pps)),
      Cons(Leaf(STTS, Full0(Zeros(4))),
      Cons(Leaf(STSC, Full0(Zeros(4))),
      Cons(Leaf(STSZ, Full0(Zeros(8))),
      Cons(Leaf(STCO, Full0(Zeros(4))), Nil))))))
  }

  lemma Avc1HeaderSize(width: U32, height: U32)
    ensures |Avc1Header(width, height)| == 78
  {
  }

  lemma EmptyTables(stts: seq<Byte>, stsc: seq<Byte>, stsz: seq<Byte>, stco: seq<Byte>, d: Dref)
    requires |stts| == |stsc| == |stco| == 8 && |stsz| == 12
    ensures var two := Cons(Leaf(STSZ, stsz), Cons(Leaf(STCO, stco), Nil));
            var ts := Cons(Leaf(STTS, stts), Cons(Leaf(STSC, stsc), two));
            Proper(ts, d) && |Bytes(ts)| == 68
  {
    var one := Cons(Leaf(STCO, stco), Nil);
    var two := Cons(Leaf(STSZ, stsz), one);
    ProperCons(Leaf(STCO, stco), Nil, d);
    ProperCons(Leaf(STSZ, stsz), one, d);
    ProperCons(Leaf(STSC, stsc), two, d);
    ProperCons(Leaf(STTS, stts), Cons(Leaf(STSC, stsc), two), d);
  }

  lemma SampleEntry(header: seq<Byte>, entryHeader: seq<Byte>, config: seq<Byte>, d: Dref)
    requires |header| == 8 && |entryHeader| == 78 && |config| < 0x10_0000
    ensures var t := StsdTree(header, entryHeader, config);
            Proper(Cons(t, Nil), d) && Proper(t.children, d) && |Payload(t)| == 102 + |config|
  {
    var avcc := Cons(Leaf(AVCC, config), Nil);
    ProperCons(Leaf(AVCC, config), Nil, d);
    var avc1 := Node(AVC1, entryHeader, avcc);
    assert |Payload(avc1)| == 86 + |config|;
    ProperCons(avc1, Nil, d);
    var stsd := Node(STSD, header, Cons(avc1, Nil));
    assert |Payload(stsd)| == 102 + |config|;
    ProperCons(stsd, Nil, d);
  }

  lemma StblProper(sps: seq<Byte>, pps: seq<Byte>, width: U32, height: U32, d: Dref)
    requires 4 <= |sps| < 65536 && |pps| < 65536
    ensures var t := StblTree(sps, pps, width, height);
            Proper(t.children, d) && |Payload(t)| == 189 + |sps| + |pps|
  {
    var t := StblTree(sps, pps, width, height);
    Avc1HeaderSize(width, height);
    AvcCLayout(sps, pps);
    var four, eight := Full0(Zeros(4)), Full0(Zeros(8));
    assert |four| == 8 && |eight| == 12;
    EmptyTables(four, four, eight, four, d);
    SampleEntry(Full0(BE32(1)), Avc1Header(width, height), AvcC(sps, pps), d);
    ProperCons(t.children.head, t.children.tail, d);
    assert Payload(t) == [] + Bytes(t.children);
  }

  lemma FiveChildren(a: Tree, b: Tree, c: Tree, d: Tree, e: Tree)
    ensures Bytes(Cons(a, Cons(b, Cons(c, Cons(d, Cons(e, Nil)))))) == Box(a) + Box(b) + Box(c) + Box(d) + Box(e)
  {
    var three := Cons(c, Cons(d, Cons(e, Nil)));
    ThreeChildren(c, d, e);
    OneBox(b, three);
    OneBox(a, Cons(b, three));
    Five(Box(a), Box(b), Box(c), Box(d), Box(e));
  }

  lemma Five(a: seq<Byte>, b: seq<Byte>, c: seq<Byte>, d: seq<Byte>, e: seq<Byte>)
    ensures a + (b + (c + d + e)) == a + b + c + d + e
  {
  }

  method SampleTableBox(sps: seq<Byte>, pps: seq<Byte>, width: U32, height: U32) returns (stblBox: seq<Byte>)
    requires |sps| >= 4
    ensures stblBox == Box(StblTree(sps, pps, width, height))
  {
    var avccBox := Mp4Box(AVCC, AvcC(sps, pps));
    var avc1Box := Mp4Box(AVC1, Avc1Header(width, height) + avccBox);
    var stsdBox := Mp4FullBox(STSD, 0, 0, BE32(1) + avc1Box);
    var sttsBox := Mp4FullBox(STTS, 0, 0, Zeros(4));
    var stscBox := Mp4FullBox(STSC, 0, 0, Zeros(4));
    var stszBox := Mp4FullBox(STSZ, 0, 0, Zeros(8));
    var stcoBox := Mp4FullBox(STCO, 0, 0, Zeros(4));
    stblBox := Mp4Box(STBL, stsdBox + sttsBox + stscBox + stszBox + stcoBox);
    StsdBox(AvcC(sps, pps), Avc1Header(width, height));
    FullLeaf(STTS, 0, 0, Zeros(4));
    FullLeaf(STSC, 0, 0, Zeros(4));
    FullLeaf(STSZ, 0, 0, Zeros(8));
    FullLeaf(STCO, 0, 0, Zeros(4));
    ghost var t := StblTree(sps, pps, width, height);
    FiveChildren(t.children.head, Leaf(STTS, Full0(Zeros(4))), Leaf(STSC, Full0(Zeros(4))),
                 Leaf(STSZ, Full0(Zeros(8))), Leaf(STCO, Full0(Zeros(4))));
    assert Payload(t) == Bytes(t.children);
  }

  lemma StsdBox(config: seq<Byte>, header: seq<Byte>)
    ensures Mp4FullBox(STSD, 0, 0, BE32(1) + Mp4Box(AVC1, header + Mp4Box(AVCC, config)))
         == Box(Node(STSD, Full0(BE32(1)), Cons(Node(AVC1, header, Cons(Leaf(AVCC, config), Nil)), Nil)))
  {
    var avcc := Leaf(AVCC, config);
    var avc1 := Node(AVC1, header, Cons(avcc, Nil));
    OneChild(avcc);
    OneChild(avc1);
    var inner := Box(avc1);
    FullBoxIsBox(STSD, 0, 0, BE32(1) + inner);
    assert [0] + BE24(0) + (BE32(1) + inner) == Full0(BE32(1)) + inner;
  }

  // The fields of the other full boxes.

  const MATRIX: seq<Byte> := [0, 1, 0, 0, 0, 0, 0, 0, 0, 0, 0, 0, 0, 0, 0, 0,
                              0, 1, 0, 0, 0, 0, 0, 0, 0, 0, 0, 0, 0, 0, 0, 0,
                              0x40, 0, 0, 0]

  function MdhdFields(): seq<Byte> {
    BE32(0) + BE32(0) + BE32(90000) + BE32(0) + BE16(0x55C4) + BE16(0)
  }

  /** Handler "vide", name "VideoHandler". */
  function HdlrFields(): seq<Byte> {
    BE32(0) + [0x76, 0x69, 0x64, 0x65] + Zeros(12)
    + [0x56, 0x69, 0x64, 0x65, 0x6F, 0x48, 0x61, 0x6E, 0x64, 0x6C, 0x65, 0x72, 0]
  }

  function TkhdFields(width: U32, height: U32): seq<Byte> {
    BE32(0) + BE32(0) + BE32(1) + BE32(0) + BE32(0) + Zeros(8) + BE16(0) + BE16(0) + BE16(0) + [0, 0] + MATRIX
    + BE32(width * 65536) + BE32(height * 65536)
  }

  function MvhdFields(): seq<Byte> {
    BE32(0) + BE32(0) + BE32(90000) + BE32(0) + BE32(0x00010000) + BE16(0x0100) + Zeros(10)
    + MATRIX + Zeros(24) + BE32(2)
  }

  function TrexFields(): seq<Byte> {
    BE32(1) + BE32(1) + BE32(0) + BE32(0) + BE32(0x02000000)
  }

  /** Major brand "iso5", version 512, compatible with "iso5", "avc1" and "mp42". */
  function FtypFields(): seq<Byte> {
    [0x69, 0x73, 0x6F, 0x35] + BE32(512)
    + [0x69, 0x73, 0x6F, 0x35, 0x61, 0x76, 0x63, 0x31, 0x6D, 0x70, 0x34, 0x32]
  }

  lemma FieldSizes(width: U32, height: U32)
    ensures |MdhdFields()| == 20 && |HdlrFields()| == 33 && |TkhdFields(width, height)| == 80
    ensures |MvhdFields()| == 96 && |TrexFields()| == 20 && |FtypFields()| == 20
  {
  }

  /** The sample entry gives the size of the picture, one frame per sample and 24 bits of colour. */
  lemma SampleEntryTells(width: U32, height: U32)
    requires width < 65536 && height < 65536
    ensures var p := Avc1Header(width, height);
            && |p| == 78 && Join16(p[6], p[7]) == 1 && Join16(p[24], p[25]) == width
            && Join16(p[26], p[27]) == height && Join16(p[40], p[41]) == 1 && Join16(p[74], p[75]) == 24
  {
    var p := Avc1Header(width, height);
    SampleEntryLayout(width, height);
    SmallAt16(p, 6, 1);
    SmallAt16(p, 24, width);
    SmallAt16(p, 26, height);
    SmallAt16(p, 40, 1);
    SmallAt16(p, 74, 24);
  }

  lemma SampleEntryLayout(width: U32, height: U32)
    ensures var p := Avc1Header(width, height);
            && |p| == 78 && p[6..8] == BE16(1) && p[24..26] == BE16(width) && p[26..28] == BE16(height)
            && p[40..42] == BE16(1) && p[74..76] == BE16(24)
  {
  }

  /** The track header names track 1 and the size of the picture, as numbers with 16 bits of fraction. */
  lemma TrackTells(width: U32, height: U32)
    requires width < 65536 && height < 65536
    ensures var p := TkhdFields(width, height);
            && |p| == 80 && Join32(p[8], p[9], p[10], p[11]) == 1
            && Join32(p[72], p[73], p[74], p[75]) == width * 65536
            && Join32(p[76], p[77], p[78], p[79]) == height * 65536
  {
    var p := TkhdFields(width, height);
    TrackLayout(width, height);
    JoinAt32(p, 8, 1);
    JoinAt32(p, 72, width * 65536);
    JoinAt32(p, 76, height * 65536);
  }

  lemma TrackLayout(width: U32, height: U32)
    ensures var p := TkhdFields(width, height);
            && |p| == 80 && p[8..12] == BE32(1)
            && p[72..76] == BE32(width * 65536) && p[76..80] == BE32(height * 65536)
  {
  }

  /** Media run at 90 000 ticks a second, are video, and all samples belong to track 1. */
  lemma MediaTells()
    ensures var p := MdhdFields(); |p| == 20 && Join32(p[8], p[9], p[10], p[11]) == 90000
    ensures HdlrFields()[4..8] == Ascii("vide")
    ensures var p := TrexFields(); |p| == 20 && Join32(p[0], p[1], p[2], p[3]) == 1
  {
    MediaLayout(MdhdFields(), TrexFields());
    JoinAt32(MdhdFields(), 8, 90000);
    JoinAt32(TrexFields(), 0, 1);
  }

  lemma MediaLayout(mdhd: seq<Byte>, trex: seq<Byte>)
    requires mdhd == MdhdFields() && trex == TrexFields()
    ensures |mdhd| == 20 && mdhd[8..12] == BE32(90000) && |trex| == 20 && trex[0..4] == BE32(1)
    ensures |HdlrFields()| == 33 && HdlrFields()[4..8] == Ascii("vide")
  {
    assert Ascii("vide") == [0x76, 0x69, 0x64, 0x65];
  }

  /** The data reference box as it is written: an entry count and one entry, but no version and flags. */
  function DrefTree(): Tree {
    Node(DREF, BE32(1), Cons(Leaf(URL, Full(0, 1, [])), Nil))
  }

  /** The same box, not looked into. */
  function DrefLeaf(): Tree {
    Leaf(DREF, Payload(DrefTree()))
  }

  function DinfTree(dref: Tree): Tree {
    Node(DINF, [], Cons(dref, Nil))
  }

  /** Media information around a sample table. */
  function MinfTree(dref: Tree, stbl: Tree): Tree {
    Node(MINF, [], Cons(Leaf(VMHD, Full(0, 1, Zeros(8))), Cons(DinfTree(dref), Cons(stbl, Nil))))
  }

  function MdiaTree(minf: Tree): Tree {
    Node(MDIA, [], Cons(Leaf(MDHD, Full0(MdhdFields())), Cons(Leaf(HDLR, Full0(HdlrFields())), Cons(minf, Nil))))
  }

  function TrakTree(mdia: Tree, width: U32, height: U32): Tree {
    Node(TRAK, [], Cons(Leaf(TKHD, Full(0, 7, TkhdFields(width, height))), Cons(mdia, Nil)))
  }

  function MoovTree(trak: Tree): Tree {
    Node(MOOV, [],
      Cons(Leaf(MVHD, Full0(MvhdFields())),
      Cons(trak,
      Cons(Node(MVEX, [], Cons(Leaf(TREX, Full0(TrexFields())), Nil)), Nil))))
  }

  function InitTrees(dref: Tree, sps: seq<Byte>, pps: seq<Byte>, width: U32, height: U32): Trees
    requires |sps| >= 4
  {
    var minf := MinfTree(dref, StblTree(sps, pps, width, height));
    Cons(Leaf(FTYP, FtypFields()), Cons(MoovTree(TrakTree(MdiaTree(minf), width, height)), Nil))
  }

  method DataInfoBox() returns (dinfBox: seq<Byte>)
    ensures dinfBox == Box(DinfTree(DrefTree()))
  {
    var drefEntry := Mp4FullBox(URL, 0, 1, []);
    dinfBox := Mp4Box(DINF, Mp4Box(DREF, BE32(1) + drefEntry));
    FullBoxIsBox(URL, 0, 1, []);
    DinfBytes(BE32(1), Full(0, 1, []));
  }

  lemma DinfBytes(count: seq<Byte>, url: seq<Byte>)
    ensures Mp4Box(DINF, Mp4Box(DREF, count + Mp4Box(URL, url)))
         == Box(Node(DINF, [], Cons(Node(DREF, count, Cons(Leaf(URL, url), Nil)), Nil)))
  {
    var leaf := Leaf(URL, url);
    var dref := Node(DREF, count, Cons(leaf, Nil));
    OneChild(leaf);
    OneChild(dref);
    assert [] + Bytes(Cons(dref, Nil)) == Bytes(Cons(dref, Nil));
  }

  method MediaInfoBox(stblBox: seq<Byte>, ghost stbl: Tree) returns (minfBox: seq<Byte>)
    requires stblBox == Box(stbl)
    ensures minfBox == Box(MinfTree(DrefTree(), stbl))
  {
    var vmhdBox := Mp4FullBox(VMHD, 0, 1, Zeros(8));
    var dinfBox := DataInfoBox();
    minfBox := Mp4Box(MINF, vmhdBox + dinfBox + stblBox);
    FullLeaf(VMHD, 0, 1, Zeros(8));
    ghost var t := MinfTree(DrefTree(), stbl);
    ThreeChildren(Leaf(VMHD, Full(0, 1, Zeros(8))), DinfTree(DrefTree()), stbl);
    assert Payload(t) == Bytes(t.children);
  }

  method MediaBox(minfBox: seq<Byte>, ghost minf: Tree) returns (mdiaBox: seq<Byte>)
    requires minfBox == Box(minf)
    ensures mdiaBox == Box(MdiaTree(minf))
  {
    var mdhdBox := Mp4FullBox(MDHD, 0, 0, MdhdFields());
    var hdlrBox := Mp4FullBox(HDLR, 0, 0, HdlrFields());
    mdiaBox := Mp4Box(MDIA, mdhdBox + hdlrBox + minfBox);
    FullLeaf(MDHD, 0, 0, MdhdFields());
    FullLeaf(HDLR, 0, 0, HdlrFields());
    ghost var t := MdiaTree(minf);
    ThreeChildren(Leaf(MDHD, Full0(MdhdFields())), Leaf(HDLR, Full0(HdlrFields())), minf);
    assert Payload(t) == Bytes(t.children);
  }

  method TrackBox(mdiaBox: seq<Byte>, width: U32, height: U32, ghost mdia: Tree) returns (trakBox: seq<Byte>)
    requires mdiaBox == Box(mdia)
    ensures trakBox == Box(TrakTree(mdia, width, height))
  {
    var tkhdBox := Mp4FullBox(TKHD, 0, 7, TkhdFields(width, height));
    trakBox := Mp4Box(TRAK, tkhdBox + mdiaBox);
    FullLeaf(TKHD, 0, 7, TkhdFields(width, height));
    ghost var t := TrakTree(mdia, width, height);
    TwoChildren(Leaf(TKHD, Full(0, 7, TkhdFields(width, height))), mdia);
    assert Payload(t) == Bytes(t.children);
  }

  method MovieBox(trakBox: seq<Byte>, ghost trak: Tree) returns (moovBox: seq<Byte>)
    requires trakBox == Box(trak)
    ensures moovBox == Box(MoovTree(trak))
  {
    var mvhdBox := Mp4FullBox(MVHD, 0, 0, MvhdFields());
    var trexBox := Mp4FullBox(TREX, 0, 0, TrexFields());
    var mvexBox := Mp4Box(MVEX, trexBox);
    moovBox := Mp4Box(MOOV, mvhdBox + trakBox + mvexBox);
    FullLeaf(MVHD, 0, 0, MvhdFields());
    FullLeaf(TREX, 0, 0, TrexFields());
    ghost var trex := Leaf(TREX, Full0(TrexFields()));
    OneChild(trex);
    ghost var mvex := Node(MVEX, [], Cons(trex, Nil));
    assert Payload(mvex) == Bytes(mvex.children);
    ghost var t := MoovTree(trak);
    ThreeChildren(Leaf(MVHD, Full0(MvhdFields())), trak, mvex);
    assert Payload(t) == Bytes(t.children);
  }

  /** The original indexes the first four bytes of the first parameter set. */
  method BuildInitSegment(sps: seq<Byte>, pps: seq<Byte>, width: U32, height: U32) returns (init: seq<Byte>)
    requires |sps| >= 4
    ensures init == Bytes(InitTrees(DrefTree(), sps, pps, width, height))
  {
    var ftypBox := Mp4Box(FTYP, FtypFields());
    var stblBox := SampleTableBox(sps, pps, width, height);
    ghost var stbl := StblTree(sps, pps, width, height);
    ghost var minf := MinfTree(DrefTree(), stbl);
    var minfBox := MediaInfoBox(stblBox, stbl);
    var mdiaBox := MediaBox(minfBox, minf);
    var trakBox := TrackBox(mdiaBox, width, height, MdiaTree(minf));
    ghost var trak := TrakTree(MdiaTree(minf), width, height);
    var moovBox := MovieBox(trakBox, trak);
    init := ftypBox + moovBox;
    TwoChildren(Leaf(FTYP, FtypFields()), MoovTree(trak));
  }

  // ---------------------------------------------------------------- the init segment read back

  /** A box that only holds others, all proper. */
  predicate Holds(t: Tree, kind: FourCC, d: Dref, limit: nat) {
    t.Node? && t.kind == kind && t.header == [] && Proper(t.children, d) && |Payload(t)| < limit
  }

  /** The data reference box is 16 bytes long, and proper for a reader that expects what is written. */
  lemma DrefSize()
    ensures |Payload(DrefTree())| == 16
    ensures Proper(DrefTree().children, Some(4)) && |DrefTree().header| == 4
  {
    var url := Leaf(URL, Full(0, 1, []));
    ProperCons(url, Nil, Some(4));
    assert Payload(DrefTree()) == BE32(1) + Bytes(DrefTree().children);
  }

  /** How a reader finds the data reference box: with the header it expects, or without children. */
  predicate Readable(dref: Tree, d: Dref) {
    && dref.kind == DREF && |Payload(dref)| == 16
    && (dref.Leaf? ==> d == None)
    && (dref.Node? ==> d == Some(|dref.header|) && Proper(dref.children, d))
  }

  lemma DinfProper(dref: Tree, d: Dref)
    requires Readable(dref, d)
    ensures Holds(DinfTree(dref), DINF, d, 25) && |Payload(DinfTree(dref))| == 24
  {
    ProperCons(dref, Nil, d);
    assert Payload(DinfTree(dref)) == Bytes(DinfTree(dref).children);
  }

  lemma MinfProper(dref: Tree, stbl: Tree, d: Dref)
    requires Readable(dref, d) && Holds(stbl, STBL, d, 0x100_0000)
    ensures Holds(MinfTree(dref, stbl), MINF, d, 0x200_0000)
  {
    DinfProper(dref, d);
    MinfProperWith(Full(0, 1, Zeros(8)), DinfTree(dref), stbl, d);
  }

  lemma MinfProperWith(vmhd: seq<Byte>, dinf: Tree, stbl: Tree, d: Dref)
    requires |vmhd| == 12 && Holds(dinf, DINF, d, 25) && Holds(stbl, STBL, d, 0x100_0000)
    ensures Holds(Node(MINF, [], Cons(Leaf(VMHD, vmhd), Cons(dinf, Cons(stbl, Nil)))), MINF, d, 0x200_0000)
  {
    var two := Cons(dinf, Cons(stbl, Nil));
    ProperCons(stbl, Nil, d);
    ProperCons(dinf, Cons(stbl, Nil), d);
    ProperCons(Leaf(VMHD, vmhd), two, d);
    assert [] + Bytes(Cons(Leaf(VMHD, vmhd), two)) == Bytes(Cons(Leaf(VMHD, vmhd), two));
  }

  lemma MdiaProper(minf: Tree, d: Dref)
    requires Holds(minf, MINF, d, 0x200_0000)
    ensures Holds(MdiaTree(minf), MDIA, d, 0x300_0000)
  {
    var t := MdiaTree(minf);
    FieldSizes(0, 0);
    ProperCons(minf, Nil, d);
    ProperCons(t.children.tail.head, t.children.tail.tail, d);
    ProperCons(t.children.head, t.children.tail, d);
  }

  lemma TrakProper(mdia: Tree, width: U32, height: U32, d: Dref)
    requires Holds(mdia, MDIA, d, 0x300_0000)
    ensures Holds(TrakTree(mdia, width, height), TRAK, d, 0x400_0000)
  {
    var t := TrakTree(mdia, width, height);
    FieldSizes(width, height);
    ProperCons(mdia, Nil, d);
    ProperCons(t.children.head, t.children.tail, d);
  }

  lemma MoovProper(trak: Tree, d: Dref)
    requires Holds(trak, TRAK, d, 0x400_0000)
    ensures Holds(MoovTree(trak), MOOV, d, 0x500_0000)
  {
    var t := MoovTree(trak);
    FieldSizes(0, 0);
    var trex := Leaf(TREX, Full0(TrexFields()));
    ProperCons(trex, Nil, d);
    ProperCons(t.children.tail.tail.head, Nil, d);
    ProperCons(trak, t.children.tail.tail, d);
    ProperCons(t.children.head, t.children.tail, d);
  }

  lemma InitProper(dref: Tree, sps: seq<Byte>, pps: seq<Byte>, width: U32, height: U32, d: Dref)
    requires 4 <= |sps| < 65536 && |pps| < 65536 && Readable(dref, d)
    ensures Proper(InitTrees(dref, sps, pps, width, height), d)
  {
    var stbl := StblTree(sps, pps, width, height);
    var minf := MinfTree(dref, stbl);
    var trak := TrakTree(MdiaTree(minf), width, height);
    StblProper(sps, pps, width, height, d);
    MinfProper(dref, stbl, d);
    MdiaProper(minf, d);
    TrakProper(MdiaTree(minf), width, height, d);
    MoovProper(trak, d);
    FieldSizes(width, height);
    ProperCons(MoovTree(trak), Nil, d);
    ProperCons(Leaf(FTYP, FtypFields()), Cons(MoovTree(trak), Nil), d);
  }

  // The same bytes, whether or not the data reference box is looked into.

  lemma SameMinf(a: Tree, b: Tree, stbl: Tree)
    requires a.kind == b.kind && Payload(a) == Payload(b)
    ensures Payload(MinfTree(a, stbl)) == Payload(MinfTree(b, stbl))
  {
    OneChild(a);
    OneChild(b);
    assert Box(DinfTree(a)) == Box(DinfTree(b));
    ThreeChildren(Leaf(VMHD, Full(0, 1, Zeros(8))), DinfTree(a), stbl);
    ThreeChildren(Leaf(VMHD, Full(0, 1, Zeros(8))), DinfTree(b), stbl);
  }

  lemma SameMdia(a: Tree, b: Tree)
    requires a.kind == b.kind && Payload(a) == Payload(b)
    ensures Payload(MdiaTree(a)) == Payload(MdiaTree(b))
  {
    ThreeChildren(Leaf(MDHD, Full0(MdhdFields())), Leaf(HDLR, Full0(HdlrFields())), a);
    ThreeChildren(Leaf(MDHD, Full0(MdhdFields())), Leaf(HDLR, Full0(HdlrFields())), b);
  }

  lemma SameTrak(a: Tree, b: Tree, width: U32, height: U32)
    requires a.kind == b.kind && Payload(a) == Payload(b)
    ensures Payload(TrakTree(a, width, height)) == Payload(TrakTree(b, width, height))
  {
    TwoChildren(Leaf(TKHD, Full(0, 7, TkhdFields(width, height))), a);
    TwoChildren(Leaf(TKHD, Full(0, 7, TkhdFields(width, height))), b);
  }

  lemma SameMoov(a: Tree, b: Tree)
    requires a.kind == b.kind && Payload(a) == Payload(b)
    ensures Payload(MoovTree(a)) == Payload(MoovTree(b))
  {
    var mvhd, mvex := Leaf(MVHD, Full0(MvhdFields())), Node(MVEX, [], Cons(Leaf(TREX, Full0(TrexFields())), Nil));
    ThreeChildren(mvhd, a, mvex);
    ThreeChildren(mvhd, b, mvex);
  }

  lemma SameInit(a: Tree, b: Tree, sps: seq<Byte>, pps: seq<Byte>, width: U32, height: U32)
    requires |sps| >= 4 && a.kind == b.kind && Payload(a) == Payload(b)
    ensures Bytes(InitTrees(a, sps, pps, width, height)) == Bytes(InitTrees(b, sps, pps, width, height))
  {
    var stbl := StblTree(sps, pps, width, height);
    var m, n := MinfTree(a, stbl), MinfTree(b, stbl);
    SameMinf(a, b, stbl);
    SameMdia(m, n);
    SameTrak(MdiaTree(m), MdiaTree(n), width, height);
    SameMoov(TrakTree(MdiaTree(m), width, height), TrakTree(MdiaTree(n), width, height));
    TwoChildren(Leaf(FTYP, FtypFields()), MoovTree(TrakTree(MdiaTree(m), width, height)));
    TwoChildren(Leaf(FTYP, FtypFields()), MoovTree(TrakTree(MdiaTree(n), width, height)));
  }

  /**
   * Every box of the init segment tiles its parent, up to the data reference box:
   * what is in that one is found only by a reader that does without version and flags.
   */
  lemma InitSegmentParses(sps: seq<Byte>, pps: seq<Byte>, width: U32, height: U32)
    requires 4 <= |sps| < 65536 && |pps| < 65536
    ensures var init := Bytes(InitTrees(DrefTree(), sps, pps, width, height));
            && Parse(init, None) == Some(InitTrees(DrefLeaf(), sps, pps, width, height))
            && Parse(init, Some(4)) == Some(InitTrees(DrefTree(), sps, pps, width, height))
  {
    DrefSize();
    InitProper(DrefTree(), sps, pps, width, height, Some(4));
    ParseUndoesBytes(InitTrees(DrefTree(), sps, pps, width, height), Some(4));
    InitProper(DrefLeaf(), sps, pps, width, height, None);
    ParseUndoesBytes(InitTrees(DrefLeaf(), sps, pps, width, height), None);
    SameInit(DrefLeaf(), DrefTree(), sps, pps, width, height);
  }

  // ---------------------------------------------------------------- the init segment by the standard

  lemma BoxFails(t: Tree, more: Trees, d: Dref)
    requires 8 + |Payload(t)| < 0x1_0000_0000 && ParseBody(t.kind, Payload(t), d) == None
    ensures Parse(Bytes(Cons(t, more)), d) == None
  {
    OneBox(t, more);
    ParseBox(t.kind, Payload(t), Bytes(more), d);
  }

  lemma BehindFails(t: Tree, more: Trees, d: Dref)
    requires 8 + |Payload(t)| < 0x1_0000_0000 && Parse(Bytes(more), d) == None
    ensures Parse(Bytes(Cons(t, more)), d) == None
  {
    OneBox(t, more);
    ParseBox(t.kind, Payload(t), Bytes(more), d);
  }

  lemma HolderFails(t: Tree, d: Dref)
    requires t.Node? && t.header == [] && HeaderSize(t.kind, d) == Some(0) && Parse(Bytes(t.children), d) == None
    ensures ParseBody(t.kind, Payload(t), d) == None
  {
    assert Payload(t)[0..] == Bytes(t.children);
  }

  /** Where the standard has the first entry's size, four bytes further on, there is its type. */
  lemma DrefFails()
    ensures ParseBody(DREF, Payload(DrefTree()), STANDARD) == None
  {
    var body := Payload(DrefTree());
    DrefSize();
    OneChild(Leaf(URL, Full(0, 1, [])));
    assert body[8..][0..4] == BE32(URL);
    JoinAt32(body[8..], 0, URL);
    assert Parse(body[8..], STANDARD) == None;
  }

  lemma MinfFails(stbl: Tree)
    ensures ParseBody(MINF, Payload(MinfTree(DrefTree(), stbl)), STANDARD) == None
  {
    DrefSize();
    DrefFails();
    BoxFails(DrefTree(), Nil, STANDARD);
    HolderFails(DinfTree(DrefTree()), STANDARD);
    OneChild(DrefTree());
    BoxFails(DinfTree(DrefTree()), Cons(stbl, Nil), STANDARD);
    BehindFails(Leaf(VMHD, Full(0, 1, Zeros(8))), Cons(DinfTree(DrefTree()), Cons(stbl, Nil)), STANDARD);
    HolderFails(MinfTree(DrefTree(), stbl), STANDARD);
  }

  lemma MdiaFails(minf: Tree)
    requires 8 + |Payload(minf)| < 0x1_0000_0000 && ParseBody(minf.kind, Payload(minf), STANDARD) == None
    ensures ParseBody(MDIA, Payload(MdiaTree(minf)), STANDARD) == None
  {
    var t := MdiaTree(minf);
    FieldSizes(0, 0);
    BoxFails(minf, Nil, STANDARD);
    BehindFails(t.children.tail.head, Cons(minf, Nil), STANDARD);
    BehindFails(t.children.head, t.children.tail, STANDARD);
    HolderFails(t, STANDARD);
  }

  lemma TrakFails(mdia: Tree, width: U32, height: U32)
    requires 8 + |Payload(mdia)| < 0x1_0000_0000 && ParseBody(mdia.kind, Payload(mdia), STANDARD) == None
    ensures ParseBody(TRAK, Payload(TrakTree(mdia, width, height)), STANDARD) == None
  {
    var t := TrakTree(mdia, width, height);
    FieldSizes(width, height);
    BoxFails(mdia, Nil, STANDARD);
    BehindFails(t.children.head, Cons(mdia, Nil), STANDARD);
    HolderFails(t, STANDARD);
  }

  lemma MoovFails(trak: Tree)
    requires 8 + |Payload(trak)| < 0x1_0000_0000 && ParseBody(trak.kind, Payload(trak), STANDARD) == None
    ensures ParseBody(MOOV, Payload(MoovTree(trak)), STANDARD) == None
  {
    var t := MoovTree(trak);
    FieldSizes(0, 0);
    BoxFails(trak, t.children.tail.tail, STANDARD);
    BehindFails(t.children.head, t.children.tail, STANDARD);
    HolderFails(t, STANDARD);
  }

  /** A reader that looks into the data reference box where the standard puts its entries rejects every init segment. */
  lemma StandardRejectsInitSegment(sps: seq<Byte>, pps: seq<Byte>, width: U32, height: U32)
    requires 4 <= |sps| < 65536 && |pps| < 65536
    ensures Parse(Bytes(InitTrees(DrefTree(), sps, pps, width, height)), STANDARD) == None
  {
    var stbl := StblTree(sps, pps, width, height);
    var minf := MinfTree(DrefTree(), stbl);
    var trak := TrakTree(MdiaTree(minf), width, height);
    InitSizes(sps, pps, width, height);
    MinfFails(stbl);
    MdiaFails(minf);
    TrakFails(MdiaTree(minf), width, height);
    MoovFails(trak);
    FieldSizes(width, height);
    BoxFails(MoovTree(trak), Nil, STANDARD);
    BehindFails(Leaf(FTYP, FtypFields()), Cons(MoovTree(trak), Nil), STANDARD);
  }

  lemma InitSizes(sps: seq<Byte>, pps: seq<Byte>, width: U32, height: U32)
    requires 4 <= |sps| < 65536 && |pps| < 65536
    ensures var minf := MinfTree(DrefTree(), StblTree(sps, pps, width, height));
            var trak := TrakTree(MdiaTree(minf), width, height);
            && |Payload(minf)| < 0x200_0000 && |Payload(MdiaTree(minf))| < 0x300_0000
            && |Payload(trak)| < 0x400_0000 && |Payload(MoovTree(trak))| < 0x500_0000
  {
    var stbl := StblTree(sps, pps, width, height);
    var minf := MinfTree(DrefTree(), stbl);
    DrefSize();
    StblProper(sps, pps, width, height, Some(4));
    MinfProper(DrefTree(), stbl, Some(4));
    MdiaProper(minf, Some(4));
    TrakProper(MdiaTree(minf), width, height, Some(4));
    MoovProper(TrakTree(MdiaTree(minf), width, height), Some(4));
  }

  // ---------------------------------------------------------------- finding the parameter sets

  /** The first child of a type, if there is one. */
  function Find(ts: Trees, kind: FourCC): Option<Tree> {
    match ts
    case Nil => None
    case Cons(t, more) => if t.kind == kind then Some(t) else Find(more, kind)
  }

  /** Follows a path of box types down from a row of boxes. */
  function Descend(ts: Trees, path: seq<FourCC>): Option<Tree>
    decreases |path|
  {
    if path == [] then None
    else
      var t := Find(ts, path[0]);
      if t.None? || |path| == 1 then t
      else if t.value.Leaf? then None
      else Descend(t.value.children, path[1..])
  }

  lemma FindThird(a: Tree, b: Tree, c: Tree)
    requires a.kind != c.kind && b.kind != c.kind
    ensures Find(Cons(a, Cons(b, Cons(c, Nil))), c.kind) == Some(c)
  {
    assert Find(Cons(c, Nil), c.kind) == Some(c);
    assert Find(Cons(b, Cons(c, Nil)), c.kind) == Some(c);
  }

  lemma DescendInto(ts: Trees, kind: FourCC, path: seq<FourCC>, t: Tree)
    requires Find(ts, kind) == Some(t) && t.Node? && path != []
    ensures Descend(ts, [kind] + path) == Descend(t.children, path)
  {
    assert ([kind] + path)[1..] == path;
  }

  /** Both parameter sets can be read out of the init segment, where a player looks for them. */
  lemma InitSegmentHoldsParameterSets(dref: Tree, sps: seq<Byte>, pps: seq<Byte>, width: U32, height: U32)
    requires 4 <= |sps| < 65536 && |pps| < 65536
    ensures var found := Descend(InitTrees(dref, sps, pps, width, height),
                                 [MOOV, TRAK, MDIA, MINF, STBL, STSD, AVC1, AVCC]);
            && found.Some? && found.value.Leaf?
            && ReadAvcC(found.value.payload) == Some((sps, pps))
  {
    var stbl := StblTree(sps, pps, width, height);
    var path := [STBL, STSD, AVC1, AVCC];
    StblLeadsToConfig(sps, pps, width, height);
    ThroughMovie(TrakTree(MdiaTree(MinfTree(dref, stbl)), width, height), [MDIA] + ([MINF] + path));
    ThroughMedia(dref, stbl, width, height, path);
    assert [MOOV] + ([TRAK] + ([MDIA] + ([MINF] + path))) == [MOOV, TRAK, MDIA, MINF, STBL, STSD, AVC1, AVCC];
    FindThird(Leaf(VMHD, Full(0, 1, Zeros(8))), DinfTree(dref), stbl);
    DescendInto(MinfTree(dref, stbl).children, STBL, [STSD, AVC1, AVCC], stbl);
    assert [STBL] + [STSD, AVC1, AVCC] == [STBL, STSD, AVC1, AVCC];
    ParameterSetsComeBack(sps, pps);
  }

  lemma StblLeadsToConfig(sps: seq<Byte>, pps: seq<Byte>, width: U32, height: U32)
    requires |sps| >= 4
    ensures Descend(StblTree(sps, pps, width, height).children, [STSD, AVC1, AVCC]) == Some(Leaf(AVCC, AvcC(sps, pps)))
  {
    var stsd := StblTree(sps, pps, width, height).children.head;
    DescendInto(StblTree(sps, pps, width, height).children, STSD, [AVC1, AVCC], stsd);
    DescendInto(stsd.children, AVC1, [AVCC], stsd.children.head);
    assert [STSD] + [AVC1, AVCC] == [STSD, AVC1, AVCC] && [AVC1] + [AVCC] == [AVC1, AVCC];
  }

  lemma ThroughMedia(dref: Tree, stbl: Tree, width: U32, height: U32, path: seq<FourCC>)
    requires path != [] && stbl.kind == STBL
    ensures var minf := MinfTree(dref, stbl);
            Descend(TrakTree(MdiaTree(minf), width, height).children, [MDIA] + ([MINF] + path))
            == Descend(minf.children, path)
  {
    var minf := MinfTree(dref, stbl);
    var mdia := MdiaTree(minf);
    DescendInto(TrakTree(mdia, width, height).children, MDIA, [MINF] + path, mdia);
    FindThird(Leaf(MDHD, Full0(MdhdFields())), Leaf(HDLR, Full0(HdlrFields())), minf);
    DescendInto(mdia.children, MINF, path, minf);
  }

  lemma ThroughMovie(trak: Tree, path: seq<FourCC>)
    requires path != [] && trak.kind == TRAK && trak.Node?
    ensures Descend(Cons(Leaf(FTYP, FtypFields()), Cons(MoovTree(trak), Nil)), [MOOV] + ([TRAK] + path))
         == Descend(trak.children, path)
  {
    var moov := MoovTree(trak);
    DescendInto(Cons(Leaf(FTYP, FtypFields()), Cons(moov, Nil)), MOOV, [TRAK] + path, moov);
    DescendInto(moov.children, TRAK, path, trak);
  }

  /** And so can the size of the picture, from the track header and from the sample entry. */
  lemma InitSegmentHoldsSize(dref: Tree, sps: seq<Byte>, pps: seq<Byte>, width: U32, height: U32)
    requires |sps| >= 4 && width < 65536 && height < 65536
    ensures var ts := InitTrees(dref, sps, pps, width, height);
            var tkhd := Descend(ts, [MOOV, TRAK, TKHD]);
            && tkhd.Some? && tkhd.value.Leaf? && |tkhd.value.payload| == 84
            && var p := tkhd.value.payload;
               && Join32(p[76], p[77], p[78], p[79]) == width * 65536
               && Join32(p[80], p[81], p[82], p[83]) == height * 65536
    ensures var ts := InitTrees(dref, sps, pps, width, height);
            var avc1 := Descend(ts, [MOOV, TRAK, MDIA, MINF, STBL, STSD, AVC1]);
            && avc1.Some? && avc1.value.Node? && |avc1.value.header| == 78
            && var p := avc1.value.header;
               Join16(p[24], p[25]) == width && Join16(p[26], p[27]) == height
  {
    var stbl := StblTree(sps, pps, width, height);
    var trak := TrakTree(MdiaTree(MinfTree(dref, stbl)), width, height);
    ThroughMovie(trak, [TKHD]);
    assert [MOOV] + ([TRAK] + [TKHD]) == [MOOV, TRAK, TKHD];
    assert Descend(trak.children, [TKHD]) == Some(Leaf(TKHD, Full(0, 7, TkhdFields(width, height))));
    TrackTells(width, height);
    BehindFlags(0, 7, TkhdFields(width, height));
    SampleEntryTells(width, height);
    LeadsToEntry(dref, sps, pps, width, height);
  }

  lemma BehindFlags(version: Byte, flags: nat, fields: seq<Byte>)
    ensures var p := Full(version, flags, fields);
            |p| == 4 + |fields| && forall k :: 4 <= k < |p| ==> p[k] == fields[k - 4]
  {
  }

  lemma LeadsToEntry(dref: Tree, sps: seq<Byte>, pps: seq<Byte>, width: U32, height: U32)
    requires |sps| >= 4
    ensures Descend(InitTrees(dref, sps, pps, width, height), [MOOV, TRAK, MDIA, MINF, STBL, STSD, AVC1])
         == Some(Node(AVC1, Avc1Header(width, height), Cons(Leaf(AVCC, AvcC(sps, pps)), Nil)))
  {
    var stbl := StblTree(sps, pps, width, height);
    var stsd, path := stbl.children.head, [STBL, STSD, AVC1];
    ThroughMovie(TrakTree(MdiaTree(MinfTree(dref, stbl)), width, height), [MDIA] + ([MINF] + path));
    ThroughMedia(dref, stbl, width, height, path);
    assert [MOOV] + ([TRAK] + ([MDIA] + ([MINF] + path))) == [MOOV, TRAK, MDIA, MINF, STBL, STSD, AVC1];
    FindThird(Leaf(VMHD, Full(0, 1, Zeros(8))), DinfTree(dref), stbl);
    DescendInto(MinfTree(dref, stbl).children, STBL, [STSD, AVC1], stbl);
    DescendInto(stbl.children, STSD, [AVC1], stsd);
    assert [STBL] + [STSD, AVC1] == path && [STSD] + [AVC1] == [STSD, AVC1];
  }
}
