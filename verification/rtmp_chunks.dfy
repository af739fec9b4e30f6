/**
 * The chunk layer of the RTMP client (section 5.3.1 of the Adobe RTMP 1.0
 * specification): a writer that cuts a message into chunks and a reader that
 * puts chunks together again.
 */
module RtmpChunks {
  import opened Basics
  import opened Wire

  datatype Message = Message(csID: nat, msgType: Byte, streamID: U32, timestamp: U32, data: seq<Byte>)

  // ---------------------------------------------------------------- writing

  type Format = f: int | 0 <= f < 4

  function BasicHeader(fmt: Format, csID: nat): seq<Byte> {
    if csID < 64 then [fmt * 64 + csID]
    else if csID < 320 then [fmt * 64, (csID - 64) % 256]
    else [fmt * 64 + 1, (csID - 64) % 256, ((csID - 64) / 256) % 256]
  }

  /** The fields a chunk header carries besides the chunk stream: absolute time or a delta, and what is new. */
  datatype Fields = Fields(timestamp: U32, msgLen: nat, msgType: Byte, streamID: U32)

  const NO_FIELDS := Fields(0, 0, 0, 0)

  /** Times that do not fit 24 bits are announced by an all-ones field and follow in full. */
  function Field(t: U32): U32 {
    if t >= 0xFFFFFF then 0xFFFFFF else t
  }

  function Extended(t: U32): seq<Byte> {
    if t >= 0xFFFFFF then BE32(t) else []
  }

  function MessageHeader(fmt: Format, f: Fields): seq<Byte> {
    if fmt == 3 then []
    else if fmt == 0 then
      BE24(Field(f.timestamp)) + BE24(f.msgLen) + [f.msgType] + LE32(f.streamID) + Extended(f.timestamp)
    else if fmt == 1 then BE24(Field(f.timestamp)) + BE24(f.msgLen) + [f.msgType] + Extended(f.timestamp)
    else BE24(Field(f.timestamp)) + Extended(f.timestamp)
  }

  function MakeChunkHeader(csID: nat, fmt: Format, f: Fields): seq<Byte> {
    BasicHeader(fmt, csID) + MessageHeader(fmt, f)
  }

  function FieldsOf(m: Message): Fields {
    Fields(m.timestamp, |m.data|, m.msgType, m.streamID)
  }

  function FirstHeader(m: Message): seq<Byte> {
    MakeChunkHeader(m.csID, 0, FieldsOf(m))
  }

  /** The Type 3 chunks that carry the bytes of `m` from `k` on. */
  function Rest(m: Message, k: nat, chunk: nat): seq<Byte>
    requires chunk > 0
    decreases |m.data| - k
  {
    if k >= |m.data| then []
    else
      var k' := Min(k + chunk, |m.data|);
      BasicHeader(3, m.csID) + m.data[k..k'] + Rest(m, k', chunk)
  }

  /** All chunks of a message; an empty one has none. */
  function Chunks(m: Message, chunk: nat): seq<Byte>
    requires chunk > 0
  {
    if |m.data| == 0 then []
    else
      var k := Min(chunk, |m.data|);
      FirstHeader(m) + m.data[..k] + Rest(m, k, chunk)
  }

  method WriteRawMessage(m: Message, chunkSize: nat) returns (out: seq<Byte>)
    requires chunkSize > 0
    ensures out == Chunks(m, chunkSize)
  {
    out := [];
    var totalLen := |m.data|;
    var remaining := totalLen;
    ghost var first, next := FirstHeader(m), NextHeader(m);
    ghost var goal, k: nat := Written(m.data, 0, chunkSize, out, first, next), 0;
    while remaining > 0
      invariant k + remaining == totalLen
      invariant Written(m.data, k, chunkSize, out, first, next) == goal
    {
      var chunkDataLen := chunkSize;
      if remaining < chunkSize {
        chunkDataLen := remaining;
      }
      var offset: nat := totalLen - remaining;
      var end := offset + chunkDataLen;
      var hdr := HeaderAt(m, offset);
      WrittenStep(m.data, offset, chunkSize, out, first, next, hdr, end);
      out := out + hdr + m.data[offset..end];
      remaining := remaining - chunkDataLen;
      k := end;
    }
    WrittenIsChunks(m, chunkSize);
  }

  lemma WrittenStep(data: seq<Byte>, k: nat, chunk: nat, out: seq<Byte>, first: seq<Byte>, next: seq<Byte>,
                    hdr: seq<Byte>, end: nat)
    requires chunk > 0 && k < end == Min(k + chunk, |data|) && hdr == if k == 0 then first else next
    ensures Written(data, end, chunk, out + hdr + data[k..end], first, next)
         == Written(data, k, chunk, out, first, next)
  {
  }

  function NextHeader(m: Message): seq<Byte> {
    MakeChunkHeader(m.csID, 3, NO_FIELDS)
  }

  /** The header of the chunk that starts with byte `k`: a full one at first, only a basic header after that. */
  function HeaderFor(m: Message, k: nat): seq<Byte> {
    if k == 0 then FirstHeader(m) else NextHeader(m)
  }

  method HeaderAt(m: Message, offset: nat) returns (hdr: seq<Byte>)
    ensures hdr == HeaderFor(m, offset)
  {
    if offset == 0 {
      hdr := MakeChunkHeader(m.csID, 0, FieldsOf(m));
    } else {
      hdr := MakeChunkHeader(m.csID, 3, NO_FIELDS);
    }
  }

  /** What `out` grows to once the writer has gone on from byte `k`. */
  function Written(data: seq<Byte>, k: nat, chunk: nat, out: seq<Byte>, first: seq<Byte>, next: seq<Byte>): seq<Byte>
    requires chunk > 0
    decreases |data| - k
  {
    if k >= |data| then out
    else
      var k' := Min(k + chunk, |data|);
      Written(data, k', chunk, out + (if k == 0 then first else next) + data[k..k'], first, next)
  }

  lemma {:induction false} WrittenIsRest(m: Message, k: nat, chunk: nat, out: seq<Byte>, first: seq<Byte>,
                                         next: seq<Byte>)
    requires chunk > 0 && k > 0 && next == NextHeader(m)
    ensures Written(m.data, k, chunk, out, first, next) == out + Rest(m, k, chunk)
    decreases |m.data| - k
  {
    if k < |m.data| {
      var k' := Min(k + chunk, |m.data|);
      var body := m.data[k..k'];
      assert next == BasicHeader(3, m.csID);
      WrittenIsRest(m, k', chunk, out + next + body, first, next);
      Regroup(out, next, body, Rest(m, k', chunk));
    }
  }

  lemma WrittenIsChunks(m: Message, chunk: nat)
    requires chunk > 0
    ensures Written(m.data, 0, chunk, [], FirstHeader(m), NextHeader(m)) == Chunks(m, chunk)
  {
    if |m.data| > 0 {
      var k := Min(chunk, |m.data|);
      assert [] + FirstHeader(m) + m.data[0..k] == FirstHeader(m) + m.data[..k];
      WrittenIsRest(m, k, chunk, FirstHeader(m) + m.data[..k], FirstHeader(m), NextHeader(m));
    }
  }

  lemma Regroup(a: seq<Byte>, b: seq<Byte>, c: seq<Byte>, d: seq<Byte>)
    ensures a + (b + c + d) == a + b + c + d
  {
  }

  // ---------------------------------------------------------------- the bytes on the wire

  /** The format in the top two bits, then the chunk stream id in one, two or three bytes. */
  lemma BasicHeaderTells(fmt: Format, csID: nat)
    requires 2 <= csID <= 65599
    ensures var b := BasicHeader(fmt, csID);
            && |b| == (if csID < 64 then 1 else if csID < 320 then 2 else 3) && b[0] / 64 == fmt
            && (csID < 64 ==> b[0] % 64 == csID)
            && (64 <= csID < 320 ==> b[0] % 64 == 0 && b[1] == csID - 64)
            && (320 <= csID ==> b[0] % 64 == 1 && Join16(b[2], b[1]) == csID - 64)
  {
  }

  /** Time, length and type in network order and the message stream id in little-endian order. */
  lemma FullHeaderTells(f: Fields)
    requires f.msgLen < 0x100_0000
    ensures var h := MessageHeader(0, f);
            && |h| == (if f.timestamp < 0xFFFFFF then 11 else 15)
            && Join24(h[0], h[1], h[2]) == (if f.timestamp < 0xFFFFFF then f.timestamp else 0xFFFFFF)
            && Join24(h[3], h[4], h[5]) == f.msgLen && h[6] == f.msgType
            && Join32(h[10], h[9], h[8], h[7]) == f.streamID
            && (f.timestamp >= 0xFFFFFF ==> Join32(h[11], h[12], h[13], h[14]) == f.timestamp)
  {
    var h := MessageHeader(0, f);
    FullHeaderLayout(f, h);
    JoinAt24(h, 0, Field(f.timestamp));
    JoinAt24(h, 3, f.msgLen);
    LittleAt32(h, 7, f.streamID);
    if f.timestamp >= 0xFFFFFF {
      JoinAt32(h, 11, f.timestamp);
    }
  }

  lemma FullHeaderLayout(f: Fields, h: seq<Byte>)
    requires h == MessageHeader(0, f)
    ensures |h| == 11 + |Extended(f.timestamp)| && h[0..3] == BE24(Field(f.timestamp)) && h[3..6] == BE24(f.msgLen)
    ensures h[6] == f.msgType && h[7..11] == LE32(f.streamID) && h[11..] == Extended(f.timestamp)
    ensures f.timestamp >= 0xFFFFFF ==> h[11..15] == BE32(f.timestamp)
  {
  }

  predicate PieceAt(s: seq<Byte>, p: nat, piece: seq<Byte>) {
    p + |piece| <= |s| && s[p..p + |piece|] == piece
  }

  lemma PieceBehind(head: seq<Byte>, tail: seq<Byte>, p: nat, piece: seq<Byte>)
    requires PieceAt(tail, p, piece)
    ensures PieceAt(head + tail, |head| + p, piece)
  {
  }

  /** Where chunk `i` of those that carry the bytes from `k` on begins, and what it holds. */
  lemma {:induction false} RestTells(m: Message, k: nat, chunk: nat, i: nat, p: nat, from: nat, to: nat)
    requires chunk > 0 && 2 <= m.csID < 64 && p == i * (chunk + 1) && from == k + i * chunk
    requires from < |m.data| && to == Min(from + chunk, |m.data|)
    ensures PieceAt(Rest(m, k, chunk), p, [192 + m.csID] + m.data[from..to])
    decreases i
  {
    NextChunk(k, chunk, i);
    var k' := Min(k + chunk, |m.data|);
    var head, tail := [192 + m.csID] + m.data[k..k'], Rest(m, k', chunk);
    assert Rest(m, k, chunk) == head + tail;
    if i > 0 {
      RestTells(m, k', chunk, i - 1, p - (chunk + 1), from, to);
      PieceBehind(head, tail, p - (chunk + 1), [192 + m.csID] + m.data[from..to]);
    }
  }

  lemma NextChunk(k: nat, chunk: nat, i: nat)
    ensures i == 0 ==> k + i * chunk == k && i * (chunk + 1) == 0
    ensures i > 0 ==> k + i * chunk == k + chunk + (i - 1) * chunk && k + chunk <= k + i * chunk
    ensures i > 0 ==> i * (chunk + 1) == chunk + 1 + (i - 1) * (chunk + 1) && chunk + 1 <= i * (chunk + 1)
  {
    if i > 0 {
      assert 0 <= (i - 1) * chunk && 0 <= (i - 1) * (chunk + 1);
    }
  }

  /**
   * A written message, byte by byte, for a short chunk stream id and a time of 24
   * bits: one full header of 12 bytes, then data in pieces of the chunk size, with one
   * byte in front of each but the first.
   */
  lemma MessageTells(m: Message, chunk: nat, i: nat, p: nat, from: nat, to: nat)
    requires chunk > 0 && 2 <= m.csID < 64 && m.timestamp < 0xFFFFFF && |m.data| < 0x100_0000
    requires p == 12 + i * (chunk + 1) && from == i * chunk < |m.data| && to == Min(from + chunk, |m.data|)
    ensures PieceAt(Chunks(m, chunk), p, m.data[from..to])
    ensures i > 0 ==> PieceAt(Chunks(m, chunk), p - 1, [192 + m.csID])
  {
    NextChunk(0, chunk, i);
    if i > 0 {
      LaterTells(m, chunk, i - 1, p - 13 - chunk, from, to);
    } else {
      FirstTells(m, chunk, to);
    }
  }

  lemma FirstTells(m: Message, chunk: nat, k: nat)
    requires chunk > 0 && 2 <= m.csID < 64 && m.timestamp < 0xFFFFFF && 0 < |m.data| < 0x100_0000
    requires k == Min(chunk, |m.data|)
    ensures PieceAt(Chunks(m, chunk), 12, m.data[0..k])
  {
    FirstHeaderTells(m);
    ChunksAre(m, chunk, FirstHeader(m) + m.data[..k], Rest(m, k, chunk));
    FirstPiece(FirstHeader(m), m.data[..k], Rest(m, k, chunk));
  }

  lemma LaterTells(m: Message, chunk: nat, i: nat, q: nat, from: nat, to: nat)
    requires chunk > 0 && 2 <= m.csID < 64 && m.timestamp < 0xFFFFFF && chunk < |m.data| < 0x100_0000
    requires q == i * (chunk + 1) && from == chunk + i * chunk < |m.data| && to == Min(from + chunk, |m.data|)
    ensures PieceAt(Chunks(m, chunk), 12 + chunk + q, [192 + m.csID])
    ensures PieceAt(Chunks(m, chunk), 13 + chunk + q, m.data[from..to])
  {
    var head, rest := FirstHeader(m) + m.data[..chunk], Rest(m, chunk, chunk);
    FirstHeaderTells(m);
    ChunksAre(m, chunk, head, rest);
    RestTells(m, chunk, chunk, i, q, from, to);
    LaterPiece(head, rest, Chunks(m, chunk), q, 192 + m.csID, m.data[from..to]);
  }

  lemma ChunksAre(m: Message, chunk: nat, head: seq<Byte>, rest: seq<Byte>)
    requires chunk > 0 && |m.data| > 0
    requires head == FirstHeader(m) + m.data[..Min(chunk, |m.data|)] && rest == Rest(m, Min(chunk, |m.data|), chunk)
    ensures Chunks(m, chunk) == head + rest
  {
  }

  lemma LaterPiece(head: seq<Byte>, rest: seq<Byte>, s: seq<Byte>, q: nat, b: Byte, piece: seq<Byte>)
    requires s == head + rest && PieceAt(rest, q, [b] + piece)
    ensures PieceAt(s, |head| + q, [b]) && PieceAt(s, |head| + q + 1, piece)
  {
    PieceBehind(head, rest, q, [b] + piece);
    SplitPiece(s, |head| + q, b, piece);
  }

  lemma SplitPiece(s: seq<Byte>, p: nat, b: Byte, piece: seq<Byte>)
    requires PieceAt(s, p, [b] + piece)
    ensures PieceAt(s, p, [b]) && PieceAt(s, p + 1, piece)
  {
    var t := s[p..p + 1 + |piece|];
    assert t == [b] + piece && t[0] == s[p] && t[1..] == piece;
    assert s[p + 1..p + 1 + |piece|] == t[1..];
  }

  lemma FirstPiece(header: seq<Byte>, piece: seq<Byte>, rest: seq<Byte>)
    ensures PieceAt(header + piece + rest, |header|, piece)
  {
  }

  lemma OneBefore(b: Byte, h: seq<Byte>, s: seq<Byte>)
    requires s == [b] + h
    ensures |s| == |h| + 1 && s[0] == b && forall k :: 0 <= k < |h| ==> s[k + 1] == h[k]
  {
  }

  /** The full header of a message. */
  lemma FirstHeaderTells(m: Message)
    requires 2 <= m.csID < 64 && m.timestamp < 0xFFFFFF && |m.data| < 0x100_0000
    ensures var h := FirstHeader(m);
            && |h| == 12 && h[0] == m.csID && Join24(h[1], h[2], h[3]) == m.timestamp
            && Join24(h[4], h[5], h[6]) == |m.data| && h[7] == m.msgType
            && Join32(h[11], h[10], h[9], h[8]) == m.streamID
  {
    FullHeaderTells(FieldsOf(m));
    OneBefore(m.csID, MessageHeader(0, FieldsOf(m)), FirstHeader(m));
  }

  /** A delta is added to the time the chunk stream had; the format says what else is new. */
  lemma DeltaTells(fmt: Format, st: State, s: seq<Byte>)
    requires (fmt == 1 && |s| >= 7) || (fmt == 2 && |s| >= 3)
    requires Join24(s[0], s[1], s[2]) < 0xFFFFFF
    ensures var h := ReadHeader(fmt, st, s);
            && h.Headed? && h.size == (if fmt == 1 then 7 else 3)
            && h.state.timestamp == (st.timestamp + Join24(s[0], s[1], s[2])) % 0x1_0000_0000
            && h.state.streamID == st.streamID
            && (fmt == 1 ==>
                  h.state.msgLen == Join24(s[3], s[4], s[5]) && h.state.msgType == s[6] && h.state.data == [])
            && (fmt == 2 ==> h.state == st.(timestamp := h.state.timestamp))
  {
    var n := if fmt == 1 then 7 else 3;
    assert ReadStamp(s, n) == Stamp(Join24(s[0], s[1], s[2]), n);
  }

  // ---------------------------------------------------------------- reading

  /** One message being put together: `data` is the part received so far. */
  datatype Reassembly = Reassembly(msgType: Byte, streamID: U32, timestamp: U32, msgLen: nat, data: seq<Byte>)

  type State = s: Reassembly | |s.data| <= s.msgLen < 0x100_0000
    witness Reassembly(0, 0, 0, 0, [])

  const NEW: State := Reassembly(0, 0, 0, 0, [])

  datatype Basic = Basic(fmt: Format, csID: nat, size: nat) | NoBasic

  /** The basic header at the start of `s`: only ids 2 to 65599 can be expressed. */
  function ReadBasic(s: seq<Byte>): (b: Basic)
    ensures b.Basic? ==> 2 <= b.csID <= 65599 && 1 <= b.size <= 3 && b.size <= |s|
  {
    if |s| < 1 then NoBasic
    else
      var fmt, low := s[0] / 64, s[0] % 64;
      if low == 0 then if |s| < 2 then NoBasic else Basic(fmt, Join16(0, s[1]) + 64, 2)
      else if low == 1 then if |s| < 3 then NoBasic else Basic(fmt, Join16(s[2], s[1]) + 64, 3)
      else Basic(fmt, low, 1)
  }

  datatype Stamp = Stamp(value: U32, size: nat) | NoStamp

  /** The 24-bit field at the start of `s`, or the 32-bit one after a header of `n` bytes when it is all ones. */
  function ReadStamp(s: seq<Byte>, n: nat): (t: Stamp)
    requires n >= 3
    ensures t.Stamp? ==> n <= t.size <= |s|
  {
    if |s| < n then NoStamp
    else
      var field := Join24(s[0], s[1], s[2]);
      if field != 0xFFFFFF then Stamp(field, n)
      else if |s| < n + 4 then NoStamp
      else Stamp(Join32(s[n], s[n + 1], s[n + 2], s[n + 3]), n + 4)
  }

  datatype Headed = Headed(state: State, size: nat) | NoHeader

  /** The message header: absolute time and no bytes yet, or a delta to what the chunk stream had. */
  function ReadHeader(fmt: Format, st: State, s: seq<Byte>): (h: Headed)
    ensures h.Headed? ==> h.size <= |s|
  {
    if fmt == 3 then Headed(st, 0)
    else
      var t := ReadStamp(s, if fmt == 0 then 11 else if fmt == 1 then 7 else 3);
      if t.NoStamp? then NoHeader
      else if fmt == 0 then
        Headed(Reassembly(s[6], Join32(s[10], s[9], s[8], s[7]), t.value, Join24(s[3], s[4], s[5]), []), t.size)
      else if fmt == 1 then
        Headed(Reassembly(s[6], st.streamID, Add32(st.timestamp, t.value),
                          Join24(s[3], s[4], s[5]), []), t.size)
      else
        Headed(st.(timestamp := Add32(st.timestamp, t.value)), t.size)
  }

  datatype Step =
    | Failed
    | Complete(msg: Message, rest: seq<Byte>)
    | Partial(csID: nat, state: State, rest: seq<Byte>)

  function ReadBody(csID: nat, st: State, s: seq<Byte>, chunk: nat): (r: Step)
    ensures !r.Failed? ==> |r.rest| <= |s|
  {
    var toRead := Min(chunk, st.msgLen - |st.data|);
    if |s| < toRead then Failed
    else
      var data := st.data + s[..toRead];
      if |data| >= st.msgLen then
        Complete(Message(csID, st.msgType, st.streamID, st.timestamp, data), s[toRead..])
      else
        Partial(csID, st.(data := data), s[toRead..])
  }

  function StateOf(states: map<nat, State>, csID: nat): State {
    if csID in states then states[csID] else NEW
  }

  function ReadChunk(states: map<nat, State>, s: seq<Byte>, chunk: nat): (r: Step)
    ensures !r.Failed? ==> |r.rest| < |s|
  {
    var b := ReadBasic(s);
    if b.NoBasic? then Failed
    else
      var h := ReadHeader(b.fmt, StateOf(states, b.csID), s[b.size..]);
      if h.NoHeader? then Failed
      else ReadBody(b.csID, h.state, s[b.size..][h.size..], chunk)
  }

  datatype Outcome = Failure | Done(msg: Message, rest: seq<Byte>)

  /** Chunks are read until one completes its message. */
  function ReadFrom(states: map<nat, State>, s: seq<Byte>, chunk: nat): Outcome
    decreases |s|
  {
    match ReadChunk(states, s, chunk)
    case Failed => Failure
    case Complete(m, rest) => Done(m, rest)
    case Partial(csID, st, rest) => ReadFrom(states[csID := st], rest, chunk)
  }

  // ---------------------------------------------------------------- headers read back

  lemma BasicRoundTrip(fmt: Format, csID: nat, rest: seq<Byte>)
    requires 2 <= csID <= 65599
    ensures ReadBasic(BasicHeader(fmt, csID) + rest) == Basic(fmt, csID, |BasicHeader(fmt, csID)|)
  {
    var s := BasicHeader(fmt, csID) + rest;
    if csID >= 320 {
      assert s[0] == fmt * 64 + 1 && s[1] == (csID - 64) % 256 && s[2] == ((csID - 64) / 256) % 256;
    } else if csID >= 64 {
      assert s[0] == fmt * 64 && s[1] == csID - 64;
    }
  }

  /** What a header means: format 0 replaces everything, the others add a delta and keep the rest. */
  function Applied(fmt: Format, st: State, f: Fields): State
    requires f.msgLen < 0x100_0000
  {
    if fmt == 0 then Reassembly(f.msgType, f.streamID, f.timestamp, f.msgLen, [])
    else if fmt == 1 then
      Reassembly(f.msgType, st.streamID, Add32(st.timestamp, f.timestamp), f.msgLen, [])
    else if fmt == 2 then st.(timestamp := Add32(st.timestamp, f.timestamp))
    else st
  }

  /** Times of 0xFFFFFF and more, written as an extended field, are read back like any other. */
  lemma StampRoundTrip(s: seq<Byte>, n: nat, t: U32)
    requires n >= 3 && n + |Extended(t)| <= |s|
    requires s[0..3] == BE24(Field(t)) && s[n..n + |Extended(t)|] == Extended(t)
    ensures ReadStamp(s, n) == Stamp(t, n + |Extended(t)|)
  {
    JoinAt24(s, 0, Field(t));
    if t >= 0xFFFFFF {
      JoinAt32(s, n, t);
    }
  }

  /** Every header is read back as what it means, whatever follows it. */
  lemma HeaderRoundTrip(fmt: Format, st: State, f: Fields, rest: seq<Byte>)
    requires f.msgLen < 0x100_0000
    ensures ReadHeader(fmt, st, MessageHeader(fmt, f) + rest) == Headed(Applied(fmt, st, f), |MessageHeader(fmt, f)|)
  {
    if fmt == 0 {
      Header0RoundTrip(st, f, rest);
    } else if fmt == 1 {
      Header1RoundTrip(st, f, rest);
    } else if fmt == 2 {
      StampRoundTrip(MessageHeader(2, f) + rest, 3, f.timestamp);
    }
  }

  lemma Header0RoundTrip(st: State, f: Fields, rest: seq<Byte>)
    requires f.msgLen < 0x100_0000
    ensures ReadHeader(0, st, MessageHeader(0, f) + rest) == Headed(Applied(0, st, f), |MessageHeader(0, f)|)
  {
    var s := MessageHeader(0, f) + rest;
    Layout0(f, rest);
    StampRoundTrip(s, 11, f.timestamp);
    JoinAt24(s, 3, f.msgLen);
    JoinAtLE32(s, 7, f.streamID);
    ReadFormat0(s, st, f, |MessageHeader(0, f)|);
  }

  lemma ReadFormat0(s: seq<Byte>, st: State, f: Fields, size: nat)
    requires |s| >= 11 && f.msgLen < 0x100_0000 && ReadStamp(s, 11) == Stamp(f.timestamp, size)
    requires Join24(s[3], s[4], s[5]) == f.msgLen && s[6] == f.msgType && Join32(s[10], s[9], s[8], s[7]) == f.streamID
    ensures ReadHeader(0, st, s) == Headed(Applied(0, st, f), size)
  {
  }

  /** Where the fields of a format-0 header are. */
  lemma Layout0(f: Fields, rest: seq<Byte>)
    ensures var s := MessageHeader(0, f) + rest;
            && |MessageHeader(0, f)| == 11 + |Extended(f.timestamp)| <= |s|
            && s[0..3] == BE24(Field(f.timestamp)) && s[11..11 + |Extended(f.timestamp)|] == Extended(f.timestamp)
            && s[3..6] == BE24(f.msgLen) && s[6] == f.msgType && s[7..11] == LE32(f.streamID)
  {
  }

  lemma Header1RoundTrip(st: State, f: Fields, rest: seq<Byte>)
    requires f.msgLen < 0x100_0000
    ensures ReadHeader(1, st, MessageHeader(1, f) + rest) == Headed(Applied(1, st, f), |MessageHeader(1, f)|)
  {
    var s := MessageHeader(1, f) + rest;
    Layout1(f, rest);
    StampRoundTrip(s, 7, f.timestamp);
    JoinAt24(s, 3, f.msgLen);
    ReadFormat1(s, st, f, |MessageHeader(1, f)|);
  }

  lemma ReadFormat1(s: seq<Byte>, st: State, f: Fields, size: nat)
    requires |s| >= 7 && f.msgLen < 0x100_0000 && ReadStamp(s, 7) == Stamp(f.timestamp, size)
    requires Join24(s[3], s[4], s[5]) == f.msgLen && s[6] == f.msgType
    ensures ReadHeader(1, st, s) == Headed(Applied(1, st, f), size)
  {
  }

  /** Where the fields of a format-1 header are. */
  lemma Layout1(f: Fields, rest: seq<Byte>)
    ensures var s := MessageHeader(1, f) + rest;
            && |MessageHeader(1, f)| == 7 + |Extended(f.timestamp)| <= |s|
            && s[0..3] == BE24(Field(f.timestamp)) && s[7..7 + |Extended(f.timestamp)|] == Extended(f.timestamp)
            && s[3..6] == BE24(f.msgLen) && s[6] == f.msgType
  {
  }

  /** One chunk off the stream. */
  lemma ChunkRoundTrip(states: map<nat, State>, csID: nat, fmt: Format, f: Fields, body: seq<Byte>, chunk: nat)
    requires 2 <= csID <= 65599 && f.msgLen < 0x100_0000
    ensures ReadChunk(states, MakeChunkHeader(csID, fmt, f) + body, chunk)
         == ReadBody(csID, Applied(fmt, StateOf(states, csID), f), body, chunk)
  {
    var b, h := BasicHeader(fmt, csID), MessageHeader(fmt, f);
    AppendStep(b, h, body);
    BasicRoundTrip(fmt, csID, h + body);
    HeaderRoundTrip(fmt, StateOf(states, csID), f, body);
    BehindHeader(b, h + body);
    BehindHeader(h, body);
    ReadParts(states, b + (h + body), csID, fmt, h + body, |b|, body, |h|,
              Applied(fmt, StateOf(states, csID), f), chunk);
  }

  lemma BehindHeader(a: seq<Byte>, b: seq<Byte>)
    ensures (a + b)[|a|..] == b
  {
  }

  /** A chunk is its basic header, its message header, and data. */
  lemma ReadParts(states: map<nat, State>, s: seq<Byte>, csID: nat, fmt: Format, t: seq<Byte>, n: nat,
                  body: seq<Byte>, m: nat, st: State, chunk: nat)
    requires ReadBasic(s) == Basic(fmt, csID, n) && n <= |s| && s[n..] == t
    requires ReadHeader(fmt, StateOf(states, csID), t) == Headed(st, m) && m <= |t| && t[m..] == body
    ensures ReadChunk(states, s, chunk) == ReadBody(csID, st, body, chunk)
  {
  }

  // ---------------------------------------------------------------- messages read back

  /** What the chunk format can carry. */
  predicate Fits(m: Message) {
    2 <= m.csID <= 65599 && 1 <= |m.data| < 0x100_0000
  }

  function Received(m: Message, k: nat): State
    requires Fits(m) && k <= |m.data|
  {
    Reassembly(m.msgType, m.streamID, m.timestamp, |m.data|, m.data[..k])
  }

  /** A chunk's worth of the message from `k` on completes it or brings it to `k'`. */
  lemma BodyRoundTrip(m: Message, k: nat, k': nat, rest: seq<Byte>, chunk: nat)
    requires Fits(m) && k < |m.data| && chunk > 0 && k' == Min(k + chunk, |m.data|)
    ensures ReadBody(m.csID, Received(m, k), m.data[k..k'] + rest, chunk)
         == if k' == |m.data| then Complete(m, rest) else Partial(m.csID, Received(m, k'), rest)
  {
    var s := m.data[k..k'] + rest;
    assert s[..k' - k] == m.data[k..k'] && s[k' - k..] == rest;
    assert m.data[..k] + m.data[k..k'] == m.data[..k'];
    assert m.data[..|m.data|] == m.data;
  }

  /** The Type 3 chunks finish a message that is partly there. */
  lemma {:induction false} RestRoundTrip(m: Message, k: nat, states: map<nat, State>, tail: seq<Byte>, chunk: nat)
    requires Fits(m) && k < |m.data| && chunk > 0
    requires m.csID in states && states[m.csID] == Received(m, k)
    ensures ReadFrom(states, Rest(m, k, chunk) + tail, chunk) == Done(m, tail)
    decreases |m.data| - k
  {
    var k' := Min(k + chunk, |m.data|);
    var body := m.data[k..k'] + (Rest(m, k', chunk) + tail);
    assert Rest(m, k, chunk) + tail == MakeChunkHeader(m.csID, 3, NO_FIELDS) + body;
    ChunkRoundTrip(states, m.csID, 3, NO_FIELDS, body, chunk);
    BodyRoundTrip(m, k, k', Rest(m, k', chunk) + tail, chunk);
    if k' < |m.data| {
      RestRoundTrip(m, k', states[m.csID := Received(m, k')], tail, chunk);
    } else {
      assert Rest(m, k', chunk) + tail == tail;
    }
  }

  /** Whatever the reader was doing on other chunk streams, a written message comes back whole. */
  lemma ReadUndoesWrite(m: Message, states: map<nat, State>, tail: seq<Byte>, chunk: nat)
    requires Fits(m) && chunk > 0
    ensures ReadFrom(states, Chunks(m, chunk) + tail, chunk) == Done(m, tail)
  {
    var k := Min(chunk, |m.data|);
    var more := Rest(m, k, chunk) + tail;
    FirstChunk(m, k, states, more, chunk);
    ChunksSplit(m, tail, chunk, k);
    if k < |m.data| {
      RestRoundTrip(m, k, states[m.csID := Received(m, k)], tail, chunk);
    } else {
      assert more == tail;
    }
  }

  lemma ChunksSplit(m: Message, tail: seq<Byte>, chunk: nat, k: nat)
    requires chunk > 0 && |m.data| > 0 && k == Min(chunk, |m.data|)
    ensures Chunks(m, chunk) + tail == FirstHeader(m) + (m.data[..k] + (Rest(m, k, chunk) + tail))
  {
    var h, d, r := FirstHeader(m), m.data[..k], Rest(m, k, chunk);
    assert (h + d + r) + tail == h + (d + (r + tail));
  }

  lemma FirstChunk(m: Message, k: nat, states: map<nat, State>, more: seq<Byte>, chunk: nat)
    requires Fits(m) && chunk > 0 && k == Min(chunk, |m.data|)
    ensures ReadChunk(states, FirstHeader(m) + (m.data[..k] + more), chunk)
         == if k == |m.data| then Complete(m, more) else Partial(m.csID, Received(m, k), more)
  {
    ChunkRoundTrip(states, m.csID, 0, FieldsOf(m), m.data[..k] + more, chunk);
    assert m.data[0..k] == m.data[..k] && m.data[..0] == [];
    BodyRoundTrip(m, 0, k, more, chunk);
  }

  /** On any input: an id and a length the format can express, and what is left is a shorter rest of the input. */
  lemma {:induction false} ReadIsSane(states: map<nat, State>, s: seq<Byte>, chunk: nat)
    ensures var r := ReadFrom(states, s, chunk);
            r.Done? ==> && 2 <= r.msg.csID <= 65599 && |r.msg.data| < 0x100_0000
                        && |r.rest| < |s| && r.rest == s[|s| - |r.rest|..]
    decreases |s|
  {
    ChunkIsSane(states, s, chunk);
    var step := ReadChunk(states, s, chunk);
    if step.Partial? {
      ReadIsSane(states[step.csID := step.state], step.rest, chunk);
    }
  }

  lemma ChunkIsSane(states: map<nat, State>, s: seq<Byte>, chunk: nat)
    ensures var r := ReadChunk(states, s, chunk);
            && (!r.Failed? ==> |r.rest| < |s| && r.rest == s[|s| - |r.rest|..])
            && (r.Complete? ==> 2 <= r.msg.csID <= 65599 && |r.msg.data| < 0x100_0000)
  {
  }

  /** The round trip works for exactly the messages that fit; all others are lost or come back changed. */
  lemma RoundTripExactly(m: Message, tail: seq<Byte>, chunk: nat)
    requires chunk > 0
    ensures ReadFrom(map[], Chunks(m, chunk) + tail, chunk) == Done(m, tail) <==> Fits(m)
  {
    if Fits(m) {
      ReadUndoesWrite(m, map[], tail, chunk);
    } else {
      ReadIsSane(map[], Chunks(m, chunk) + tail, chunk);
      if |m.data| == 0 {
        assert Chunks(m, chunk) + tail == tail;
      }
    }
  }

  function WriteAll(ms: seq<Message>, chunk: nat): seq<Byte>
    requires chunk > 0
  {
    if ms == [] then [] else Chunks(ms[0], chunk) + WriteAll(ms[1..], chunk)
  }

  datatype Batch = Batch(msgs: seq<Message>, rest: seq<Byte>) | NoBatch

  /** `n` reads in a row, each starting without any partial messages. */
  function ReadAll(n: nat, s: seq<Byte>, chunk: nat): Batch {
    if n == 0 then Batch([], s)
    else
      match ReadFrom(map[], s, chunk)
      case Failure => NoBatch
      case Done(m, rest) =>
        var more := ReadAll(n - 1, rest, chunk);
        if more.NoBatch? then NoBatch else Batch([m] + more.msgs, more.rest)
  }

  /** Any messages written one after the other are read back in that order, and nothing beyond them is touched. */
  lemma {:induction false} StreamRoundTrip(ms: seq<Message>, tail: seq<Byte>, chunk: nat)
    requires chunk > 0 && forall m :: m in ms ==> Fits(m)
    ensures ReadAll(|ms|, WriteAll(ms, chunk) + tail, chunk) == Batch(ms, tail)
  {
    if ms == [] {
      assert WriteAll(ms, chunk) + tail == tail;
    } else {
      var m, later := ms[0], ms[1..];
      assert ms == [m] + later;
      StreamRoundTrip(later, tail, chunk);
      FirstRoundTrip(m, later, tail, chunk);
      AppendStep(Chunks(m, chunk), WriteAll(later, chunk), tail);
    }
  }

  lemma FirstRoundTrip(m: Message, later: seq<Message>, tail: seq<Byte>, chunk: nat)
    requires chunk > 0 && Fits(m) && ReadAll(|later|, WriteAll(later, chunk) + tail, chunk) == Batch(later, tail)
    ensures ReadAll(|later| + 1, Chunks(m, chunk) + (WriteAll(later, chunk) + tail), chunk) == Batch([m] + later, tail)
  {
    var more := WriteAll(later, chunk) + tail;
    ReadUndoesWrite(m, map[], more, chunk);
    ReadOneMore(m, later, |later|, Chunks(m, chunk) + more, more, tail, chunk);
  }

  lemma ReadOneMore(m: Message, ms: seq<Message>, n: nat, s: seq<Byte>, rest: seq<Byte>, tail: seq<Byte>, chunk: nat)
    requires ReadFrom(map[], s, chunk) == Done(m, rest) && ReadAll(n, rest, chunk) == Batch(ms, tail)
    ensures ReadAll(n + 1, s, chunk) == Batch([m] + ms, tail)
  {
  }

  // ---------------------------------------------------------------- interleaved messages

  /** How many bytes of `m` its first `n` chunks carry. */
  function Carried(m: Message, n: nat, chunk: nat): (k: nat)
    requires chunk > 0
    ensures k <= |m.data| && (k == 0 <==> n == 0 || |m.data| == 0)
    decreases n
  {
    if n == 0 then 0 else Min(Carried(m, n - 1, chunk) + chunk, |m.data|)
  }

  function FirstChunks(m: Message, n: nat, chunk: nat): seq<Byte>
    requires chunk > 0
    decreases n
  {
    if n == 0 || Carried(m, n - 1, chunk) == |m.data| then if n == 0 then [] else FirstChunks(m, n - 1, chunk)
    else
      var k := Carried(m, n - 1, chunk);
      FirstChunks(m, n - 1, chunk) + (HeaderFor(m, k) + m.data[k..Carried(m, n, chunk)])
  }

  /** The chunks of `m` that carry its bytes from `k` on. */
  function LaterChunks(m: Message, k: nat, chunk: nat): seq<Byte>
    requires chunk > 0
  {
    if k == 0 then Chunks(m, chunk) else Rest(m, k, chunk)
  }

  /** Cutting a message between two chunks loses nothing. */
  lemma {:induction false} CutAnywhere(m: Message, n: nat, chunk: nat)
    requires chunk > 0
    ensures FirstChunks(m, n, chunk) + LaterChunks(m, Carried(m, n, chunk), chunk) == Chunks(m, chunk)
    decreases n
  {
    if n > 0 {
      var k, k' := Carried(m, n - 1, chunk), Carried(m, n, chunk);
      CutAnywhere(m, n - 1, chunk);
      if k < |m.data| {
        LaterStep(m, k, k', chunk);
        AppendStep(FirstChunks(m, n - 1, chunk), HeaderFor(m, k) + m.data[k..k'], Rest(m, k', chunk));
      }
    }
  }

  lemma LaterStep(m: Message, k: nat, k': nat, chunk: nat)
    requires chunk > 0 && k < |m.data| && k' == Min(k + chunk, |m.data|)
    ensures LaterChunks(m, k, chunk) == HeaderFor(m, k) + m.data[k..k'] + Rest(m, k', chunk)
  {
    assert m.data[0..k'] == m.data[..k'];
  }

  /** What the reader keeps of `m` after its first `n` chunks, unless they were all. */
  function Pending(m: Message, n: nat, chunk: nat): map<nat, State>
    requires Fits(m) && chunk > 0
  {
    if n == 0 then map[] else map[m.csID := Received(m, Carried(m, n, chunk))]
  }

  /** Chunks that do not finish the message are taken in, and reading goes on behind them. */
  lemma {:induction false} TakesInFirstChunks(m: Message, n: nat, s: seq<Byte>, chunk: nat)
    requires Fits(m) && chunk > 0 && Carried(m, n, chunk) < |m.data|
    ensures ReadFrom(map[], FirstChunks(m, n, chunk) + s, chunk) == ReadFrom(Pending(m, n, chunk), s, chunk)
    decreases n
  {
    if n == 0 {
      assert FirstChunks(m, n, chunk) + s == s;
    } else {
      var k, k' := Carried(m, n - 1, chunk), Carried(m, n, chunk);
      var h, d := HeaderFor(m, k), m.data[k..k'];
      TakesInFirstChunks(m, n - 1, h + (d + s), chunk);
      ShiftTwice(FirstChunks(m, n - 1, chunk), h, d, s);
      TakesInOneMore(m, n, s, k, k', chunk);
    }
  }

  lemma ShiftTwice(a: seq<Byte>, b: seq<Byte>, c: seq<Byte>, d: seq<Byte>)
    ensures a + (b + c) + d == a + (b + (c + d))
  {
  }

  lemma TakesInOneMore(m: Message, n: nat, s: seq<Byte>, k: nat, k': nat, chunk: nat)
    requires Fits(m) && chunk > 0 && n > 0 && k == Carried(m, n - 1, chunk) && k' == Carried(m, n, chunk) < |m.data|
    ensures ReadFrom(Pending(m, n - 1, chunk), HeaderFor(m, k) + (m.data[k..k'] + s), chunk)
         == ReadFrom(Pending(m, n, chunk), s, chunk)
  {
    var states := Pending(m, n - 1, chunk);
    NextChunkTaken(m, states, s, k, k', chunk);
    assert states[m.csID := Received(m, k')] == Pending(m, n, chunk);
  }

  lemma NextChunkTaken(m: Message, states: map<nat, State>, s: seq<Byte>, k: nat, k': nat, chunk: nat)
    requires Fits(m) && chunk > 0 && k < k' == Min(k + chunk, |m.data|) < |m.data|
    requires k > 0 ==> m.csID in states && states[m.csID] == Received(m, k)
    ensures ReadChunk(states, HeaderFor(m, k) + (m.data[k..k'] + s), chunk) == Partial(m.csID, Received(m, k'), s)
  {
    if k == 0 {
      assert m.data[0..k'] == m.data[..k'];
      FirstChunk(m, k', states, s, chunk);
    } else {
      ChunkRoundTrip(states, m.csID, 3, NO_FIELDS, m.data[k..k'] + s, chunk);
      BodyRoundTrip(m, k, k', s, chunk);
    }
  }

  function ReadTwice(s: seq<Byte>, chunk: nat): Batch {
    match ReadFrom(map[], s, chunk)
    case Failure => NoBatch
    case Done(m, rest) => ReadBehind(m, ReadFrom(map[], rest, chunk))
  }

  function ReadBehind(m: Message, r: Outcome): Batch {
    if r.Failure? then NoBatch else Batch([m, r.msg], r.rest)
  }

  /** Message `b` sent between two chunks of message `a`. */
  function Interleaved(a: Message, b: Message, n: nat, tail: seq<Byte>, chunk: nat): seq<Byte>
    requires chunk > 0
  {
    FirstChunks(a, n, chunk) + (Chunks(b, chunk) + (LaterChunks(a, Carried(a, n, chunk), chunk) + tail))
  }

  /**
   * Partial messages do not survive a call. When message `b` arrives behind some
   * but not all chunks of `a`, `b` is returned, and the next call takes the rest of
   * `a` for an empty message of type 0 and leaves its bytes in the stream.
   */
  lemma InterruptedMessageIsLost(a: Message, b: Message, n: nat, tail: seq<Byte>, chunk: nat)
    requires Fits(a) && Fits(b) && chunk > 0 && 0 < Carried(a, n, chunk) < |a.data|
    ensures ReadTwice(Interleaved(a, b, n, tail, chunk), chunk)
         == Batch([b, Message(a.csID, 0, 0, 0, [])], Orphaned(a, Carried(a, n, chunk), tail, chunk))
  {
    var k := Carried(a, n, chunk);
    var left := Rest(a, k, chunk) + tail;
    var behind := Orphaned(a, k, tail, chunk);
    OrphanedRest(a, k, tail, chunk);
    ReadsOtherFirst(Interleaved(a, b, n, tail, chunk), a, b, n, left, Message(a.csID, 0, 0, 0, []), behind, chunk);
  }

  lemma ReadsOtherFirst(s: seq<Byte>, a: Message, b: Message, n: nat, left: seq<Byte>, m: Message, rest: seq<Byte>,
                        chunk: nat)
    requires Fits(a) && Fits(b) && chunk > 0 && Carried(a, n, chunk) < |a.data|
    requires s == FirstChunks(a, n, chunk) + (Chunks(b, chunk) + left)
    requires ReadFrom(map[], left, chunk) == Done(m, rest)
    ensures ReadTwice(s, chunk) == Batch([b, m], rest)
  {
    TakesInFirstChunks(a, n, Chunks(b, chunk) + left, chunk);
    ReadUndoesWrite(b, Pending(a, n, chunk), left, chunk);
  }

  /** What is in the stream behind the header of the chunk of `a` that starts at byte `k`. */
  function Orphaned(a: Message, k: nat, tail: seq<Byte>, chunk: nat): seq<Byte>
    requires chunk > 0 && k <= |a.data|
  {
    var k' := Min(k + chunk, |a.data|);
    a.data[k..k'] + (Rest(a, k', chunk) + tail)
  }

  /** Type 3 chunks of a message the reader knows nothing about. */
  lemma OrphanedRest(a: Message, k: nat, tail: seq<Byte>, chunk: nat)
    requires Fits(a) && chunk > 0 && 0 < k < |a.data|
    ensures ReadFrom(map[], Rest(a, k, chunk) + tail, chunk)
         == Done(Message(a.csID, 0, 0, 0, []), Orphaned(a, k, tail, chunk))
  {
    var body := Orphaned(a, k, tail, chunk);
    assert Rest(a, k, chunk) + tail == MakeChunkHeader(a.csID, 3, NO_FIELDS) + body;
    ChunkRoundTrip(map[], a.csID, 3, NO_FIELDS, body, chunk);
    assert NEW.data + body[..0] == [] && body[0..] == body;
  }

  /** In front of the first chunk or behind the last one nothing is interrupted. */
  lemma OneAfterTheOther(a: Message, b: Message, n: nat, tail: seq<Byte>, chunk: nat)
    requires Fits(a) && Fits(b) && chunk > 0
    ensures n == 0 ==> ReadTwice(Interleaved(a, b, n, tail, chunk), chunk) == Batch([b, a], tail)
    ensures Carried(a, n, chunk) == |a.data| ==>
              ReadTwice(Interleaved(a, b, n, tail, chunk), chunk) == Batch([a, b], tail)
  {
    if n == 0 {
      InFront(a, b, tail, chunk);
      ReadsBoth(Interleaved(a, b, n, tail, chunk), b, a, tail, chunk);
    } else if Carried(a, n, chunk) == |a.data| {
      Behind(a, b, n, tail, chunk);
      ReadsBoth(Interleaved(a, b, n, tail, chunk), a, b, tail, chunk);
    }
  }

  lemma InFront(a: Message, b: Message, tail: seq<Byte>, chunk: nat)
    requires chunk > 0
    ensures Interleaved(a, b, 0, tail, chunk) == Chunks(b, chunk) + (Chunks(a, chunk) + tail)
  {
    assert Interleaved(a, b, 0, tail, chunk) == [] + (Chunks(b, chunk) + (Chunks(a, chunk) + tail));
  }

  lemma Behind(a: Message, b: Message, n: nat, tail: seq<Byte>, chunk: nat)
    requires chunk > 0 && |a.data| > 0 && Carried(a, n, chunk) == |a.data|
    ensures Interleaved(a, b, n, tail, chunk) == Chunks(a, chunk) + (Chunks(b, chunk) + tail)
  {
    CutAnywhere(a, n, chunk);
    assert LaterChunks(a, |a.data|, chunk) == [];
    assert [] + tail == tail && FirstChunks(a, n, chunk) + [] == FirstChunks(a, n, chunk);
  }

  lemma ReadsBoth(s: seq<Byte>, m: Message, m': Message, tail: seq<Byte>, chunk: nat)
    requires Fits(m) && Fits(m') && chunk > 0 && s == Chunks(m, chunk) + (Chunks(m', chunk) + tail)
    ensures ReadTwice(s, chunk) == Batch([m, m'], tail)
  {
    ReadUndoesWrite(m, map[], Chunks(m', chunk) + tail, chunk);
    ReadUndoesWrite(m', map[], tail, chunk);
  }

  /** Wherever `b` is put between the chunks of `a`: both come back exactly if no message is interrupted. */
  lemma InterleavingExactly(a: Message, b: Message, n: nat, tail: seq<Byte>, chunk: nat)
    requires Fits(a) && Fits(b) && chunk > 0
    ensures var r := ReadTwice(Interleaved(a, b, n, tail, chunk), chunk);
            r == Batch([a, b], tail) || r == Batch([b, a], tail) <==> n == 0 || Carried(a, n, chunk) == |a.data|
  {
    if n > 0 && Carried(a, n, chunk) < |a.data| {
      InterruptedMessageIsLost(a, b, n, tail, chunk);
      var r := ReadTwice(Interleaved(a, b, n, tail, chunk), chunk);
      assert r.msgs[1].data == [] && a.data != [] && b.data != [];
    } else {
      OneAfterTheOther(a, b, n, tail, chunk);
    }
  }

  // ---------------------------------------------------------------- the reader

  /** A connection being read: `pos` bytes of the stream have been taken. */
  class Connection {
    const input: seq<Byte>
    const chunkSize: nat
    var pos: nat

    constructor (input: seq<Byte>, chunkSize: nat)
      ensures this.input == input && this.chunkSize == chunkSize && pos == 0
    {
      this.input, this.chunkSize, pos := input, chunkSize, 0;
    }

    predicate Valid()
      reads this
    {
      pos <= |input|
    }

    function Ahead(): seq<Byte>
      requires Valid()
      reads this
    {
      input[pos..]
    }

    /** All of the next `n` bytes, or none of them when the stream ends first. */
    method ReadFull(n: nat) returns (bs: Option<seq<Byte>>)
      requires Valid()
      modifies this`pos
      ensures Valid()
      ensures n <= |old(Ahead())| ==> bs == Some(old(Ahead())[..n]) && Ahead() == old(Ahead())[n..]
      ensures n > |old(Ahead())| ==> bs == None
    {
      if pos + n > |input| {
        return None;
      }
      bs := Some(input[pos..pos + n]);
      assert input[pos..][..n] == input[pos..pos + n] && input[pos..][n..] == input[pos + n..];
      pos := pos + n;
    }

    method ReadBasicHeader() returns (b: Basic)
      requires Valid()
      modifies this`pos
      ensures Valid() && b == ReadBasic(old(Ahead()))
      ensures b.Basic? ==> Ahead() == old(Ahead())[b.size..]
    {
      ghost var s := Ahead();
      var b1 := ReadFull(1);
      if b1.None? {
        return NoBasic;
      }
      var fmt, low := b1.value[0] / 64, b1.value[0] % 64;
      if low > 1 {
        return Basic(fmt, low, 1);
      }
      var b2 := ReadFull(1);
      if b2.None? {
        return NoBasic;
      }
      assert s[1..][..1][0] == s[1] && s[1..][1..] == s[2..];
      if low == 0 {
        return Basic(fmt, Join16(0, b2.value[0]) + 64, 2);
      }
      var b3 := ReadFull(1);
      if b3.None? {
        return NoBasic;
      }
      assert s[2..][..1][0] == s[2] && s[2..][1..] == s[3..];
      return Basic(fmt, Join16(b3.value[0], b2.value[0]) + 64, 3);
    }

    /** A header of `n` bytes that starts with a time, and the extended time if there is one. */
    method ReadTimed(n: nat) returns (hdr: seq<Byte>, time: Stamp)
      requires Valid() && n >= 3
      modifies this`pos
      ensures Valid() && time == ReadStamp(old(Ahead()), n)
      ensures time.Stamp? ==> hdr == old(Ahead())[..n] && Ahead() == old(Ahead())[time.size..]
    {
      ghost var s := Ahead();
      var h := ReadFull(n);
      if h.None? {
        return [], NoStamp;
      }
      hdr := h.value;
      assert hdr[0] == s[0] && hdr[1] == s[1] && hdr[2] == s[2];
      var field := Join24(hdr[0], hdr[1], hdr[2]);
      if field != 0xFFFFFF {
        return hdr, Stamp(field, n);
      }
      var e := ReadFull(4);
      if e.None? {
        return [], NoStamp;
      }
      var ext := e.value;
      assert ext == s[n..][..4] && ext[0] == s[n] && ext[1] == s[n + 1] && ext[2] == s[n + 2] && ext[3] == s[n + 3];
      return hdr, Stamp(Join32(ext[0], ext[1], ext[2], ext[3]), n + 4);
    }

    method ReadMessageHeader(fmt: Format, st: State) returns (h: Headed)
      requires Valid()
      modifies this`pos
      ensures Valid() && h == ReadHeader(fmt, st, old(Ahead()))
      ensures h.Headed? ==> Ahead() == old(Ahead())[h.size..]
    {
      if fmt == 3 {
        return Headed(st, 0);
      }
      var n := if fmt == 0 then 11 else if fmt == 1 then 7 else 3;
      ghost var s := Ahead();
      var hdr, t := ReadTimed(n);
      if t.NoStamp? {
        return NoHeader;
      }
      assert |hdr| == n && forall k :: 0 <= k < n ==> hdr[k] == s[k];
      var sum := Add32(st.timestamp, t.value);
      if fmt == 2 {
        return Headed(st.(timestamp := sum), t.size);
      }
      var len := Join24(hdr[3], hdr[4], hdr[5]);
      if fmt == 1 {
        return Headed(Reassembly(hdr[6], st.streamID, sum, len, []), t.size);
      }
      var id := Join32(hdr[10], hdr[9], hdr[8], hdr[7]);
      return Headed(Reassembly(hdr[6], id, t.value, len, []), t.size);
    }

    /**
     * Reads until some message is complete. Together with the lemmas on ReadFrom:
     * on the bytes of a written message it returns that message and stops right
     * behind it.
     */
    method ReadMessage() returns (msg: Option<Message>)
      requires Valid()
      modifies this`pos
      ensures Valid()
      ensures match ReadFrom(map[], old(Ahead()), chunkSize)
              case Failure => msg == None
              case Done(m, rest) => msg == Some(m) && Ahead() == rest
    {
      var states: map<nat, State> := map[];
      ghost var s := Ahead();
      while true
        invariant Valid() && ReadFrom(states, Ahead(), chunkSize) == ReadFrom(map[], s, chunkSize)
        decreases |Ahead()|
      {
        var step := NextChunkOf(states);
        match step
        case Failed => return None;
        case Complete(m, rest) => return Some(m);
        case Partial(csID, st, rest) => states := states[csID := st];
      }
    }

    /** One chunk: its headers, then as much of the message as a chunk holds. */
    method NextChunkOf(states: map<nat, State>) returns (step: Step)
      requires Valid()
      modifies this`pos
      ensures Valid() && step == ReadChunk(states, old(Ahead()), chunkSize)
      ensures !step.Failed? ==> Ahead() == step.rest
    {
      ghost var s := Ahead();
      var b := ReadBasicHeader();
      if b.NoBasic? {
        return Failed;
      }
      var st := if b.csID in states then states[b.csID] else NEW;
      var h := ReadMessageHeader(b.fmt, st);
      if h.NoHeader? {
        return Failed;
      }
      assert ReadChunk(states, s, chunkSize) == ReadBody(b.csID, h.state, Ahead(), chunkSize);
      step := ReadChunkData(b.csID, h.state);
    }

    method ReadChunkData(csID: nat, st: State) returns (step: Step)
      requires Valid()
      modifies this`pos
      ensures Valid() && step == ReadBody(csID, st, old(Ahead()), chunkSize)
      ensures !step.Failed? ==> Ahead() == step.rest
    {
      var remaining := st.msgLen - |st.data|;
      var toRead := chunkSize;
      if remaining < chunkSize {
        toRead := remaining;
      }
      var body := ReadFull(toRead);
      if body.None? {
        return Failed;
      }
      var data := st.data + body.value;
      if |data| >= st.msgLen {
        return Complete(Message(csID, st.msgType, st.streamID, st.timestamp, data), Ahead());
      }
      return Partial(csID, st.(data := data), Ahead());
    }
  }
}
