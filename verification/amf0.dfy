/**
 * AMF0 values as the RTMP client writes and reads them (section 2 of the AMF0
 * specification): numbers, booleans, strings, objects and null.
 */
module Amf0 {
  import opened Basics
  import opened Ieee754
  import opened Wire

  datatype Value =
    | Number(bits: Double)
    | Bool(on: bool)
    | Str(text: seq<Byte>)
    | Obj(entries: Entries)
    | Null

  datatype Entries = NoMore | Entry(key: seq<Byte>, value: Value, more: Entries)

  const NUMBER: Byte := 0
  const BOOL: Byte := 1
  const STRING: Byte := 2
  const OBJECT: Byte := 3
  const NULL: Byte := 5
  const OBJECT_END: seq<Byte> := [0, 0, 9]

  // ---------------------------------------------------------------- the encoding

  /** Length prefix and bytes; the prefix has room for 16 bits only. */
  function Utf8(s: seq<Byte>): seq<Byte> {
    BE16(|s|) + s
  }

  function Encoding(v: Value): seq<Byte> {
    match v
    case Number(bits) => [NUMBER] + bits
    case Bool(on) => [BOOL, if on then 1 else 0]
    case Str(text) => [STRING] + Utf8(text)
    case Obj(entries) => [OBJECT] + Body(entries)
    case Null => [NULL]
  }

  /** Key and value of each entry, then the end marker. */
  function Body(es: Entries): seq<Byte> {
    match es
    case NoMore => OBJECT_END
    case Entry(key, value, more) => Utf8(key) + (Encoding(value) + Body(more))
  }

  /** Every string in the value is short enough for its prefix. */
  predicate Fits(v: Value) {
    match v
    case Str(text) => |text| < 65536
    case Obj(entries) => BodyFits(entries)
    case _ => true
  }

  predicate BodyFits(es: Entries) {
    match es
    case NoMore => true
    case Entry(key, value, more) => |key| < 65536 && Fits(value) && BodyFits(more)
  }

  // ---------------------------------------------------------------- skipping

  /** What follows a length-prefixed string. */
  function SkipUtf8(s: seq<Byte>): (r: Option<seq<Byte>>)
    ensures r.Some? ==> |r.value| + 2 <= |s|
  {
    if |s| < 2 then None
    else
      var n := Join16(s[0], s[1]);
      if |s| < 2 + n then None else Some(s[2 + n..])
  }

  /** What follows the value at the start of `s`. */
  function Skip(s: seq<Byte>): (r: Option<seq<Byte>>)
    ensures r.Some? ==> |r.value| < |s|
    decreases |s|, 0
  {
    if |s| == 0 then None
    else if s[0] == NUMBER then (if |s| < 9 then None else Some(s[9..]))
    else if s[0] == BOOL then (if |s| < 2 then None else Some(s[2..]))
    else if s[0] == STRING then SkipUtf8(s[1..])
    else if s[0] == OBJECT then SkipBody(s[1..])
    else if s[0] == NULL then Some(s[1..])
    else None
  }

  predicate AtEnd(s: seq<Byte>) {
    |s| >= 3 && s[0] == 0 && s[1] == 0 && s[2] == 9
  }

  /** What follows the entries of an object and its end marker. */
  function SkipBody(s: seq<Byte>): (r: Option<seq<Byte>>)
    ensures r.Some? ==> |r.value| <= |s|
    decreases |s|, 1
  {
    if |s| < 3 then None
    else if AtEnd(s) then Some(s[3..])
    else
      var key := SkipUtf8(s);
      if key.None? then None
      else
        var value := Skip(key.value);
        if value.None? then None else SkipBody(value.value)
  }

  lemma SkipUtf8Exactly(t: seq<Byte>, tail: seq<Byte>)
    ensures SkipUtf8(Utf8(t) + tail) == Some(tail) <==> |t| < 65536
    ensures |t| < 65536 ==> (Utf8(t) + tail)[2..2 + |t|] == t
  {
    var s := Utf8(t) + tail;
    assert s[0..2] == BE16(|t|) && s[2..] == t + tail;
    JoinAt16(s, 0, |t|);
    SkipPrefixed(s, t, tail);
  }

  lemma SkipPrefixed(s: seq<Byte>, t: seq<Byte>, tail: seq<Byte>)
    requires |s| >= 2 && s[2..] == t + tail && Join16(s[0], s[1]) == |t| % 65536
    ensures SkipUtf8(s) == Some(tail) <==> |t| < 65536
    ensures |t| < 65536 ==> s[2..2 + |t|] == t
  {
    var n := |t| % 65536;
    assert s[2 + n..] == (t + tail)[n..];
    if |t| < 65536 {
      assert s[2..2 + |t|] == (t + tail)[..|t|];
    }
  }

  /** A key is never taken for the end marker: an encoded value starts with its type, which is never 9. */
  lemma EntryIsNotEnd(key: seq<Byte>, v: Value, rest: seq<Byte>)
    requires |key| < 65536
    ensures !AtEnd(Utf8(key) + (Encoding(v) + rest))
    ensures |Utf8(key) + (Encoding(v) + rest)| >= 3
  {
    var s := Utf8(key) + (Encoding(v) + rest);
    assert s[0..2] == BE16(|key|);
    JoinAt16(s, 0, |key|);
    if key == [] {
      assert s[2] == Encoding(v)[0];
    }
  }

  /** Skipping consumes exactly the encoding, whatever comes after it. */
  lemma {:induction false} SkipExactly(v: Value, tail: seq<Byte>)
    requires Fits(v)
    ensures Skip(Encoding(v) + tail) == Some(tail)
    decreases v
  {
    var s := Encoding(v) + tail;
    match v
    case Number(bits) => assert s[9..] == tail;
    case Bool(on) => assert s[2..] == tail;
    case Str(text) =>
      assert s[1..] == Utf8(text) + tail;
      SkipUtf8Exactly(text, tail);
    case Obj(entries) =>
      assert s[1..] == Body(entries) + tail;
      SkipBodyExactly(entries, tail);
    case Null => assert s[1..] == tail;
  }

  lemma {:induction false} SkipBodyExactly(es: Entries, tail: seq<Byte>)
    requires BodyFits(es)
    ensures SkipBody(Body(es) + tail) == Some(tail)
    decreases es
  {
    var s := Body(es) + tail;
    match es
    case NoMore => assert s[3..] == tail;
    case Entry(key, value, more) =>
      var rest := Body(more) + tail;
      assert s == Utf8(key) + (Encoding(value) + rest);
      EntryIsNotEnd(key, value, rest);
      SkipUtf8Exactly(key, Encoding(value) + rest);
      SkipExactly(value, rest);
      SkipBodyExactly(more, tail);
  }

  /** A top-level string survives exactly when its length fits the prefix. */
  lemma StringSkippedExactly(text: seq<Byte>, tail: seq<Byte>)
    ensures Skip(Encoding(Str(text)) + tail) == Some(tail) <==> |text| < 65536
  {
    var s := Encoding(Str(text)) + tail;
    assert s[1..] == Utf8(text) + tail;
    SkipUtf8Exactly(text, tail);
  }

  lemma SkipUtf8Extends(s: seq<Byte>, r: seq<Byte>)
    requires SkipUtf8(s).Some?
    ensures SkipUtf8(s + r) == Some(SkipUtf8(s).value + r)
  {
    var n := Join16(s[0], s[1]);
    assert (s + r)[2 + n..] == s[2 + n..] + r;
  }

  /** What comes behind a value that can be skipped makes no difference. */
  lemma {:induction false} SkipExtends(s: seq<Byte>, r: seq<Byte>)
    requires Skip(s).Some?
    ensures Skip(s + r) == Some(Skip(s).value + r)
    decreases |s|, 0
  {
    assert (s + r)[1..] == s[1..] + r;
    if s[0] == STRING {
      SkipUtf8Extends(s[1..], r);
    } else if s[0] == OBJECT {
      SkipBodyExtends(s[1..], r);
    } else if s[0] == NUMBER {
      assert (s + r)[9..] == s[9..] + r;
    } else if s[0] == BOOL {
      assert (s + r)[2..] == s[2..] + r;
    }
  }

  lemma {:induction false} SkipBodyExtends(s: seq<Byte>, r: seq<Byte>)
    requires SkipBody(s).Some?
    ensures SkipBody(s + r) == Some(SkipBody(s).value + r)
    decreases |s|, 1
  {
    if AtEnd(s) {
      assert (s + r)[3..] == s[3..] + r;
    } else {
      var key := SkipUtf8(s).value;
      SkipUtf8Extends(s, r);
      SkipExtends(key, r);
      SkipBodyExtends(Skip(key).value, r);
      assert (s + r)[0] == s[0] && (s + r)[1] == s[1] && (s + r)[2] == s[2];
    }
  }

  /** A value that is cut off anywhere is rejected. */
  lemma CutValueIsRejected(v: Value, n: nat)
    requires Fits(v) && n < |Encoding(v)|
    ensures Skip(Encoding(v)[..n]) == None
  {
    var e := Encoding(v);
    var s, r := e[..n], e[n..];
    assert s + r == e && e + [] == e;
    SkipExactly(v, []);
    if Skip(s).Some? {
      SkipExtends(s, r);
      assert false;
    }
  }

  /** So is everything that starts with a marker other than these five. */
  lemma OtherMarkersAreRejected(s: seq<Byte>)
    requires s != [] && s[0] != 0 && s[0] != 1 && s[0] != 2 && s[0] != 3 && s[0] != 5
    ensures Skip(s) == None
  {
  }

  /** No two values share an encoding, and none is the start of another's. */
  lemma {:induction false} EncodingIsUnique(v: Value, w: Value, t: seq<Byte>, u: seq<Byte>)
    requires Fits(v) && Fits(w) && Encoding(v) + t == Encoding(w) + u
    ensures v == w && t == u
    decreases v
  {
    SkipExactly(v, t);
    SkipExactly(w, u);
    assert |Encoding(v)| == |Encoding(w)|;
    var s := Encoding(v) + t;
    assert s[..|Encoding(v)|] == Encoding(v) == Encoding(w);
    assert Encoding(v)[0] == Encoding(w)[0];
    match v
    case Number(bits) => assert Encoding(v)[1..] == bits && Encoding(w)[1..] == w.bits;
    case Bool(on) => assert Encoding(v)[1] == Encoding(w)[1];
    case Str(text) => assert Encoding(v)[3..] == text && Encoding(w)[3..] == w.text;
    case Obj(entries) =>
      assert Encoding(v)[1..] == Body(entries) && Encoding(w)[1..] == Body(w.entries);
      BodyIsUnique(entries, w.entries, [], []);
    case Null =>
  }

  /** The end marker is at the front of exactly the encodings without entries. */
  lemma AtEndExactly(es: Entries, t: seq<Byte>)
    requires BodyFits(es)
    ensures AtEnd(Body(es) + t) <==> es.NoMore?
  {
    if es.Entry? {
      EntryIsNotEnd(es.key, es.value, Body(es.more) + t);
      assert Body(es) + t == Utf8(es.key) + (Encoding(es.value) + (Body(es.more) + t));
    }
  }

  lemma {:induction false} BodyIsUnique(d: Entries, e: Entries, t: seq<Byte>, u: seq<Byte>)
    requires BodyFits(d) && BodyFits(e) && Body(d) + t == Body(e) + u
    ensures d == e
    decreases d
  {
    AtEndExactly(d, t);
    AtEndExactly(e, u);
    if d.Entry? {
      EntryIsUnique(d, e, t, u);
      BodyIsUnique(d.more, e.more, t, u);
    }
  }

  lemma EntryIsUnique(d: Entries, e: Entries, t: seq<Byte>, u: seq<Byte>)
    requires d.Entry? && e.Entry? && BodyFits(d) && BodyFits(e) && Body(d) + t == Body(e) + u
    ensures d.key == e.key && d.value == e.value && Body(d.more) + t == Body(e.more) + u
    decreases d, 0
  {
    var p, q := Encoding(d.value) + (Body(d.more) + t), Encoding(e.value) + (Body(e.more) + u);
    assert Utf8(d.key) + p == Body(d) + t && Utf8(e.key) + q == Body(e) + u;
    SkipUtf8Exactly(d.key, p);
    SkipUtf8Exactly(e.key, q);
    assert |d.key| == |e.key|;
    EncodingIsUnique(d.value, e.value, Body(d.more) + t, Body(e.more) + u);
  }

  /** The bytes of each kind of value: its marker first, lengths in two bytes, and an object ended by 00 00 09. */
  lemma EncodingTells(v: Value)
    ensures var e := Encoding(v);
            match v
            case Number(bits) => |e| == 9 && e[0] == 0 && e[1..] == bits
            case Bool(on) => |e| == 2 && e[0] == 1 && (e[1] == 1 <==> on)
            case Str(text) => |e| == 3 + |text| && e[0] == 2 && e[3..] == text
                              && (|text| < 65536 ==> Join16(e[1], e[2]) == |text|)
            case Obj(entries) => |e| >= 4 && e[0] == 3 && e[|e| - 3..] == [0, 0, 9]
            case Null => e == [5]
  {
    match v
    case Str(text) => JoinBE16(|text|);
    case Obj(entries) => BodyEnds(entries);
    case _ =>
  }

  lemma {:induction false} BodyEnds(es: Entries)
    ensures |Body(es)| >= 3 && Body(es)[|Body(es)| - 3..] == [0, 0, 9]
    decreases es
  {
    if es.Entry? {
      BodyEnds(es.more);
      var head, tail := Utf8(es.key) + Encoding(es.value), Body(es.more);
      assert Body(es) == head + tail;
      assert (head + tail)[|head + tail| - 3..] == tail[|tail| - 3..];
    }
  }

  lemma Prefixed(p: seq<Byte>, s: seq<Byte>, rest: seq<Byte>, b: seq<Byte>)
    requires |p| == 2 && b == (p + s) + rest
    ensures |b| == 2 + |s| + |rest| && b[0..2] == p && b[2..2 + |s|] == s && b[2 + |s|..] == rest
  {
  }

  /** An object's bytes: each entry's key behind its length, then its value, in their order. */
  lemma BodyTells(key: seq<Byte>, value: Value, more: Entries)
    requires |key| < 65536
    ensures var b, n := Body(Entry(key, value, more)), |key|;
            && |b| == 2 + n + |Encoding(value)| + |Body(more)|
            && Join16(b[0], b[1]) == n && b[2..2 + n] == key && b[2 + n..] == Encoding(value) + Body(more)
  {
    var b, rest := Body(Entry(key, value, more)), Encoding(value) + Body(more);
    assert b == (BE16(|key|) + key) + rest;
    Prefixed(BE16(|key|), key, rest, b);
    SmallAt16(b, 0, |key|);
  }

  // ---------------------------------------------------------------- the writer

  /** A buffer after the entries have been written to it one by one, the object still open. */
  function Append(buf: seq<Byte>, es: Entries): seq<Byte>
    decreases es
  {
    match es
    case NoMore => buf
    case Entry(key, value, more) => Append(buf + Utf8(key) + Encoding(value), more)
  }

  /** Closing the object makes the entries its body. */
  lemma {:induction false} AppendThenEnd(buf: seq<Byte>, es: Entries)
    ensures Append(buf, es) + OBJECT_END == buf + Body(es)
    decreases es
  {
    if es.Entry? {
      var key, value, tail := Utf8(es.key), Encoding(es.value), Body(es.more);
      AppendThenEnd(buf + key + value, es.more);
      AppendStep(buf + key, value, tail);
      AppendStep(buf, key, value + tail);
    }
  }

  class AmfWriter {
    var buf: seq<Byte>

    constructor ()
      ensures buf == []
    {
      buf := [];
    }

    method WriteNumber(bits: Double)
      modifies this
      ensures buf == old(buf) + Encoding(Number(bits))
    {
      buf := buf + [NUMBER];
      buf := buf + bits;
    }

    method WriteBool(v: bool)
      modifies this
      ensures buf == old(buf) + Encoding(Bool(v))
    {
      buf := buf + [BOOL];
      if v {
        buf := buf + [1];
      } else {
        buf := buf + [0];
      }
    }

    method WriteString(s: seq<Byte>)
      modifies this
      ensures buf == old(buf) + Encoding(Str(s))
    {
      buf := buf + [STRING];
      WriteUtf8(s);
    }

    method WriteUtf8(s: seq<Byte>)
      modifies this
      ensures buf == old(buf) + Utf8(s)
    {
      buf := buf + BE16(|s|);
      buf := buf + s;
    }

    method WriteNull()
      modifies this
      ensures buf == old(buf) + Encoding(Null)
    {
      buf := buf + [NULL];
    }

    method WriteObjectStart()
      modifies this
      ensures buf == old(buf) + [OBJECT]
    {
      buf := buf + [OBJECT];
    }

    /** Anything that is not a number, string or boolean is written as null. */
    method WriteObjectEntry(key: seq<Byte>, value: Value)
      modifies this
      ensures buf == old(buf) + Utf8(key) + Encoding(if value.Obj? then Null else value)
    {
      WriteUtf8(key);
      match value
      case Number(bits) => WriteNumber(bits);
      case Str(text) => WriteString(text);
      case Bool(on) => WriteBool(on);
      case _ => WriteNull();
    }

    method WriteObjectEnd()
      modifies this
      ensures buf == old(buf) + OBJECT_END
    {
      buf := buf + OBJECT_END;
    }
  }

  // ---------------------------------------------------------------- the reader

  datatype Read<T> = Got(value: T) | Eof | WrongType

  class AmfReader {
    const data: seq<Byte>
    var pos: nat

    constructor (data: seq<Byte>)
      ensures this.data == data && pos == 0 && Valid() && Ahead() == data
    {
      this.data, pos := data, 0;
      new;
      assert data[0..] == data;
    }

    predicate Valid()
      reads this
    {
      pos <= |data|
    }

    function Ahead(): seq<Byte>
      requires Valid()
      reads this
    {
      data[pos..]
    }

    method ReadMarker() returns (m: Read<Byte>)
      requires Valid()
      modifies this
      ensures Valid()
      ensures old(Ahead()) == [] ==> m == Eof && pos == old(pos)
      ensures old(Ahead()) != [] ==> m == Got(old(Ahead())[0]) && Ahead() == old(Ahead())[1..]
    {
      if pos >= |data| {
        return Eof;
      }
      m := Got(data[pos]);
      pos := pos + 1;
    }

    /** The string behind a length prefix; nothing past the end is touched when there is less. */
    method ReadUtf8() returns (r: Read<seq<Byte>>)
      requires Valid()
      modifies this
      ensures Valid() && !r.WrongType?
      ensures r.Got? <==> SkipUtf8(old(Ahead())).Some?
      ensures r.Got? ==> SkipUtf8(old(Ahead())) == Some(Ahead())
                         && 2 + |r.value| <= |old(Ahead())| && r.value == old(Ahead())[2..2 + |r.value|]
                         && |r.value| + |Ahead()| + 2 == |old(Ahead())|
    {
      ghost var s := Ahead();
      if pos + 2 > |data| {
        return Eof;
      }
      var length := Join16(data[pos], data[pos + 1]);
      assert length == Join16(s[0], s[1]);
      pos := pos + 2;
      if pos + length > |data| {
        return Eof;
      }
      r := Got(data[pos..pos + length]);
      assert s[2..2 + length] == data[pos..pos + length];
      pos := pos + length;
    }

    method SkipUtf8String() returns (ok: bool)
      requires Valid()
      modifies this
      ensures Valid() && ok == SkipUtf8(old(Ahead())).Some?
      ensures ok ==> SkipUtf8(old(Ahead())) == Some(Ahead())
    {
      ghost var s := Ahead();
      if pos + 2 > |data| {
        return false;
      }
      var length := Join16(data[pos], data[pos + 1]);
      assert length == Join16(s[0], s[1]);
      pos := pos + 2;
      if pos + length > |data| {
        return false;
      }
      pos := pos + length;
      return true;
    }

    method ReadString() returns (r: Read<seq<Byte>>)
      requires Valid()
      modifies this
      ensures Valid()
      ensures r.Got? <==> old(Ahead()) != [] && old(Ahead())[0] == STRING && Skip(old(Ahead())).Some?
      ensures r.Got? ==> Skip(old(Ahead())) == Some(Ahead()) && |r.value| + 3 + |Ahead()| == |old(Ahead())|
                         && r.value == old(Ahead())[3..3 + |r.value|]
    {
      var m := ReadMarker();
      if m.Eof? {
        return Eof;
      }
      if m.value != STRING {
        return WrongType;
      }
      r := ReadUtf8();
    }

    method ReadNumber() returns (r: Read<Double>)
      requires Valid()
      modifies this
      ensures Valid()
      ensures r.Got? <==> |old(Ahead())| >= 9 && old(Ahead())[0] == NUMBER
      ensures r.Got? ==> Ahead() == old(Ahead())[9..] && r.value == old(Ahead())[1..9]
    {
      var m := ReadMarker();
      if m.Eof? {
        return Eof;
      }
      if m.value != NUMBER {
        return WrongType;
      }
      if pos + 8 > |data| {
        return Eof;
      }
      r := Got(data[pos..pos + 8]);
      pos := pos + 8;
    }

    /** Skips one value, however deeply nested; on any input it stops, never past the end. */
    method SkipValue() returns (ok: bool)
      requires Valid()
      modifies this
      ensures Valid() && ok == Skip(old(Ahead())).Some?
      ensures ok ==> Skip(old(Ahead())) == Some(Ahead())
      decreases |Ahead()|, 0
    {
      var m := ReadMarker();
      if m.Eof? {
        return false;
      }
      if m.value == NUMBER {
        if pos + 8 > |data| {
          return false;
        }
        pos := pos + 8;
        return true;
      } else if m.value == BOOL {
        if pos + 1 > |data| {
          return false;
        }
        pos := pos + 1;
        return true;
      } else if m.value == STRING {
        ok := SkipUtf8String();
      } else if m.value == OBJECT {
        ok := SkipEntries();
      } else {
        return m.value == NULL;
      }
    }

    method SkipEntries() returns (ok: bool)
      requires Valid()
      modifies this
      ensures Valid() && ok == SkipBody(old(Ahead())).Some?
      ensures ok ==> SkipBody(old(Ahead())) == Some(Ahead())
      decreases |Ahead()|, 1
    {
      ghost var s := Ahead();
      while true
        invariant Valid() && SkipBody(Ahead()) == SkipBody(s) && |Ahead()| <= |s|
        decreases |Ahead()|
      {
        if pos + 3 > |data| {
          return false;
        }
        if data[pos] == 0 && data[pos + 1] == 0 && data[pos + 2] == 9 {
          pos := pos + 3;
          return true;
        }
        ok := SkipUtf8String();
        if !ok {
          return;
        }
        ok := SkipValue();
        if !ok {
          return;
        }
      }
    }
  }

  // ---------------------------------------------------------------- commands

  datatype Command = Command(name: seq<Byte>, txn: Double, rest: seq<Byte>) | BadCommand

  /** A name, a transaction number, and whatever comes after them. */
  function CommandOf(s: seq<Byte>): Command {
    if s == [] || s[0] != STRING then BadCommand
    else
      var after := SkipUtf8(s[1..]);
      if after.None? || |after.value| < 9 || after.value[0] != NUMBER then BadCommand
      else Command(s[3..|s| - |after.value|], after.value[1..9], after.value[9..])
  }

  method ParseCommand(data: seq<Byte>) returns (c: Command)
    ensures c == CommandOf(data)
  {
    var r := new AmfReader(data);
    var cmd := r.ReadString();
    if !cmd.Got? {
      return BadCommand;
    }
    ghost var b := r.Ahead();
    assert |cmd.value| + 3 == |data| - |b|;
    var txn := r.ReadNumber();
    if !txn.Got? {
      return BadCommand;
    }
    c := Command(cmd.value, txn.value, r.data[r.pos..]);
  }

  /** The name, the number and the rest are recovered exactly when the name's length fits its prefix. */
  lemma CommandRoundTrip(name: seq<Byte>, txn: Double, tail: seq<Byte>)
    ensures CommandOf(Encoding(Str(name)) + (Encoding(Number(txn)) + tail)) == Command(name, txn, tail) <==>
              |name| < 65536
  {
    var b := Encoding(Number(txn)) + tail;
    var s := Encoding(Str(name)) + b;
    assert s[1..] == Utf8(name) + b;
    SkipUtf8Exactly(name, b);
    assert b[1..9] == txn && b[9..] == tail;
    if |name| < 65536 {
      assert s[3..|s| - |b|] == name;
    } else if CommandOf(s).Command? {
      ShortString(s[1..]);
    }
  }

  /** A string read back has a 16-bit length. */
  lemma ShortString(s: seq<Byte>)
    ensures SkipUtf8(s).Some? ==> |s| - |SkipUtf8(s).value| - 2 < 65536
  {
  }

  /** The stream number in the answer to createStream: properties or null, then a number. */
  function StreamIdOf(s: seq<Byte>): Option<Double> {
    if s == [] || (s[0] != NULL && s[0] != OBJECT) then None
    else
      var after := if s[0] == NULL then Some(s[1..]) else SkipBody(s[1..]);
      if after.None? || |after.value| < 9 || after.value[0] != NUMBER then None
      else Some(after.value[1..9])
  }

  /** `otherwise` is what the platform makes of a number that is no 32-bit integer. */
  method ParseStreamID(data: seq<Byte>, otherwise: U32) returns (id: Option<U32>)
    ensures match StreamIdOf(data)
            case None => id == None
            case Some(d) => id == if ToUint32(d).Some? then ToUint32(d) else Some(otherwise)
  {
    var r := new AmfReader(data);
    var m := r.ReadMarker();
    if !m.Got? {
      return None;
    }
    if m.value == OBJECT {
      var ok := r.SkipEntries();
      if !ok {
        return None;
      }
    } else if m.value != NULL {
      return None;
    }
    var v := r.ReadNumber();
    if !v.Got? {
      return None;
    }
    var n := ToUint32(v.value);
    id := if n.Some? then n else Some(otherwise);
  }

  /** The stream id a server sends, behind null or any properties, is the one that is read. */
  lemma StreamIdRoundTrip(props: Value, id: U32, tail: seq<Byte>)
    requires Fits(props) && (props.Null? || props.Obj?)
    ensures var d := StreamIdOf(Encoding(props) + (Encoding(Number(DoubleOf(id))) + tail));
            d.Some? && ToUint32(d.value) == Some(id)
  {
    StreamNumberRoundTrip(props, DoubleOf(id), tail);
    IntegersComeBack(id);
  }

  lemma StreamNumberRoundTrip(props: Value, id: Double, tail: seq<Byte>)
    requires Fits(props) && (props.Null? || props.Obj?)
    ensures StreamIdOf(Encoding(props) + (Encoding(Number(id)) + tail)) == Some(id)
  {
    var b := Encoding(Number(id)) + tail;
    SkipExactly(props, b);
    assert b[1..9] == id;
  }

  // Numbers as they are written.

  const ZERO: Double := [0, 0, 0, 0, 0, 0, 0, 0]
  const ONE: Double := [0x3F, 0xF0, 0, 0, 0, 0, 0, 0]
  const TWO: Double := [0x40, 0, 0, 0, 0, 0, 0, 0]
  const FIFTEEN: Double := [0x40, 0x2E, 0, 0, 0, 0, 0, 0]
  const H264_CODEC: Double := [0x40, 0x60, 0, 0, 0, 0, 0, 0]

  function ConnectProperties(app: seq<Byte>, host: seq<Byte>): Entries {
    Entry(Ascii("app"), Str(app),
    Entry(Ascii("flashVer"), Str(Ascii("WIN.0,0,0,0")),
    Entry(Ascii("tcUrl"), Str(Ascii("rtmp://") + host + Ascii("/") + app),
    MediaProperties())))
  }

  function MediaProperties(): Entries {
    Entry(Ascii("fpad"), Bool(false),
    Entry(Ascii("capabilities"), Number(FIFTEEN),
    Entry(Ascii("audioCodecs"), Number(ZERO),
    Entry(Ascii("videoCodecs"), Number(H264_CODEC),
    Entry(Ascii("videoFunction"), Number(ONE), NoMore)))))
  }

  /** The value that an object has under a key. */
  function Lookup(es: Entries, key: seq<Byte>): Option<Value> {
    match es
    case NoMore => None
    case Entry(k, value, more) => if k == key then Some(value) else Lookup(more, key)
  }

  const COLON: Byte := 58

  /** An address up to its first colon. */
  function HostOf(addr: seq<Byte>): (host: seq<Byte>)
    ensures COLON !in host
  {
    if addr == [] || addr[0] == COLON then [] else [addr[0]] + HostOf(addr[1..])
  }

  /** A host with its port; one that has colons itself is put in brackets. */
  function JoinHostPort(host: seq<Byte>, port: seq<Byte>): seq<Byte> {
    if COLON in host then Ascii("[") + host + Ascii("]:") + port else host + [COLON] + port
  }

  lemma {:induction false} HostEndsAtColon(host: seq<Byte>, rest: seq<Byte>)
    requires COLON !in host
    ensures HostOf(host + [COLON] + rest) == host
  {
    var addr := host + [COLON] + rest;
    if host != [] {
      HostEndsAtColon(host[1..], rest);
      assert addr[1..] == host[1..] + [COLON] + rest;
    }
  }

  /** The host that is cut from an address is the one it was joined from, unless that has colons, as in IPv6. */
  lemma HostComesBackExactly(host: seq<Byte>, port: seq<Byte>)
    ensures HostOf(JoinHostPort(host, port)) == host <==> COLON !in host
  {
    if COLON !in host {
      HostEndsAtColon(host, port);
    }
  }

  /** What a server finds in the properties of connect. */
  lemma ConnectTells(app: seq<Byte>, host: seq<Byte>)
    ensures var es := ConnectProperties(app, host);
            && Lookup(es, Ascii("app")) == Some(Str(app))
            && Lookup(es, Ascii("flashVer")) == Some(Str(Ascii("WIN.0,0,0,0")))
            && Lookup(es, Ascii("tcUrl")) == Some(Str(Ascii("rtmp://") + host + [47] + app))
            && Lookup(es, Ascii("fpad")) == Some(Bool(false))
  {
    KeysDiffer();
    var url := Ascii("rtmp://") + host + Ascii("/") + app;
    assert Ascii("/") == [47];
    var third := Entry(Ascii("tcUrl"), Str(url), MediaProperties());
    var second := Entry(Ascii("flashVer"), Str(Ascii("WIN.0,0,0,0")), third);
    assert Lookup(third, Ascii("fpad")) == Lookup(MediaProperties(), Ascii("fpad")) == Some(Bool(false));
    assert Lookup(second, Ascii("fpad")) == Lookup(third, Ascii("fpad"));
    assert Lookup(second, Ascii("tcUrl")) == Lookup(third, Ascii("tcUrl"));
  }

  lemma MediaTells()
    ensures var es := MediaProperties();
            && Lookup(es, Ascii("capabilities")) == Some(Number(DoubleOf(15)))
            && Lookup(es, Ascii("audioCodecs")) == Some(Number(DoubleOf(0)))
            && Lookup(es, Ascii("videoCodecs")) == Some(Number(DoubleOf(128)))
            && Lookup(es, Ascii("videoFunction")) == Some(Number(DoubleOf(1)))
  {
    NumbersWritten();
    MediaKeys();
  }

  lemma MediaKeys()
    ensures var es := MediaProperties();
            && Lookup(es, Ascii("capabilities")) == Some(Number(FIFTEEN))
            && Lookup(es, Ascii("audioCodecs")) == Some(Number(ZERO))
            && Lookup(es, Ascii("videoCodecs")) == Some(Number(H264_CODEC))
            && Lookup(es, Ascii("videoFunction")) == Some(Number(ONE))
  {
    assert |Ascii("fpad")| == 4 && |Ascii("capabilities")| == 12 && |Ascii("audioCodecs")| == 11;
    assert |Ascii("videoCodecs")| == 11 && |Ascii("videoFunction")| == 13;
    assert Ascii("audioCodecs")[0] == 97 && Ascii("videoCodecs")[0] == 118;
  }

  lemma KeysDiffer()
    ensures |Ascii("app")| == 3 && |Ascii("flashVer")| == 8 && |Ascii("tcUrl")| == 5 && |Ascii("fpad")| == 4
  {
  }

  lemma NumbersWritten()
    ensures ZERO == DoubleOf(0) && ONE == DoubleOf(1) && TWO == DoubleOf(2)
    ensures FIFTEEN == DoubleOf(15) && H264_CODEC == DoubleOf(128)
  {
    ZeroOnTheWire();
    OneOnTheWire();
    TwoOnTheWire();
    FifteenOnTheWire();
    CodecOnTheWire();
  }

  lemma WrittenCommand(name: seq<Byte>, txn: Double, args: seq<Byte>)
    requires |name| < 65536
    ensures CommandOf(Encoding(Str(name)) + Encoding(Number(txn)) + args) == Command(name, txn, args)
  {
    CommandRoundTrip(name, txn, args);
    assert Encoding(Str(name)) + Encoding(Number(txn)) + args == Encoding(Str(name)) + (Encoding(Number(txn)) + args);
  }

  method WriteConnect(app: seq<Byte>, addr: seq<Byte>) returns (payload: seq<Byte>)
    ensures var properties := Obj(ConnectProperties(app, HostOf(addr)));
            && payload
               == Encoding(Str(Ascii("connect"))) + Encoding(Number(ONE)) + Encoding(properties) + Encoding(Obj(NoMore))
            && CommandOf(payload)
               == Command(Ascii("connect"), DoubleOf(1), Encoding(properties) + Encoding(Obj(NoMore)))
  {
    var host := HostOf(addr);
    payload := ConnectPayload(Ascii("connect"), app, host);
    ConnectParses(Encoding(Obj(ConnectProperties(app, host))), Encoding(Obj(NoMore)));
  }

  method ConnectPayload(name: seq<Byte>, app: seq<Byte>, host: seq<Byte>) returns (payload: seq<Byte>)
    ensures payload == Encoding(Str(name)) + Encoding(Number(ONE))
                       + Encoding(Obj(ConnectProperties(app, host))) + Encoding(Obj(NoMore))
  {
    var w := new AmfWriter();
    w.WriteString(name);
    w.WriteNumber(ONE);
    WriteConnectObject(w, app, host);
    WriteEmptyObject(w);
    payload := w.buf;
  }

  lemma ConnectParses(a: seq<Byte>, b: seq<Byte>)
    ensures CommandOf(Encoding(Str(Ascii("connect"))) + Encoding(Number(ONE)) + a + b)
         == Command(Ascii("connect"), DoubleOf(1), a + b)
  {
    OneOnTheWire();
    WrittenCommand(Ascii("connect"), ONE, a + b);
    var head := Encoding(Str(Ascii("connect"))) + Encoding(Number(ONE));
    assert head + a + b == head + (a + b);
  }

  method WriteEmptyObject(w: AmfWriter)
    modifies w
    ensures w.buf == old(w.buf) + Encoding(Obj(NoMore))
  {
    ghost var first := w.buf;
    w.WriteObjectStart();
    w.WriteObjectEnd();
    assert w.buf == first + Encoding(Obj(NoMore));
  }

  method WriteConnectObject(w: AmfWriter, app: seq<Byte>, host: seq<Byte>)
    modifies w
    ensures w.buf == old(w.buf) + Encoding(Obj(ConnectProperties(app, host)))
  {
    ghost var head := w.buf;
    w.WriteObjectStart();
    WriteConnectEntries(w, app, host);
    w.WriteObjectEnd();
    ObjectIsWritten(head, ConnectProperties(app, host));
  }

  lemma ObjectIsWritten(head: seq<Byte>, es: Entries)
    ensures Append(head + [OBJECT], es) + OBJECT_END == head + Encoding(Obj(es))
  {
    AppendThenEnd(head + [OBJECT], es);
    assert head + [OBJECT] + Body(es) == head + ([OBJECT] + Body(es));
  }

  method WriteConnectEntries(w: AmfWriter, app: seq<Byte>, host: seq<Byte>)
    modifies w
    ensures w.buf == Append(old(w.buf), ConnectProperties(app, host))
  {
    var name, version, url := Ascii("app"), Ascii("flashVer"), Ascii("tcUrl");
    var player, address := Ascii("WIN.0,0,0,0"), Ascii("rtmp://") + host + Ascii("/") + app;
    ghost var last := Entry(url, Str(address), MediaProperties());
    ghost var b := w.buf;
    w.WriteObjectEntry(name, Str(app));
    w.WriteObjectEntry(version, Str(player));
    assert Append(w.buf, last) == Append(b, Entry(name, Str(app), Entry(version, Str(player), last)));
    w.WriteObjectEntry(url, Str(address));
    assert Append(w.buf, MediaProperties()) == Append(b, ConnectProperties(app, host));
    WriteMediaEntries(w);
  }

  method WriteMediaEntries(w: AmfWriter)
    modifies w
    ensures w.buf == Append(old(w.buf), MediaProperties())
  {
    var pad, caps, audio, video, functions :=
      Ascii("fpad"), Ascii("capabilities"), Ascii("audioCodecs"), Ascii("videoCodecs"), Ascii("videoFunction");
    ghost var last := Entry(functions, Number(ONE), NoMore);
    ghost var media := Entry(caps, Number(FIFTEEN), Entry(audio, Number(ZERO), Entry(video, Number(H264_CODEC), last)));
    w.WriteObjectEntry(pad, Bool(false));
    ghost var b := w.buf;
    w.WriteObjectEntry(caps, Number(FIFTEEN));
    w.WriteObjectEntry(audio, Number(ZERO));
    w.WriteObjectEntry(video, Number(H264_CODEC));
    assert Append(w.buf, last) == Append(b, media);
    w.WriteObjectEntry(functions, Number(ONE));
    assert Append(w.buf, NoMore) == Append(b, media);
  }

  lemma CreateStreamParses()
    ensures CommandOf(Encoding(Str(Ascii("createStream"))) + Encoding(Number(TWO)) + Encoding(Null))
         == Command(Ascii("createStream"), DoubleOf(2), Encoding(Null))
  {
    TwoOnTheWire();
    WrittenCommand(Ascii("createStream"), TWO, Encoding(Null));
  }

  method WriteCreateStream() returns (payload: seq<Byte>)
    ensures payload == Encoding(Str(Ascii("createStream"))) + Encoding(Number(TWO)) + Encoding(Null)
    ensures CommandOf(payload) == Command(Ascii("createStream"), DoubleOf(2), Encoding(Null))
  {
    var w := new AmfWriter();
    w.WriteString(Ascii("createStream"));
    w.WriteNumber(TWO);
    w.WriteNull();
    payload := w.buf;
    CreateStreamParses();
  }

  lemma ThreeArguments(name: seq<Byte>, txn: Double, a: seq<Byte>, b: seq<Byte>, c: seq<Byte>)
    requires |name| < 65536
    ensures CommandOf(Encoding(Str(name)) + Encoding(Number(txn)) + a + b + c) == Command(name, txn, a + b + c)
  {
    WrittenCommand(name, txn, a + b + c);
    var head := Encoding(Str(name)) + Encoding(Number(txn));
    assert head + a + b + c == head + (a + b + c);
  }

  method WritePublish(streamKey: seq<Byte>) returns (payload: seq<Byte>)
    ensures var a, b, c := Encoding(Null), Encoding(Str(streamKey)), Encoding(Str(Ascii("live")));
            && payload == Encoding(Str(Ascii("publish"))) + Encoding(Number(ZERO)) + a + b + c
            && CommandOf(payload) == Command(Ascii("publish"), DoubleOf(0), a + b + c)
  {
    payload := PublishPayload(Ascii("publish"), streamKey, Ascii("live"));
    ThreeArguments(Ascii("publish"), ZERO, Encoding(Null), Encoding(Str(streamKey)), Encoding(Str(Ascii("live"))));
    ZeroOnTheWire();
  }

  method PublishPayload(name: seq<Byte>, streamKey: seq<Byte>, kind: seq<Byte>) returns (payload: seq<Byte>)
    ensures payload == Encoding(Str(name)) + Encoding(Number(ZERO)) + Encoding(Null)
                       + Encoding(Str(streamKey)) + Encoding(Str(kind))
  {
    var w := new AmfWriter();
    w.WriteString(name);
    w.WriteNumber(ZERO);
    w.WriteNull();
    w.WriteString(streamKey);
    w.WriteString(kind);
    payload := w.buf;
  }
}
