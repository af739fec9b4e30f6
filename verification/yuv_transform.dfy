/**
 * Device-level transforms of YU12 frames: a luma plane followed by two chroma
 * planes of half size, rounded up. Quarter turns go through a scratch buffer
 * that trades places with the frame; flips work in place.
 */
module YuvTransform {
  import opened Basics
  import opened PlaneAlgebra
  import Transpose

  function Half(n: nat): nat {
    (n + 1) / 2
  }

  function ChromaSize(w: nat, h: nat): nat {
    Half(h) * Half(w)
  }

  function FrameSize(w: nat, h: nat): nat {
    h * w + 2 * ChromaSize(w, h)
  }

  lemma HalfTurned(w: nat, h: nat)
    ensures ChromaSize(h, w) == ChromaSize(w, h) && FrameSize(h, w) == FrameSize(w, h)
  {
  }

  // ---------------------------------------------------------------- specification on frames

  function LumaOf(f: seq<Byte>, w: nat, h: nat): seq<Byte>
    requires |f| == FrameSize(w, h)
  {
    f[..h * w]
  }

  function UOf(f: seq<Byte>, w: nat, h: nat): seq<Byte>
    requires |f| == FrameSize(w, h)
  {
    f[h * w..h * w + ChromaSize(w, h)]
  }

  function VOf(f: seq<Byte>, w: nat, h: nat): seq<Byte>
    requires |f| == FrameSize(w, h)
  {
    f[h * w + ChromaSize(w, h)..]
  }

  /** A plane turned clockwise by a multiple of 90 degrees; other angles leave it alone. */
  function TurnPlane(s: seq<Byte>, w: nat, h: nat, rotation: int): seq<Byte> {
    if rotation == 90 then Rot90(s, w, h)
    else if rotation == 180 then Rot180(s, w, h)
    else if rotation == 270 then Rot270(s, w, h)
    else s
  }

  function TurnedDims(w: nat, h: nat, rotation: int): (nat, nat) {
    if rotation == 90 || rotation == 270 then (h, w) else (w, h)
  }

  /** Every plane of the frame turned. */
  function TurnFrame(f: seq<Byte>, w: nat, h: nat, rotation: int): seq<Byte>
    requires |f| == FrameSize(w, h)
  {
    TurnPlane(LumaOf(f, w, h), w, h, rotation)
    + TurnPlane(UOf(f, w, h), Half(w), Half(h), rotation)
    + TurnPlane(VOf(f, w, h), Half(w), Half(h), rotation)
  }

  /** Every plane of the frame mirrored. */
  function FlipFrame(f: seq<Byte>, w: nat, h: nat, hflip: bool, vflip: bool): (g: seq<Byte>)
    requires |f| == FrameSize(w, h)
    ensures |g| == |f|
  {
    Flip(LumaOf(f, w, h), w, h, hflip, vflip)
    + Flip(UOf(f, w, h), Half(w), Half(h), hflip, vflip)
    + Flip(VOf(f, w, h), Half(w), Half(h), hflip, vflip)
  }

  lemma PlanesOf(y: seq<Byte>, u: seq<Byte>, v: seq<Byte>, w: nat, h: nat)
    requires |y| == h * w && |u| == |v| == ChromaSize(w, h)
    ensures LumaOf(y + u + v, w, h) == y && UOf(y + u + v, w, h) == u && VOf(y + u + v, w, h) == v
  {
  }

  lemma PlanesJoin(f: seq<Byte>, w: nat, h: nat)
    requires |f| == FrameSize(w, h)
    ensures f == LumaOf(f, w, h) + UOf(f, w, h) + VOf(f, w, h)
    ensures |LumaOf(f, w, h)| == h * w && |UOf(f, w, h)| == |VOf(f, w, h)| == ChromaSize(w, h)
  {
  }

  lemma TurnFrameSize(f: seq<Byte>, w: nat, h: nat, rotation: int)
    requires |f| == FrameSize(w, h)
    ensures |TurnFrame(f, w, h, rotation)| == |f|
  {
    PlanesJoin(f, w, h);
    HalfTurned(w, h);
  }

  // ---------------------------------------------------------------- the plan

  function ComposeRotationFlips(rotation: int, hflip: bool, vflip: bool): (int, bool, bool) {
    if rotation == 180 then (0, !hflip, !vflip)
    else if rotation == 90 || rotation == 270 then (rotation, hflip, vflip)
    else (0, hflip, vflip)
  }

  lemma HalfTurnPlane(s: seq<Byte>, w: nat, h: nat, hflip: bool, vflip: bool)
    requires |s| == h * w
    ensures Flip(s, w, h, !hflip, !vflip) == Flip(Rot180(s, w, h), w, h, hflip, vflip)
  {
    HalfTurnIsBothFlips(s, w, h);
    FlipsCompose(s, w, h, true, true, hflip, vflip);
  }

  lemma HalfTurnFrame(f: seq<Byte>, w: nat, h: nat, hflip: bool, vflip: bool)
    requires |f| == FrameSize(w, h)
    ensures |TurnFrame(f, w, h, 180)| == FrameSize(w, h)
    ensures FlipFrame(f, w, h, !hflip, !vflip) == FlipFrame(TurnFrame(f, w, h, 180), w, h, hflip, vflip)
  {
    PlanesJoin(f, w, h);
    HalfTurnPlane(LumaOf(f, w, h), w, h, hflip, vflip);
    HalfTurnPlane(UOf(f, w, h), Half(w), Half(h), hflip, vflip);
    HalfTurnPlane(VOf(f, w, h), Half(w), Half(h), hflip, vflip);
    PlanesOf(Rot180(LumaOf(f, w, h), w, h), Rot180(UOf(f, w, h), Half(w), Half(h)),
             Rot180(VOf(f, w, h), Half(w), Half(h)), w, h);
  }

  /** No flips: the frame is unchanged. */
  lemma NoFlipFrame(f: seq<Byte>, w: nat, h: nat)
    requires |f| == FrameSize(w, h)
    ensures FlipFrame(f, w, h, false, false) == f
  {
    PlanesJoin(f, w, h);
    FlipsCompose(LumaOf(f, w, h), w, h, false, false, false, false);
    FlipsCompose(UOf(f, w, h), Half(w), Half(h), false, false, false, false);
    FlipsCompose(VOf(f, w, h), Half(w), Half(h), false, false, false, false);
  }

  /**
   * The plan is right: turning by the plan's angle and flipping by the plan's
   * flags is turning by the requested angle and then flipping as requested.
   */
  lemma PlanIsRotateThenFlip(f: seq<Byte>, w: nat, h: nat, rotation: int, hflip: bool, vflip: bool)
    requires |f| == FrameSize(w, h)
    ensures var (rot, hf, vf) := ComposeRotationFlips(rotation, hflip, vflip);
            var (fw, fh) := TurnedDims(w, h, rotation);
            && TurnedDims(w, h, rot) == (fw, fh)
            && |TurnFrame(f, w, h, rot)| == |TurnFrame(f, w, h, rotation)| == FrameSize(fw, fh)
            && FlipFrame(TurnFrame(f, w, h, rot), fw, fh, hf, vf)
               == FlipFrame(TurnFrame(f, w, h, rotation), fw, fh, hflip, vflip)
  {
    var rot := ComposeRotationFlips(rotation, hflip, vflip).0;
    TurnFrameSize(f, w, h, rot);
    TurnFrameSize(f, w, h, rotation);
    HalfTurned(w, h);
    PlanesJoin(f, w, h);
    if rotation == 180 {
      assert TurnFrame(f, w, h, 0) == f;
      HalfTurnFrame(f, w, h, hflip, vflip);
    }
  }

  /** Turning back and forth restores the frame. */
  lemma TurnBack(f: seq<Byte>, w: nat, h: nat)
    requires |f| == FrameSize(w, h)
    ensures |TurnFrame(f, w, h, 90)| == |TurnFrame(f, w, h, 270)| == FrameSize(h, w)
    ensures TurnFrame(TurnFrame(f, w, h, 90), h, w, 270) == f
    ensures TurnFrame(TurnFrame(f, w, h, 270), h, w, 90) == f
  {
    HalfTurned(w, h);
    PlanesJoin(f, w, h);
    var y, u, v, cw, ch := LumaOf(f, w, h), UOf(f, w, h), VOf(f, w, h), Half(w), Half(h);
    TurnBackPlane(y, w, h);
    TurnBackPlane(u, cw, ch);
    TurnBackPlane(v, cw, ch);
    PlanesOf(Rot90(y, w, h), Rot90(u, cw, ch), Rot90(v, cw, ch), h, w);
    PlanesOf(Rot270(y, w, h), Rot270(u, cw, ch), Rot270(v, cw, ch), h, w);
  }

  lemma TurnBackPlane(s: seq<Byte>, w: nat, h: nat)
    requires |s| == h * w
    ensures Rot270(Rot90(s, w, h), h, w) == s && Rot90(Rot270(s, w, h), h, w) == s
  {
    Rot270UndoesRot90(s, w, h);
    Rot90UndoesRot270(s, w, h);
  }

  // ---------------------------------------------------------------- where every pixel comes from

  /** The pixel of the `w` by `h` plane `s` that is at (x, y) once it is turned clockwise and then mirrored. */
  function MovedPixel(s: seq<Byte>, w: nat, h: nat, rotation: int, hflip: bool, vflip: bool, x: int, y: int): Byte {
    if rotation == 90 then
      At(s, w, if vflip then w - 1 - y else y, if hflip then x else h - 1 - x)
    else if rotation == 270 then
      At(s, w, if vflip then y else w - 1 - y, if hflip then h - 1 - x else x)
    else if rotation == 180 then
      At(s, w, if hflip then x else w - 1 - x, if vflip then y else h - 1 - y)
    else
      At(s, w, if hflip then w - 1 - x else x, if vflip then h - 1 - y else y)
  }

  /** `t` is that plane, pixel by pixel; after a quarter turn it is `h` wide. */
  predicate PlaneMoved(t: seq<Byte>, s: seq<Byte>, w: nat, h: nat, rotation: int, hflip: bool, vflip: bool) {
    if rotation == 90 || rotation == 270 then
      forall x, y :: 0 <= x < h && 0 <= y < w ==> At(t, h, x, y) == MovedPixel(s, w, h, rotation, hflip, vflip, x, y)
    else
      forall x, y :: 0 <= x < w && 0 <= y < h ==> At(t, w, x, y) == MovedPixel(s, w, h, rotation, hflip, vflip, x, y)
  }

  /** So is every plane of the frame `g`: luma, then both chroma planes of half the size. */
  predicate FrameMoved(g: seq<Byte>, f: seq<Byte>, w: nat, h: nat, rotation: int, hflip: bool, vflip: bool) {
    var y, c := h * w, Half(h) * Half(w);
    && |g| == |f| == y + c + c
    && PlaneMoved(g[..y], f[..y], w, h, rotation, hflip, vflip)
    && PlaneMoved(g[y..y + c], f[y..y + c], Half(w), Half(h), rotation, hflip, vflip)
    && PlaneMoved(g[y + c..], f[y + c..], Half(w), Half(h), rotation, hflip, vflip)
  }

  lemma PixelMoves(s: seq<Byte>, w: nat, h: nat, rotation: int, hflip: bool, vflip: bool, x: nat, y: nat)
    requires x < TurnedDims(w, h, rotation).0 && y < TurnedDims(w, h, rotation).1
    ensures var (tw, th) := TurnedDims(w, h, rotation);
            At(Flip(TurnPlane(s, w, h, rotation), tw, th, hflip, vflip), tw, x, y)
            == MovedPixel(s, w, h, rotation, hflip, vflip, x, y)
  {
    var (tw, th) := TurnedDims(w, h, rotation);
    FlipAt(TurnPlane(s, w, h, rotation), tw, th, hflip, vflip, x, y);
    TurnAt(s, w, h, rotation, Mirror(hflip, tw, x), Mirror(vflip, th, y));
  }

  lemma TurnAt(s: seq<Byte>, w: nat, h: nat, rotation: int, x: nat, y: nat)
    requires x < TurnedDims(w, h, rotation).0 && y < TurnedDims(w, h, rotation).1
    ensures At(TurnPlane(s, w, h, rotation), TurnedDims(w, h, rotation).0, x, y)
         == MovedPixel(s, w, h, rotation, false, false, x, y)
  {
    if rotation == 90 {
      Rot90At(s, w, h, x, y);
    } else if rotation == 270 {
      Rot270At(s, w, h, x, y);
    } else if rotation == 180 {
      Rot180At(s, w, h, x, y);
    }
  }

  lemma PlaneMoves(s: seq<Byte>, w: nat, h: nat, rotation: int, hflip: bool, vflip: bool)
    ensures var (tw, th) := TurnedDims(w, h, rotation);
            PlaneMoved(Flip(TurnPlane(s, w, h, rotation), tw, th, hflip, vflip), s, w, h, rotation, hflip, vflip)
  {
    var (tw, th) := TurnedDims(w, h, rotation);
    forall x, y | 0 <= x < tw && 0 <= y < th
      ensures At(Flip(TurnPlane(s, w, h, rotation), tw, th, hflip, vflip), tw, x, y)
           == MovedPixel(s, w, h, rotation, hflip, vflip, x, y)
    {
      PixelMoves(s, w, h, rotation, hflip, vflip, x, y);
    }
  }

  /** Turning a frame and then mirroring it moves every pixel of every plane to where it should be. */
  lemma FrameMoves(f: seq<Byte>, w: nat, h: nat, rotation: int, hflip: bool, vflip: bool)
    requires |f| == FrameSize(w, h)
    ensures var (tw, th) := TurnedDims(w, h, rotation);
            && |TurnFrame(f, w, h, rotation)| == FrameSize(tw, th)
            && FrameMoved(FlipFrame(TurnFrame(f, w, h, rotation), tw, th, hflip, vflip), f, w, h,
                          rotation, hflip, vflip)
  {
    var (tw, th) := TurnedDims(w, h, rotation);
    var y, u, v, cw, ch := LumaOf(f, w, h), UOf(f, w, h), VOf(f, w, h), Half(w), Half(h);
    TurnedPlanes(f, w, h, rotation, tw, th);
    PlaneMoves(y, w, h, rotation, hflip, vflip);
    PlaneMoves(u, cw, ch, rotation, hflip, vflip);
    PlaneMoves(v, cw, ch, rotation, hflip, vflip);
    PlanesJoin(f, w, h);
    SizesCommute(w, h);
    HalfTurned(w, h);
    MovedPlanes(f, y, u, v,
                Flip(TurnPlane(y, w, h, rotation), tw, th, hflip, vflip),
                Flip(TurnPlane(u, cw, ch, rotation), Half(tw), Half(th), hflip, vflip),
                Flip(TurnPlane(v, cw, ch, rotation), Half(tw), Half(th), hflip, vflip),
                w, h, rotation, hflip, vflip);
  }

  lemma TurnMoves(f: seq<Byte>, w: nat, h: nat, rotation: int)
    requires |f| == FrameSize(w, h)
    ensures FrameMoved(TurnFrame(f, w, h, rotation), f, w, h, rotation, false, false)
  {
    var (tw, th) := TurnedDims(w, h, rotation);
    FrameMoves(f, w, h, rotation, false, false);
    NoFlipFrame(TurnFrame(f, w, h, rotation), tw, th);
  }

  lemma FlipMoves(f: seq<Byte>, w: nat, h: nat, hflip: bool, vflip: bool)
    requires |f| == FrameSize(w, h)
    ensures FrameMoved(FlipFrame(f, w, h, hflip, vflip), f, w, h, 0, hflip, vflip)
  {
    PlanesJoin(f, w, h);
    assert TurnFrame(f, w, h, 0) == f;
    FrameMoves(f, w, h, 0, hflip, vflip);
  }

  lemma TurnedPlanes(f: seq<Byte>, w: nat, h: nat, rotation: int, tw: nat, th: nat)
    requires |f| == FrameSize(w, h) && (tw, th) == TurnedDims(w, h, rotation)
    ensures var g := TurnFrame(f, w, h, rotation);
            && |g| == FrameSize(tw, th)
            && LumaOf(g, tw, th) == TurnPlane(LumaOf(f, w, h), w, h, rotation)
            && UOf(g, tw, th) == TurnPlane(UOf(f, w, h), Half(w), Half(h), rotation)
            && VOf(g, tw, th) == TurnPlane(VOf(f, w, h), Half(w), Half(h), rotation)
  {
    PlanesJoin(f, w, h);
    TurnFrameSize(f, w, h, rotation);
    HalfTurned(w, h);
    PlanesOf(TurnPlane(LumaOf(f, w, h), w, h, rotation), TurnPlane(UOf(f, w, h), Half(w), Half(h), rotation),
             TurnPlane(VOf(f, w, h), Half(w), Half(h), rotation), tw, th);
  }

  lemma MovedPlanes(f: seq<Byte>, y: seq<Byte>, u: seq<Byte>, v: seq<Byte>,
                    y': seq<Byte>, u': seq<Byte>, v': seq<Byte>,
                    w: nat, h: nat, rotation: int, hflip: bool, vflip: bool)
    requires f == y + u + v && |y| == |y'| == h * w && |u| == |u'| == |v| == |v'| == Half(h) * Half(w)
    requires PlaneMoved(y', y, w, h, rotation, hflip, vflip)
    requires PlaneMoved(u', u, Half(w), Half(h), rotation, hflip, vflip)
    requires PlaneMoved(v', v, Half(w), Half(h), rotation, hflip, vflip)
    ensures FrameMoved(y' + u' + v', f, w, h, rotation, hflip, vflip)
  {
    SlicesOfThree(y, u, v, h * w, Half(h) * Half(w));
    SlicesOfThree(y', u', v', h * w, Half(h) * Half(w));
  }

  lemma SlicesOfThree(y: seq<Byte>, u: seq<Byte>, v: seq<Byte>, n: nat, c: nat)
    requires |y| == n && |u| == |v| == c
    ensures var g := y + u + v;
            |g| == n + c + c && g[..n] == y && g[n..n + c] == u && g[n + c..] == v
  {
  }

  // ---------------------------------------------------------------- buffers

  /** Luma size, chroma width and height, and chroma size. */
  method PlaneSizes(width: nat, height: nat) returns (ySize: nat, cw: nat, ch: nat, cSize: nat)
    ensures cw == Half(width) && ch == Half(height)
    ensures ySize == height * width && cSize == ch * cw == ChromaSize(width, height)
    ensures FrameSize(width, height) == ySize + cSize + cSize
  {
    SizesCommute(width, height);
    ySize, cw, ch := width * height, (width + 1) / 2, (height + 1) / 2;
    cSize := cw * ch;
  }

  /** The three transposes of a rotation. */
  method RotatePlanes(src: array<Byte>, out: array<Byte>, width: nat, height: nat, clockwise: bool)
    requires src != out && FrameSize(width, height) <= src.Length && FrameSize(width, height) <= out.Length
    modifies out
    ensures var n := FrameSize(width, height);
            out[..n] == TurnFrame(src[..n], width, height, if clockwise then 90 else 270)
  {
    var ySize := width * height;
    var cw, ch := (width + 1) / 2, (height + 1) / 2;
    var cSize := cw * ch;
    SizesCommute(width, height);
    TransposeThree(src, out, ySize, ySize + cSize, ySize + cSize + cSize, width, height, cw, ch, clockwise);
    SlicesAreThePlanes(src[..], width, height, ySize, cSize);
    assert src[..][..ySize + 2 * cSize] == src[..ySize + 2 * cSize];
  }

  lemma SlicesAreThePlanes(s: seq<Byte>, w: nat, h: nat, ySize: nat, cSize: nat)
    requires ySize == h * w && cSize == ChromaSize(w, h) && FrameSize(w, h) <= |s|
    ensures var f := s[..FrameSize(w, h)];
            && s[0..ySize] == LumaOf(f, w, h)
            && s[ySize..ySize + cSize] == UOf(f, w, h)
            && s[ySize + cSize..ySize + cSize + cSize] == VOf(f, w, h)
  {
  }

  /** Three planes, at offsets 0, `u` and `v`, the last one ending at `n`. */
  method TransposeThree(src: array<Byte>, out: array<Byte>, u: nat, v: nat, ghost n: nat,
                        width: nat, height: nat, cw: nat, ch: nat, clockwise: bool)
    requires src != out && u == width * height && v == u + cw * ch && n == v + cw * ch
    requires n <= src.Length && n <= out.Length
    modifies out
    ensures out[..n] ==
            Transpose.Turned(src[..][0..u], width, height, clockwise)
            + Transpose.Turned(src[..][u..v], cw, ch, clockwise)
            + Transpose.Turned(src[..][v..n], cw, ch, clockwise)
  {
    ghost var o, s := out[..], src[..];
    Turn(src, 0, out, 0, width, height, clockwise, u);
    ghost var a := out[..];
    assert src[..] == s;
    Turn(src, u, out, u, cw, ch, clockwise, v);
    ghost var b := out[..];
    assert src[..] == s;
    Turn(src, v, out, v, cw, ch, clockwise, n);
    assert src[..] == s;
    SpliceThree(o, a, b, out[..],
                Transpose.Turned(s[0..u], width, height, clockwise),
                Transpose.Turned(s[u..v], cw, ch, clockwise),
                Transpose.Turned(s[v..n], cw, ch, clockwise), u, v, n);
    assert out[..n] == out[..][..n];
  }

  method Turn(src: array<Byte>, soff: nat, dst: array<Byte>, doff: nat, pw: nat, ph: nat, clockwise: bool,
              ghost end: nat)
    requires src != dst && soff == doff && end == soff + pw * ph && end <= src.Length && end <= dst.Length
    modifies dst
    ensures dst[..] == Splice(old(dst[..]), doff, Transpose.Turned(src[..][soff..end], pw, ph, clockwise))
  {
    ghost var o, s := dst[..], src[..];
    assert s[soff..end] == src[soff..end];
    Transpose.TransposePlane(src, soff, dst, doff, pw, ph, clockwise);
    IsSplice(o, dst[..], doff, end, Transpose.Turned(s[soff..end], pw, ph, clockwise));
  }

  lemma IsSplice(o: seq<Byte>, c: seq<Byte>, at: nat, end: nat, t: seq<Byte>)
    requires at + |t| == end <= |o| && c == o[..at] + t + o[end..]
    ensures c == Splice(o, at, t)
  {
  }

  lemma SizesCommute(width: nat, height: nat)
    ensures height * width == width * height
    ensures Half(height) * Half(width) == Half(width) * Half(height) == ChromaSize(width, height)
    ensures FrameSize(width, height) == width * height + 2 * (Half(width) * Half(height))
  {
  }

  /** Overwriting three neighbouring stretches of a buffer, one after the other. */
  lemma SpliceThree(o: seq<Byte>, a: seq<Byte>, b: seq<Byte>, c: seq<Byte>,
                    y: seq<Byte>, u: seq<Byte>, v: seq<Byte>, i: nat, j: nat, n: nat)
    requires i == |y| && j == i + |u| && n == j + |v| <= |o|
    requires a == Splice(o, 0, y) && b == Splice(a, i, u) && c == Splice(b, j, v)
    ensures |c| == |o| && c[..n] == y + u + v
  {
  }

  /** A frame is there to be turned by a quarter. */
  predicate Turns(size: nat, width: nat, height: nat, rotation: int) {
    (rotation == 90 || rotation == 270) && 0 < width && 0 < height && size >= FrameSize(width, height)
  }

  /**
   * On return `buf'` holds the turned frame in the old scratch (or a new buffer)
   * and `scratch'` is the old frame. A buffer that is too short is left untouched,
   * but the returned sizes are swapped all the same; of one that is longer than the
   * frame only the front is turned.
   */
  method RotateYU12(buf: Slice, scratch: Slice, width: nat, height: nat, rotation: int)
    returns (buf': Slice, scratch': Slice, w: nat, h: nat)
    requires buf.Valid() && scratch.Valid() && buf.buf != scratch.buf
    modifies scratch.buf
    ensures buf'.Valid() && scratch'.Valid() && buf'.buf != scratch'.buf
    ensures buf'.buf == buf.buf || buf'.buf == scratch.buf || fresh(buf'.buf)
    ensures if Turns(buf.len, width, height, rotation)
            then scratch' == buf && buf'.buf.Length == Max(buf.len, scratch.buf.Length)
            else scratch' == scratch && buf' == buf
    ensures (w, h) == if rotation == 90 || rotation == 270 then (height, width) else (width, height)
    ensures buf'.len == buf.len
    ensures var f, n := old(buf.Bytes()), FrameSize(width, height);
            if buf.len >= n && (rotation == 90 || rotation == 270)
            then buf'.Bytes()[..n] == TurnFrame(f[..n], width, height, rotation) else buf'.Bytes() == f
    ensures var f, n := old(buf.Bytes()), FrameSize(width, height);
            Turns(buf.len, width, height, rotation) ==>
              FrameMoved(buf'.Bytes()[..n], f[..n], width, height, rotation, false, false)
  {
    ghost var n := FrameSize(width, height);
    if Turns(buf.len, width, height, rotation) {
      TurnMoves(buf.Bytes()[..n], width, height, rotation);
    }
    if rotation != 90 && rotation != 270 {
      return buf, scratch, width, height;
    }
    var clockwise := rotation == 90;
    var ySize, cw, ch, cSize := PlaneSizes(width, height);
    ghost var f := buf.Bytes();
    if width == 0 || height == 0 || buf.len < ySize + 2 * cSize {
      if width == 0 || height == 0 {
        EmptyFrame(f, width, height, rotation);
      }
      return buf, scratch, height, width;
    }
    var out := scratch.buf;
    if out.Length < buf.len {
      out := new Byte[buf.len](_ => 0);
    }
    RotatePlanes(buf.buf, out, width, height, clockwise);
    buf', scratch', w, h := Slice(out, buf.len), buf, height, width;
    FrontOf(buf.buf[..], buf.len, FrameSize(width, height));
    FrontOf(out[..], buf.len, FrameSize(width, height));
  }

  lemma FrontOf(a: seq<Byte>, len: nat, n: nat)
    requires n <= len <= |a|
    ensures a[..len][..n] == a[..n]
  {
  }

  /** A frame with no pixels is its own turn. */
  lemma EmptyFrame(f: seq<Byte>, w: nat, h: nat, rotation: int)
    requires w == 0 || h == 0
    ensures FrameSize(w, h) == 0 && TurnFrame(f[..0], w, h, rotation) == f[..0]
  {
    NoPixels(w, h);
    TurnFrameSize(f[..0], w, h, rotation);
  }

  // ---------------------------------------------------------------- flips in place

  /** Mirrors the `n` bytes at `at` in place. */
  method MirrorRow(p: array<Byte>, at: nat, n: nat)
    requires at + n <= p.Length
    modifies p
    ensures forall i :: 0 <= i < p.Length ==>
              p[i] == if at <= i < at + n then old(p[at + n - 1 - (i - at)]) else old(p[i])
  {
    var i, j := 0, n - 1;
    while i < j
      invariant 0 <= i <= n && j == n - 1 - i
      invariant forall m :: 0 <= m < p.Length ==>
                  p[m] == if at <= m < at + i || at + j < m < at + n
                          then old(p[at + n - 1 - (m - at)]) else old(p[m])
    {
      p[at + i], p[at + j] := p[at + j], p[at + i];
      i, j := i + 1, j - 1;
    }
  }

  /** Copies `n` bytes, reversed when `mirror`; the two stretches do not overlap. */
  method MirrorCopy(dst: array<Byte>, at: nat, src: array<Byte>, from: nat, n: nat, mirror: bool)
    requires at + n <= dst.Length && from + n <= src.Length
    requires dst == src ==> at + n <= from || from + n <= at
    modifies dst
    ensures forall i :: at <= i < at + n ==> dst[i] == old(src[from + Mirror(mirror, n, i - at)])
    ensures forall i :: 0 <= i < dst.Length && !(at <= i < at + n) ==> dst[i] == old(dst[i])
  {
    for k := 0 to n
      invariant forall i :: at <= i < at + k ==> dst[i] == old(src[from + Mirror(mirror, n, i - at)])
      invariant forall i :: 0 <= i < dst.Length && !(at <= i < at + k) ==> dst[i] == old(dst[i])
    {
      dst[at + k] := src[from + (if mirror then n - 1 - k else k)];
    }
  }

  /** Rows below `t` and above `b` of the plane at `off` are flipped, the rest of `o` is as it was. */
  ghost function FlippedRows(o: seq<Byte>, off: nat, w: nat, h: nat, hflip: bool, vflip: bool, t: int, b: int)
    : (r: seq<Byte>)
    requires off + h * w <= |o|
    ensures |r| == |o|
  {
    var f := Flip(o[off..off + h * w], w, h, hflip, vflip);
    seq(|o|, i requires 0 <= i < |o| =>
      if off <= i < off + h * w && w > 0 && ((i - off) / w < t || (i - off) / w > b) then f[i - off] else o[i])
  }

  /** What one byte of the flipped plane `f` is. */
  lemma FlippedByte(s: seq<Byte>, w: nat, h: nat, hflip: bool, vflip: bool, y: nat, x: nat, k: nat, k': int)
    requires |s| == h * w && x < w && y < h
    requires k == y * w + x && k' == Mirror(vflip, h, y) * w + Mirror(hflip, w, x)
    ensures k < h * w && 0 <= k' < h * w && Flip(s, w, h, hflip, vflip)[k] == s[k']
  {
    IndexInRange(w, h, x, y);
    IndexInRange(w, h, Mirror(hflip, w, x), Mirror(vflip, h, y));
    FlipAt(s, w, h, hflip, vflip, x, y);
    assert At(s, w, Mirror(hflip, w, x), Mirror(vflip, h, y)) == s[k'];
    assert At(Flip(s, w, h, hflip, vflip), w, x, y) == Flip(s, w, h, hflip, vflip)[k];
  }

  lemma RowOf(w: nat, h: nat, k: nat, y: nat)
    requires k < h * w && y < h
    ensures w > 0 && (y * w <= k < y * w + w <==> k / w == y)
    ensures k / w < h && k % w < w && k == (k / w) * w + k % w
  {
    IndexSplit(w, h, k);
    var q := k / w;
    if q < y {
      MulStep(q, y, w);
    } else if y < q {
      MulStep(y, q, w);
    }
  }

  /** A byte of row `y` of the flipped plane comes from row `y'`, at `src` in the buffer. */
  lemma FlippedRowByte(o: seq<Byte>, off: nat, w: nat, h: nat, hflip: bool, vflip: bool, y: nat, row: nat, src: nat,
                       i: nat)
    requires off + h * w <= |o| && y < h && row == off + y * w && src == off + Mirror(vflip, h, y) * w
    requires row <= i < row + w
    ensures off <= i < off + h * w && (i - off) / w == y
    ensures 0 <= src + Mirror(hflip, w, i - row) < |o|
    ensures Flip(o[off..off + h * w], w, h, hflip, vflip)[i - off] == o[src + Mirror(hflip, w, i - row)]
  {
    MulStep(y, h, w);
    RowOf(w, h, i - off, y);
    FlippedByte(o[off..off + h * w], w, h, hflip, vflip, y, i - row, i - off, src - off + Mirror(hflip, w, i - row));
  }

  /** Replacing row `t` by its flipped bytes. */
  lemma RowStep(o: seq<Byte>, before: seq<Byte>, after: seq<Byte>, off: nat, w: nat, h: nat, hflip: bool, vflip: bool,
                t: nat, b: int, row: nat, src: nat)
    requires off + h * w <= |o| && t < h && row == off + t * w && src == off + Mirror(vflip, h, t) * w
    requires before == FlippedRows(o, off, w, h, hflip, vflip, t, b) && |after| == |o|
    requires forall i :: 0 <= i < |o| && !(row <= i < row + w) ==> after[i] == before[i]
    requires forall i :: row <= i < row + w && i < |o| && 0 <= src + Mirror(hflip, w, i - row) < |o| ==>
               after[i] == o[src + Mirror(hflip, w, i - row)]
    ensures after == FlippedRows(o, off, w, h, hflip, vflip, t + 1, b)
  {
    var g := FlippedRows(o, off, w, h, hflip, vflip, t + 1, b);
    forall i | 0 <= i < |o| ensures after[i] == g[i] {
      if row <= i < row + w {
        FlippedRowByte(o, off, w, h, hflip, vflip, t, row, src, i);
      } else if off <= i < off + h * w {
        RowOf(w, h, i - off, t);
      }
    }
  }

  /** `t` is `o` with `n` bytes at `at` taken from `from` in `s`, reversed when `mirror`. */
  ghost predicate Copies(o: seq<Byte>, t: seq<Byte>, at: nat, s: seq<Byte>, from: nat, n: nat, mirror: bool) {
    && |t| == |o| && at + n <= |o| && from + n <= |s|
    && (forall i :: at <= i < at + n ==> t[i] == s[from + Mirror(mirror, n, i - at)])
    && (forall i :: 0 <= i < |o| && !(at <= i < at + n) ==> t[i] == o[i])
  }

  method CopyRow(dst: array<Byte>, at: nat, src: array<Byte>, from: nat, n: nat, mirror: bool)
    requires at + n <= dst.Length && from + n <= src.Length
    requires dst == src ==> at + n <= from || from + n <= at
    modifies dst
    ensures Copies(old(dst[..]), dst[..], at, old(src[..]), from, n, mirror)
  {
    MirrorCopy(dst, at, src, from, n, mirror);
  }

  /** One step of the vertical flip: both rows mirrored as asked, and exchanged through `row`. */
  method SwapRows(p: array<Byte>, top: nat, bottom: nat, w: nat, hflip: bool, row: array<Byte>)
    requires top + w <= bottom && bottom + w <= p.Length && row != p && w <= row.Length
    modifies p, row
    ensures IsSwap(old(p[..]), p[..], w, hflip, top, bottom)
  {
    ghost var o, r0 := p[..], row[..];
    CopyRow(row, 0, p, top, w, false);
    ghost var r := row[..];
    CopyRow(p, top, p, bottom, w, hflip);
    ghost var q := p[..];
    CopyRow(p, bottom, row, 0, w, hflip);
    SwapComposes(o, r0, r, q, p[..], w, hflip, top, bottom);
  }

  /** The three copies make up an exchange. */
  lemma SwapComposes(o: seq<Byte>, r0: seq<Byte>, r: seq<Byte>, q: seq<Byte>, c: seq<Byte>, w: nat, hflip: bool,
                     top: nat, bottom: nat)
    requires top + w <= bottom && bottom + w <= |o|
    requires Copies(r0, r, 0, o, top, w, false) && Copies(o, q, top, o, bottom, w, hflip)
    requires Copies(q, c, bottom, r, 0, w, hflip)
    ensures IsSwap(o, c, w, hflip, top, bottom)
  {
    forall i | bottom <= i < bottom + w ensures c[i] == o[top + Mirror(hflip, w, i - bottom)] {
      var m := Mirror(hflip, w, i - bottom);
      assert r[m] == o[top + m];
    }
    forall i | top <= i < top + w ensures c[i] == o[bottom + Mirror(hflip, w, i - top)] {
      assert c[i] == q[i];
    }
    forall i | 0 <= i < |o| && !(top <= i < top + w) && !(bottom <= i < bottom + w) ensures c[i] == o[i] {
      assert c[i] == q[i];
    }
  }

  /** The vertical-flip loop of FlipPlane, with or without mirroring each row. */
  method FlipRows(p: array<Byte>, off: nat, w: nat, h: nat, hflip: bool, row: array<Byte>)
    requires off + h * w <= p.Length && 0 < w <= row.Length && 0 < h && row != p
    modifies p, row
    ensures p[..] == FlippedRows(old(p[..]), off, w, h, hflip, true, h, -1)
  {
    ghost var o := p[..];
    var top, bottom := 0, (h - 1) * w;
    ghost var t: nat, b: int := 0, h - 1;
    FlippedNone(o, off, w, h, hflip, true, h - 1);
    RowOrder(w, h, t, b);
    while top < bottom
      invariant top == t * w && bottom == b * w && b == h - 1 - t && t <= b + 1
      invariant (top < bottom <==> t < b) && (top == bottom <==> t == b)
      invariant p[..] == FlippedRows(o, off, w, h, hflip, true, t, b)
      decreases b
    {
      RowBounds(w, h, t, b);
      FlipPair(p, off, w, h, hflip, t, b, off + top, off + bottom, row, o);
      top, bottom := top + w, bottom - w;
      t, b := t + 1, b - 1;
      RowOrder(w, h, t, b);
    }
    if top == bottom {
      FlipMiddle(p, off, w, h, hflip, t, top, o);
      t := t + 1;
    }
    FlippedDone(o, off, w, h, hflip, true, t, b, h, -1);
  }

  /** One pair of rows, `t` from the top and `b` from the bottom. */
  method FlipPair(p: array<Byte>, off: nat, w: nat, h: nat, hflip: bool, ghost t: nat, ghost b: nat,
                  top: nat, bottom: nat, row: array<Byte>, ghost o: seq<Byte>)
    requires off + h * w <= p.Length == |o| && t < b && b == h - 1 - t && row != p && w <= row.Length
    requires top == off + t * w && bottom == off + b * w && top + w <= bottom && bottom + w <= p.Length
    requires p[..] == FlippedRows(o, off, w, h, hflip, true, t, b)
    modifies p, row
    ensures p[..] == FlippedRows(o, off, w, h, hflip, true, t + 1, b - 1)
  {
    ghost var before := p[..];
    SwapRows(p, top, bottom, w, hflip, row);
    ghost var after := p[..];
    RowsUntouched(o, off, w, h, hflip, true, t, b, t, top);
    RowsUntouched(o, off, w, h, hflip, true, t, b, b, bottom);
    SwapFromOriginal(o, before, after, w, hflip, top, bottom);
    PairStep(o, before, after, off, w, h, hflip, t, b, top, bottom);
  }

  lemma SwapFromOriginal(o: seq<Byte>, before: seq<Byte>, after: seq<Byte>, w: nat, hflip: bool, top: nat, bottom: nat)
    requires |o| == |before| == |after| && top + w <= bottom && bottom + w <= |o|
    requires forall i :: top <= i < top + w ==> before[i] == o[i]
    requires forall i :: bottom <= i < bottom + w ==> before[i] == o[i]
    requires IsSwap(before, after, w, hflip, top, bottom)
    ensures forall i :: top <= i < top + w ==> after[i] == o[bottom + Mirror(hflip, w, i - top)]
    ensures forall i :: bottom <= i < bottom + w ==> after[i] == o[top + Mirror(hflip, w, i - bottom)]
  {
    forall i | top <= i < top + w ensures after[i] == o[bottom + Mirror(hflip, w, i - top)] {
      var m := bottom + Mirror(hflip, w, i - top);
      assert before[m] == o[m];
    }
    forall i | bottom <= i < bottom + w ensures after[i] == o[top + Mirror(hflip, w, i - bottom)] {
      var m := top + Mirror(hflip, w, i - bottom);
      assert before[m] == o[m];
    }
  }

  /** Two rows exchanged, each mirrored if asked; everything else kept. */
  ghost predicate IsSwap(before: seq<Byte>, after: seq<Byte>, w: nat, hflip: bool, top: nat, bottom: nat)
    requires |before| == |after| && top + w <= bottom && bottom + w <= |before|
  {
    && (forall i :: top <= i < top + w ==> after[i] == before[bottom + Mirror(hflip, w, i - top)])
    && (forall i :: bottom <= i < bottom + w ==> after[i] == before[top + Mirror(hflip, w, i - bottom)])
    && (forall i :: 0 <= i < |after| && !(top <= i < top + w) && !(bottom <= i < bottom + w) ==> after[i] == before[i])
  }

  /** With an odd number of rows, the one in the middle stays and is just mirrored. */
  method FlipMiddle(p: array<Byte>, off: nat, w: nat, h: nat, hflip: bool, ghost t: nat, top: nat, ghost o: seq<Byte>)
    requires off + h * w <= p.Length == |o| && t < h && t == h - 1 - t && top == t * w
    requires p[..] == FlippedRows(o, off, w, h, hflip, true, t, t)
    modifies p
    ensures p[..] == FlippedRows(o, off, w, h, hflip, true, t + 1, t)
  {
    ghost var before := p[..];
    MulStep(t, h, w);
    if hflip {
      MirrorRow(p, off + top, w);
    }
    MiddleStep(o, before, p[..], off, w, h, hflip, t, off + top);
  }

  lemma RowBounds(w: nat, h: nat, t: nat, b: int)
    requires t < b < h
    ensures t * w + w <= b * w && b * w + w <= h * w
    ensures (t + 1) * w == t * w + w && (b - 1) * w == b * w - w
  {
    MulStep(t, b, w);
    MulStep(b, h, w);
  }

  lemma RowOrder(w: nat, h: nat, t: nat, b: int)
    requires 0 < w && t <= b + 2
    ensures t * w < b * w <==> t < b
    ensures t * w == b * w <==> t == b
  {
    if t < b {
      MulStep(t, b, w);
    } else if 0 <= b < t {
      MulStep(b, t, w);
    } else if b < 0 {
      NegativeRow(w, b);
    }
  }

  lemma NegativeRow(w: nat, b: int)
    requires 0 < w && b < 0
    ensures b * w < 0
  {
  }

  lemma FlippedNone(o: seq<Byte>, off: nat, w: nat, h: nat, hflip: bool, vflip: bool, b: int)
    requires off + h * w <= |o| && b >= h - 1
    ensures FlippedRows(o, off, w, h, hflip, vflip, 0, b) == o
  {
    var g := FlippedRows(o, off, w, h, hflip, vflip, 0, b);
    forall i | 0 <= i < |o| ensures g[i] == o[i] {
      FlippedNoByte(o, off, w, h, hflip, vflip, b, i);
    }
  }

  lemma FlippedNoByte(o: seq<Byte>, off: nat, w: nat, h: nat, hflip: bool, vflip: bool, b: int, i: nat)
    requires off + h * w <= |o| && b >= h - 1 && i < |o|
    ensures FlippedRows(o, off, w, h, hflip, vflip, 0, b)[i] == o[i]
  {
    if off <= i < off + h * w {
      var k := i - off;
      IndexSplit(w, h, k);
      assert 0 <= k / w <= b;
    }
  }

  /** Both bounds past each other: every row is flipped. */
  lemma FlippedDone(o: seq<Byte>, off: nat, w: nat, h: nat, hflip: bool, vflip: bool, t: int, b: int, t': int, b': int)
    requires off + h * w <= |o| && t > b && t' > b'
    ensures FlippedRows(o, off, w, h, hflip, vflip, t, b) == FlippedRows(o, off, w, h, hflip, vflip, t', b')
    ensures FlippedRows(o, off, w, h, hflip, vflip, t, b)
         == o[..off] + Flip(o[off..off + h * w], w, h, hflip, vflip) + o[off + h * w..]
  {
    var f := FlippedRows(o, off, w, h, hflip, vflip, t, b);
    var g := FlippedRows(o, off, w, h, hflip, vflip, t', b');
    var p := Flip(o[off..off + h * w], w, h, hflip, vflip);
    forall i | 0 <= i < |o|
      ensures f[i] == g[i] == if off <= i < off + h * w then p[i - off] else o[i]
    {
      if off <= i < off + h * w {
        IndexSplit(w, h, i - off);
      }
    }
  }

  /** Exchanging rows `t` and `b` flips both. */
  lemma PairStep(o: seq<Byte>, before: seq<Byte>, after: seq<Byte>, off: nat, w: nat, h: nat, hflip: bool,
                 t: nat, b: nat, top: nat, bottom: nat)
    requires off + h * w <= |o| == |after| && t < b && b == h - 1 - t
    requires top == off + t * w && bottom == off + b * w && top + w <= bottom && bottom + w <= |o|
    requires before == FlippedRows(o, off, w, h, hflip, true, t, b)
    requires IsSwap(before, after, w, hflip, top, bottom)
    requires forall i :: top <= i < top + w ==> after[i] == o[bottom + Mirror(hflip, w, i - top)]
    requires forall i :: bottom <= i < bottom + w ==> after[i] == o[top + Mirror(hflip, w, i - bottom)]
    ensures after == FlippedRows(o, off, w, h, hflip, true, t + 1, b - 1)
  {
    var g := FlippedRows(o, off, w, h, hflip, true, t + 1, b - 1);
    forall i | 0 <= i < |o| ensures after[i] == g[i] {
      PairByte(o, before[i], after[i], off, w, h, hflip, t, b, top, bottom, i);
    }
  }

  lemma PairByte(o: seq<Byte>, was: Byte, now: Byte, off: nat, w: nat, h: nat, hflip: bool,
                 t: nat, b: nat, top: nat, bottom: nat, i: nat)
    requires off + h * w <= |o| && t < b && b == h - 1 - t && i < |o|
    requires top == off + t * w && bottom == off + b * w && top + w <= bottom && bottom + w <= |o|
    requires was == FlippedRows(o, off, w, h, hflip, true, t, b)[i]
    requires top <= i < top + w ==> now == o[bottom + Mirror(hflip, w, i - top)]
    requires bottom <= i < bottom + w ==> now == o[top + Mirror(hflip, w, i - bottom)]
    requires !(top <= i < top + w) && !(bottom <= i < bottom + w) ==> now == was
    ensures now == FlippedRows(o, off, w, h, hflip, true, t + 1, b - 1)[i]
  {
    if top <= i < top + w {
      RowFlipped(o, off, w, h, hflip, true, t + 1, b - 1, t, top, bottom, i);
    } else if bottom <= i < bottom + w {
      RowFlipped(o, off, w, h, hflip, true, t + 1, b - 1, b, bottom, top, i);
    } else {
      OtherRows(o, off, w, h, hflip, t, b, top, bottom, i);
    }
  }

  /** A byte of a row outside the bounds is the flipped one. */
  lemma RowFlipped(o: seq<Byte>, off: nat, w: nat, h: nat, hflip: bool, vflip: bool, t: int, b: int,
                   y: nat, row: nat, src: nat, i: nat)
    requires off + h * w <= |o| && y < h && (y < t || y > b)
    requires row == off + y * w && src == off + Mirror(vflip, h, y) * w && row <= i < row + w && i < |o|
    ensures 0 <= src + Mirror(hflip, w, i - row) < |o|
    ensures FlippedRows(o, off, w, h, hflip, vflip, t, b)[i] == o[src + Mirror(hflip, w, i - row)]
  {
    FlippedRowByte(o, off, w, h, hflip, vflip, y, row, src, i);
  }

  /** Moving both bounds by one row concerns only the bytes of those two rows. */
  lemma OtherRows(o: seq<Byte>, off: nat, w: nat, h: nat, hflip: bool, t: nat, b: nat, top: nat, bottom: nat, i: nat)
    requires off + h * w <= |o| && t <= b < h && top == off + t * w && bottom == off + b * w && i < |o|
    requires !(top <= i < top + w) && !(bottom <= i < bottom + w)
    ensures FlippedRows(o, off, w, h, hflip, true, t, b)[i] == FlippedRows(o, off, w, h, hflip, true, t + 1, b - 1)[i]
  {
    if off <= i < off + h * w {
      RowOf(w, h, i - off, t);
      RowOf(w, h, i - off, b);
    }
  }

  /** A row between the bounds still holds the original bytes. */
  lemma RowsUntouched(o: seq<Byte>, off: nat, w: nat, h: nat, hflip: bool, vflip: bool, t: int, b: int, y: nat,
                      row: nat)
    requires off + h * w <= |o| && y < h && row == off + y * w && t <= y <= b
    ensures row + w <= |o|
    ensures forall i :: row <= i < row + w ==> FlippedRows(o, off, w, h, hflip, vflip, t, b)[i] == o[i]
  {
    MulStep(y, h, w);
    forall i | row <= i < row + w ensures FlippedRows(o, off, w, h, hflip, vflip, t, b)[i] == o[i] {
      RowOf(w, h, i - off, y);
    }
  }

  lemma MiddleStep(o: seq<Byte>, before: seq<Byte>, after: seq<Byte>, off: nat, w: nat, h: nat, hflip: bool,
                   t: nat, row: nat)
    requires off + h * w <= |o| == |after| && t < h && t == h - 1 - t && row == off + t * w && row + w <= |o|
    requires before == FlippedRows(o, off, w, h, hflip, true, t, t)
    requires forall i :: row <= i < row + w ==> after[i] == before[row + Mirror(hflip, w, i - row)]
    requires forall i :: 0 <= i < |o| && !(row <= i < row + w) ==> after[i] == before[i]
    ensures after == FlippedRows(o, off, w, h, hflip, true, t + 1, t)
  {
    RowsUntouched(o, off, w, h, hflip, true, t, t, t, row);
    forall i | row <= i < row + w ensures after[i] == o[row + Mirror(hflip, w, i - row)] {
    }
    RowStep(o, before, after, off, w, h, hflip, true, t, t, row, row);
  }

  /** The rows, the last one perhaps in part, that `size` bytes take. */
  function Rows(size: nat, w: nat): (r: nat)
    requires 0 < w
    ensures size <= r * w < size + w
  {
    if size == 0 then 0
    else if size <= w then 1
    else
      var r := Rows(size - w, w);
      OneMoreRow(r, w);
      r + 1
  }

  lemma OneMoreRow(r: nat, w: nat)
    ensures (r + 1) * w == r * w + w
  {
  }

  lemma RowsOfPlane(w: nat, h: nat)
    requires 0 < w
    ensures Rows(h * w, w) == h
  {
    var r := Rows(h * w, w);
    if r < h {
      MulStep(r, h, w);
    } else if h < r {
      MulStep(h, r, w);
    }
  }

  /** The horizontal-only loop: each row is mirrored where it is, up to the end of the plane's slice. */
  method MirrorRows(p: array<Byte>, off: nat, size: nat, w: nat, ghost h: nat)
    requires 0 < w && h == Rows(size, w) && off + h * w <= p.Length
    modifies p
    ensures p[..] == FlippedRows(old(p[..]), off, w, h, true, false, h, h - 1)
  {
    ghost var o := p[..];
    FlippedNone(o, off, w, h, true, false, h - 1);
    var at := 0;
    ghost var t: nat := 0;
    while at < size
      invariant at == t * w && t <= h
      invariant p[..] == FlippedRows(o, off, w, h, true, false, t, h - 1)
    {
      RowOrder(w, h, t, h);
      MulStep(t, h, w);
      MirrorNext(p, off, w, h, t, off + at, o);
      at := at + w;
      t := t + 1;
    }
    LastRow(size, w, t);
  }

  lemma LastRow(size: nat, w: nat, t: nat)
    requires 0 < w && size <= t * w && t <= Rows(size, w)
    ensures t == Rows(size, w)
  {
    if t < Rows(size, w) {
      MulStep(t, Rows(size, w), w);
    }
  }

  method MirrorNext(p: array<Byte>, off: nat, w: nat, ghost h: nat, ghost t: nat, row: nat, ghost o: seq<Byte>)
    requires off + h * w <= p.Length == |o| && t < h && row == off + t * w && row + w <= p.Length
    requires p[..] == FlippedRows(o, off, w, h, true, false, t, h - 1)
    modifies p
    ensures p[..] == FlippedRows(o, off, w, h, true, false, t + 1, h - 1)
  {
    ghost var before := p[..];
    MirrorRow(p, row, w);
    MirrorStep(o, before, p[..], off, w, h, t, row);
  }

  lemma MirrorStep(o: seq<Byte>, before: seq<Byte>, after: seq<Byte>, off: nat, w: nat, h: nat, t: nat, row: nat)
    requires off + h * w <= |o| == |after| && t < h && row == off + t * w && row + w <= |o|
    requires before == FlippedRows(o, off, w, h, true, false, t, h - 1)
    requires forall i :: row <= i < row + w ==> after[i] == before[row + w - 1 - (i - row)]
    requires forall i :: 0 <= i < |o| && !(row <= i < row + w) ==> after[i] == before[i]
    ensures after == FlippedRows(o, off, w, h, true, false, t + 1, h - 1)
  {
    RowsUntouched(o, off, w, h, true, false, t, h - 1, t, row);
    RowStep(o, before, after, off, w, h, true, false, t, h - 1, row, row);
  }

  /** The rows a flip goes through in a slice of `size` bytes; only the horizontal flip looks at the size. */
  function RowsFlipped(size: nat, w: nat, h: nat, hflip: bool, vflip: bool): nat
    requires 0 < w
  {
    if hflip && !vflip then Rows(size, w) else h
  }

  /** Flips the plane at `off`, which takes `r` rows up to `end`. */
  method FlipPlane(p: array<Byte>, off: nat, ghost end: nat, size: nat, w: nat, h: nat, ghost r: nat,
                   hflip: bool, vflip: bool, scratch: array<Byte>)
    requires 0 < w <= scratch.Length && 0 < h && scratch != p
    requires r == RowsFlipped(size, w, h, hflip, vflip) && end == off + r * w && end <= p.Length
    modifies p, scratch
    ensures p[..] == Splice(old(p[..]), off, Flip(old(p[..])[off..end], w, r, hflip, vflip))
  {
    if vflip {
      FlipRowsOfPlane(p, off, end, w, h, hflip, scratch);
    } else if hflip {
      MirrorRowsOfPlane(p, off, end, size, w, r);
    } else {
      UnflippedIsSplice(p[..], off, end, w, r);
    }
  }

  method FlipRowsOfPlane(p: array<Byte>, off: nat, ghost end: nat, w: nat, h: nat, hflip: bool, scratch: array<Byte>)
    requires end == off + h * w && end <= p.Length && 0 < w <= scratch.Length && 0 < h && scratch != p
    modifies p, scratch
    ensures p[..] == Splice(old(p[..]), off, Flip(old(p[..])[off..end], w, h, hflip, true))
  {
    ghost var o := p[..];
    FlipRows(p, off, w, h, hflip, scratch);
    FlippedIsSplice(o, off, end, w, h, hflip, true, h, -1);
  }

  method MirrorRowsOfPlane(p: array<Byte>, off: nat, ghost end: nat, size: nat, w: nat, ghost h: nat)
    requires 0 < w && h == Rows(size, w) && end == off + h * w && end <= p.Length
    modifies p
    ensures p[..] == Splice(old(p[..]), off, Flip(old(p[..])[off..end], w, h, true, false))
  {
    ghost var o := p[..];
    MirrorRows(p, off, size, w, h);
    FlippedIsSplice(o, off, end, w, h, true, false, h, h - 1);
  }

  lemma FlippedIsSplice(o: seq<Byte>, off: nat, end: nat, w: nat, h: nat, hflip: bool, vflip: bool, t: int, b: int)
    requires end == off + h * w && end <= |o| && t > b
    ensures FlippedRows(o, off, w, h, hflip, vflip, t, b)
         == Splice(o, off, Flip(o[off..end], w, h, hflip, vflip))
  {
    FlippedDone(o, off, w, h, hflip, vflip, t, b, t, b);
  }

  lemma UnflippedIsSplice(o: seq<Byte>, off: nat, end: nat, w: nat, h: nat)
    requires end == off + h * w && end <= |o|
    ensures o == Splice(o, off, Flip(o[off..end], w, h, false, false))
  {
    FlipsCompose(o[off..end], w, h, false, false, false, false);
    SpliceSame(o, off, end);
  }

  lemma SpliceSame(o: seq<Byte>, i: nat, j: nat)
    requires i <= j <= |o|
    ensures o == Splice(o, i, o[i..j])
  {
  }

  /** Flips the plane from `off` to `n` in a buffer. */
  method FlipAtOffset(p: array<Byte>, off: nat, n: nat, w: nat, h: nat, hflip: bool, vflip: bool,
                      scratch: array<Byte>)
    requires n == off + h * w && n <= p.Length && 0 < w <= scratch.Length && 0 < h && scratch != p
    modifies p, scratch
    ensures p[..] == Splice(old(p[..]), off, Flip(old(p[..])[off..n], w, h, hflip, vflip))
  {
    RowsOfPlane(w, h);
    FlipPlane(p, off, n, n - off, w, h, h, hflip, vflip, scratch);
  }

  /** Flips the last plane, whose slice goes on to the end of the buffer. */
  method FlipLast(p: array<Byte>, off: nat, ghost n: nat, len: nat, w: nat, h: nat, hflip: bool, vflip: bool,
                  scratch: array<Byte>)
    requires n == off + h * w && n <= len && n <= p.Length && 0 < w <= scratch.Length && 0 < h && scratch != p
    requires off + RowsFlipped(len - off, w, h, hflip, vflip) * w <= p.Length
    modifies p, scratch
    ensures p[..n] == old(p[..])[..off] + Flip(old(p[..])[off..n], w, h, hflip, vflip)
  {
    ghost var o := p[..];
    ghost var r: nat := RowsFlipped(len - off, w, h, hflip, vflip);
    ghost var end: nat := off + r * w;
    FlipPlane(p, off, end, len - off, w, h, r, hflip, vflip, scratch);
    FrontOfFlip(o, off, n, end, len, w, h, r, hflip, vflip);
    FrontOfSplice(o, off, Flip(o[off..end], w, r, hflip, vflip), n - off, n);
    assert p[..n] == p[..][..n];
  }

  lemma FrontOfFlip(o: seq<Byte>, off: nat, n: nat, end: nat, len: nat, w: nat, h: nat, r: nat,
                    hflip: bool, vflip: bool)
    requires 0 < w && n == off + h * w && n <= len && end == off + r * w && end <= |o|
    requires r == RowsFlipped(len - off, w, h, hflip, vflip)
    ensures n <= end && Flip(o[off..end], w, r, hflip, vflip)[..n - off] == Flip(o[off..n], w, h, hflip, vflip)
  {
    if hflip && !vflip {
      FewerRows(len - off, w, h);
      MirroredFront(o[off..end], w, h, r);
      assert o[off..end][..n - off] == o[off..n];
    }
  }

  lemma FewerRows(size: nat, w: nat, h: nat)
    requires 0 < w && h * w <= size
    ensures h <= Rows(size, w) && h * w <= Rows(size, w) * w
  {
    if Rows(size, w) < h {
      MulStep(Rows(size, w), h, w);
    }
  }

  lemma FrontOfSplice(o: seq<Byte>, off: nat, t: seq<Byte>, k: nat, n: nat)
    requires n == off + k && k <= |t| && off + |t| <= |o|
    ensures Splice(o, off, t)[..n] == o[..off] + t[..k]
  {
  }

  /** Mirroring rows treats the first rows as if they were all. */
  lemma MirroredFront(s: seq<Byte>, w: nat, h: nat, r: nat)
    requires h <= r && |s| == r * w && h * w <= r * w
    ensures Flip(s, w, r, true, false)[..h * w] == Flip(s[..h * w], w, h, true, false)
  {
    forall i | 0 <= i < h * w ensures Flip(s, w, r, true, false)[i] == Flip(s[..h * w], w, h, true, false)[i] {
      MirroredByte(s, w, h, r, i);
    }
  }

  lemma MirroredByte(s: seq<Byte>, w: nat, h: nat, r: nat, i: nat)
    requires h <= r && |s| == r * w && h * w <= r * w && i < h * w
    ensures Flip(s, w, r, true, false)[i] == Flip(s[..h * w], w, h, true, false)[i]
  {
    IndexSplit(w, h, i);
    var x, y := i % w, i / w;
    FlipAt(s, w, r, true, false, x, y);
    FlipAt(s[..h * w], w, h, true, false, x, y);
    MulStep(y, h, w);
  }

  /** The three flips, at offsets 0, `u` and `v`, of a buffer of `len` bytes. */
  method FlipThree(p: array<Byte>, u: nat, v: nat, ghost n: nat, len: nat, width: nat, height: nat, cw: nat, ch: nat,
                   hflip: bool, vflip: bool, scratch: array<Byte>)
    requires u == height * width && v == u + ch * cw && n == v + ch * cw && n <= len && n <= p.Length && scratch != p
    requires 0 < cw <= width <= scratch.Length && 0 < height && 0 < ch
    requires v + RowsFlipped(len - v, cw, ch, hflip, vflip) * cw <= p.Length
    modifies p, scratch
    ensures p[..n] ==
            Flip(old(p[..])[0..u], width, height, hflip, vflip)
            + Flip(old(p[..])[u..v], cw, ch, hflip, vflip)
            + Flip(old(p[..])[v..n], cw, ch, hflip, vflip)
  {
    ghost var o := p[..];
    FlipAtOffset(p, 0, u, width, height, hflip, vflip, scratch);
    ghost var a := p[..];
    FlipAtOffset(p, u, v, cw, ch, hflip, vflip, scratch);
    ghost var b := p[..];
    FlipLast(p, v, n, len, cw, ch, hflip, vflip, scratch);
    SpliceKeepsRest(o, a, 0, Flip(o[0..u], width, height, hflip, vflip), u, v);
    SpliceKeepsRest(o, a, 0, Flip(o[0..u], width, height, hflip, vflip), v, n);
    SpliceKeepsRest(a, b, u, Flip(a[u..v], cw, ch, hflip, vflip), v, n);
    FrontOfTwo(o, a, b, Flip(o[0..u], width, height, hflip, vflip), Flip(o[u..v], cw, ch, hflip, vflip), u, v);
  }

  lemma FrontOfTwo(o: seq<Byte>, a: seq<Byte>, b: seq<Byte>, s: seq<Byte>, t: seq<Byte>, u: nat, v: nat)
    requires |s| == u && |t| == v - u && u <= v <= |o|
    requires a == Splice(o, 0, s) && b == Splice(a, u, t)
    ensures b[..v] == s + t
  {
  }

  /** Overwriting a stretch leaves what lies after it alone. */
  lemma SpliceKeepsRest(o: seq<Byte>, c: seq<Byte>, at: nat, t: seq<Byte>, i: nat, j: nat)
    requires c == Splice(o, at, t) && at + |t| <= i <= j <= |o|
    ensures |c| == |o| && c[i..j] == o[i..j]
  {
  }

  /**
   * Mirroring the rows of the last plane, up to the end of the `len` bytes, does
   * not reach behind the `cap` bytes there are.
   */
  predicate StaysInside(len: nat, cap: nat, w: nat, h: nat) {
    var v := h * w + ChromaSize(w, h);
    len <= FrameSize(w, h) || w == 0 || v + Rows(len - v, Half(w)) * Half(w) <= cap
  }

  /** In a buffer without spare room this means that whole rows of chroma follow the frame. */
  lemma WholeRowsFitExactly(len: nat, w: nat, h: nat)
    requires FrameSize(w, h) <= len && 0 < w
    ensures StaysInside(len, len, w, h) <==> (len - FrameSize(w, h)) % Half(w) == 0
  {
    var v := h * w + ChromaSize(w, h);
    PlaneFitsExactly(v, len, ChromaSize(w, h), Half(w), Half(h), len - FrameSize(w, h));
  }

  lemma PlaneFitsExactly(v: nat, len: nat, size: nat, c: nat, k: nat, extra: nat)
    requires 0 < c && size == k * c && len == v + size + extra
    ensures extra == 0 || v + Rows(len - v, c) * c <= len <==> extra % c == 0
  {
    if extra == 0 {
      RestIsUnique(0, 0, c, 0);
    } else {
      RowsAndRest(size + extra, c, k, extra);
      assert len - v == size + extra;
    }
  }

  lemma RowsAndRest(n: nat, c: nat, k: nat, extra: nat)
    requires 0 < c && n == k * c + extra
    ensures Rows(n, c) * c <= n <==> extra % c == 0
  {
    RowsFitExactly(n, c);
    RestOfSum(k, c, extra);
  }

  lemma RowsFitExactly(size: nat, c: nat)
    requires 0 < c
    ensures Rows(size, c) * c <= size <==> size % c == 0
  {
    if size % c == 0 {
      QuotientTimes(size, c);
      RowsOfPlane(c, size / c);
    } else if Rows(size, c) * c <= size {
      RestIsUnique(size, Rows(size, c), c, 0);
      assert false;
    }
  }

  lemma QuotientTimes(n: nat, c: nat)
    requires 0 < c && n % c == 0
    ensures (n / c) * c == n && 0 <= n / c
  {
  }

  lemma RestOfSum(k: nat, c: nat, extra: nat)
    requires 0 < c
    ensures (k * c + extra) % c == extra % c
  {
    RestIsUnique(k * c + extra, k + extra / c, c, extra % c);
  }

  lemma RestIsUnique(n: nat, q: nat, c: nat, r: nat)
    requires 0 < c && n == q * c + r && r < c
    ensures n % c == r
  {
    var p := n / c;
    assert n == p * c + n % c;
    if p < q {
      MulStep(p, q, c);
    } else if q < p {
      MulStep(q, p, c);
    }
  }

  /** The three flips of a frame. */
  method FlipPlanes(p: array<Byte>, len: nat, width: nat, height: nat, hflip: bool, vflip: bool, row: array<Byte>)
    requires FrameSize(width, height) <= len <= p.Length && row != p && 0 < width <= row.Length && 0 < height
    requires hflip && !vflip ==> StaysInside(len, p.Length, width, height)
    modifies p, row
    ensures var n := FrameSize(width, height);
            p[..n] == FlipFrame(old(p[..n]), width, height, hflip, vflip)
  {
    var ySize, cw, ch, cSize := PlaneSizes(width, height);
    ghost var o := p[..];
    ghost var n := FrameSize(width, height);
    FlipFrameByPlanes(o, width, height, ySize, cSize, hflip, vflip);
    LastPlaneFits(len, p.Length, width, height, ySize + cSize, hflip, vflip);
    FlipThree(p, ySize, ySize + cSize, n, len, width, height, cw, ch, hflip, vflip, row);
    assert o[..n] == old(p[..n]);
  }

  lemma LastPlaneFits(len: nat, cap: nat, w: nat, h: nat, v: nat, hflip: bool, vflip: bool)
    requires FrameSize(w, h) <= len <= cap && 0 < w && v == h * w + ChromaSize(w, h)
    requires hflip && !vflip ==> StaysInside(len, cap, w, h)
    ensures v + RowsFlipped(len - v, Half(w), Half(h), hflip, vflip) * Half(w) <= cap
  {
    if len == FrameSize(w, h) {
      RowsOfPlane(Half(w), Half(h));
    }
  }

  lemma FlipFrameByPlanes(o: seq<Byte>, w: nat, h: nat, ySize: nat, cSize: nat, hflip: bool, vflip: bool)
    requires ySize == h * w && cSize == ChromaSize(w, h) && FrameSize(w, h) <= |o|
    ensures FlipFrame(o[..FrameSize(w, h)], w, h, hflip, vflip)
         == Flip(o[0..ySize], w, h, hflip, vflip)
            + Flip(o[ySize..ySize + cSize], Half(w), Half(h), hflip, vflip)
            + Flip(o[ySize + cSize..FrameSize(w, h)], Half(w), Half(h), hflip, vflip)
  {
    SlicesAreThePlanes(o, w, h, ySize, cSize);
  }

  /**
   * Flips the frame in place; a buffer that is too short is left untouched. The
   * horizontal flip alone goes on to the end of the buffer in whole rows, for which
   * there has to be room.
   */
  method FlipYU12(buf: Slice, width: nat, height: nat, hflip: bool, vflip: bool, scratch: Slice)
    requires buf.Valid() && scratch.Valid() && buf.buf != scratch.buf
    requires hflip && !vflip ==> StaysInside(buf.len, buf.buf.Length, width, height)
    modifies buf.buf, scratch.buf
    ensures var f, n := old(buf.Bytes()), FrameSize(width, height);
            if buf.len >= n then buf.Bytes()[..n] == FlipFrame(f[..n], width, height, hflip, vflip)
            else buf.Bytes() == f
    ensures var f, n := old(buf.Bytes()), FrameSize(width, height);
            buf.len >= n ==> FrameMoved(buf.Bytes()[..n], f[..n], width, height, 0, hflip, vflip)
  {
    ghost var n := FrameSize(width, height);
    if buf.len >= n {
      FlipMoves(buf.Bytes()[..n], width, height, hflip, vflip);
      FrontOf(buf.buf[..], buf.len, n);
      NoFlipOrEmpty(buf.buf[..n], width, height, hflip, vflip);
    }
    if !hflip && !vflip {
      return;
    }
    var ySize, cw, ch, cSize := PlaneSizes(width, height);
    if width == 0 || height == 0 || buf.len < ySize + 2 * cSize {
      return;
    }
    var row := scratch.buf;
    if scratch.len < width {
      row := new Byte[width](_ => 0);
    }
    FlipPlanes(buf.buf, buf.len, width, height, hflip, vflip, row);
    FrontOf(buf.buf[..], buf.len, n);
  }

  lemma NoFlipOrEmpty(f: seq<Byte>, w: nat, h: nat, hflip: bool, vflip: bool)
    requires |f| == FrameSize(w, h)
    ensures (!hflip && !vflip) || w == 0 || h == 0 ==> FlipFrame(f, w, h, hflip, vflip) == f
  {
    if !hflip && !vflip {
      NoFlipFrame(f, w, h);
    } else if w == 0 || h == 0 {
      NoPixels(w, h);
      assert f == [] && FlipFrame(f, w, h, hflip, vflip) == [];
    }
  }

  lemma NoPixels(w: nat, h: nat)
    requires w == 0 || h == 0
    ensures FrameSize(w, h) == 0
  {
  }

  // ---------------------------------------------------------------- the capture pump

  /** What the pump makes of one captured frame. */
  function Transformed(f: seq<Byte>, w: nat, h: nat, rotation: int, hflip: bool, vflip: bool): seq<Byte>
    requires |f| == FrameSize(w, h)
  {
    var (fw, fh) := TurnedDims(w, h, rotation);
    TurnFrameSize(f, w, h, rotation);
    HalfTurned(w, h);
    FlipFrame(TurnFrame(f, w, h, rotation), fw, fh, hflip, vflip)
  }

  lemma TransformedMoves(f: seq<Byte>, w: nat, h: nat, rotation: int, hflip: bool, vflip: bool)
    requires |f| == FrameSize(w, h)
    ensures FrameMoved(Transformed(f, w, h, rotation, hflip, vflip), f, w, h, rotation, hflip, vflip)
  {
    FrameMoves(f, w, h, rotation, hflip, vflip);
  }

  lemma PlanTransforms(f: seq<Byte>, w: nat, h: nat, rotation: int, hflip: bool, vflip: bool)
    requires |f| == FrameSize(w, h)
    ensures var plan := ComposeRotationFlips(rotation, hflip, vflip);
            var dims := TurnedDims(w, h, rotation);
            && plan.0 != 180 && TurnedDims(w, h, plan.0) == dims
            && |TurnFrame(f, w, h, plan.0)| == FrameSize(dims.0, dims.1)
            && FlipFrame(TurnFrame(f, w, h, plan.0), dims.0, dims.1, plan.1, plan.2)
               == Transformed(f, w, h, rotation, hflip, vflip)
  {
    PlanIsRotateThenFlip(f, w, h, rotation, hflip, vflip);
  }

  lemma PlanDims(w: nat, h: nat, rotation: int, hflip: bool, vflip: bool)
    ensures var plan := ComposeRotationFlips(rotation, hflip, vflip); var dims := TurnedDims(w, h, rotation);
            plan.0 != 180 && TurnedDims(w, h, plan.0) == dims && FrameSize(dims.0, dims.1) == FrameSize(w, h)
  {
    HalfTurned(w, h);
  }

  /** A copy outside the driver's buffer. */
  method Copied(frame: seq<Byte>) returns (copy: Slice)
    ensures copy.Valid() && fresh(copy.buf) && copy.len == copy.buf.Length == |frame| && copy.Bytes() == frame
  {
    var buf := new Byte[|frame|](i requires 0 <= i < |frame| => frame[i]);
    assert buf[..] == frame;
    copy := Slice(buf, |frame|);
  }

  datatype Captured = Captured(data: seq<Byte>, flipH: bool, flipV: bool)

  /** Length and capacity of the scratch. */
  datatype Spare = Spare(len: nat, cap: nat)

  function SpareOf(s: Slice): Spare {
    Spare(s.len, s.buf.Length)
  }

  class Source {
    const capW: nat
    const capH: nat
    const rotation: int
    var scratch: Slice

    constructor (capW: nat, capH: nat, rotation: int)
      ensures this.capW == capW && this.capH == capH && this.rotation == rotation
      ensures scratch.Valid() && fresh(scratch.buf) && SpareOf(scratch) == Spare(0, 0)
    {
      this.capW, this.capH, this.rotation := capW, capH, rotation;
      var none := new Byte[0];
      scratch := Slice(none, 0);
    }

    /** The room in the buffer that is flipped: that of the scratch, if the frame is turned into it. */
    function RoomFor(spare: Spare, size: nat, rot: int): nat {
      if Turns(size, capW, capH, rot) then Max(size, spare.cap) else size
    }

    function SpareTurned(spare: Spare, size: nat, rot: int): Spare {
      if Turns(size, capW, capH, rot) then Spare(size, size) else spare
    }

    function SpareFlipped(spare: Spare, fw: nat, hf: bool, vf: bool): Spare {
      if (hf || vf) && spare.len < fw then Spare(fw, fw) else spare
    }

    /** The flips that are left, once a half turn has been folded in, do not run past the end of that buffer. */
    predicate FlipsInside(spare: Spare, c: Captured) {
      var plan := ComposeRotationFlips(rotation, c.flipH, c.flipV);
      var dims := TurnedDims(capW, capH, plan.0);
      plan.1 && !plan.2 ==> StaysInside(|c.data|, RoomFor(spare, |c.data|, plan.0), dims.0, dims.1)
    }

    /** The scratch afterwards: the capture's own buffer if it was turned, and at least a row if it was flipped. */
    function SpareAfter(spare: Spare, c: Captured): Spare {
      var plan := ComposeRotationFlips(rotation, c.flipH, c.flipV);
      SpareFlipped(SpareTurned(spare, |c.data|, plan.0), TurnedDims(capW, capH, plan.0).0, plan.1, plan.2)
    }

    predicate AllInside(spare: Spare, frames: seq<Captured>)
      decreases |frames|
    {
      frames == [] || (FlipsInside(spare, frames[0]) && AllInside(SpareAfter(spare, frames[0]), frames[1..]))
    }

    /** A frame as it should come out: its front transformed, or all of it as it was if it is too short. */
    ghost predicate IsTransformed(out: seq<Byte>, f: seq<Byte>, flipH: bool, flipV: bool) {
      var n := FrameSize(capW, capH);
      && |out| == |f|
      && (|f| >= n ==> FrameMoved(out[..n], f[..n], capW, capH, rotation, flipH, flipV))
      && (|f| < n ==> out == f)
    }

    /**
     * One captured frame, copied out of the driver's buffer and transformed. The
     * buffer handed on is never the one the source keeps as scratch, so later
     * frames cannot overwrite it.
     */
    method Transform(frame: seq<Byte>, flipH: bool, flipV: bool) returns (yuv: Slice, fw: nat, fh: nat)
      requires scratch.Valid() && FlipsInside(SpareOf(scratch), Captured(frame, flipH, flipV))
      modifies this, scratch.buf
      ensures scratch.Valid() && yuv.Valid() && yuv.buf != scratch.buf
      ensures yuv.buf == old(scratch.buf) || fresh(yuv.buf)
      ensures scratch.buf == old(scratch.buf) || fresh(scratch.buf)
      ensures SpareOf(scratch) == SpareAfter(old(SpareOf(scratch)), Captured(frame, flipH, flipV))
      ensures (fw, fh) == if rotation == 90 || rotation == 270 then (capH, capW) else (capW, capH)
      ensures IsTransformed(yuv.Bytes(), frame, flipH, flipV)
    {
      ghost var n := FrameSize(capW, capH);
      var copy := Copied(frame);
      var plan := ComposeRotationFlips(rotation, flipH, flipV);
      PlanDims(capW, capH, rotation, flipH, flipV);
      if |frame| >= n {
        PlanTransforms(frame[..n], capW, capH, rotation, flipH, flipV);
        TransformedMoves(frame[..n], capW, capH, rotation, flipH, flipV);
      }
      yuv, fw, fh := Rotated(copy, plan.0);
      Flipped(yuv, fw, fh, plan.1, plan.2);
    }

    /** The quarter turn of one frame, if there is one; the buffers trade places. */
    method Rotated(yuv: Slice, rot: int) returns (yuv': Slice, fw: nat, fh: nat)
      requires scratch.Valid() && yuv.Valid() && yuv.buf != scratch.buf
      requires rot != 180 && yuv.len == yuv.buf.Length
      modifies this, scratch.buf
      ensures scratch.Valid() && yuv'.Valid() && yuv'.buf != scratch.buf
      ensures yuv'.buf == yuv.buf || yuv'.buf == old(scratch.buf) || fresh(yuv'.buf)
      ensures scratch == yuv || scratch == old(scratch)
      ensures yuv'.buf.Length == RoomFor(old(SpareOf(scratch)), yuv.len, rot)
      ensures SpareOf(scratch) == SpareTurned(old(SpareOf(scratch)), yuv.len, rot)
      ensures (fw, fh) == TurnedDims(capW, capH, rot) && yuv'.len == yuv.len
      ensures var f, n := old(yuv.Bytes()), FrameSize(capW, capH);
              if yuv.len >= n then yuv'.Bytes()[..n] == TurnFrame(f[..n], capW, capH, rot) else yuv'.Bytes() == f
    {
      yuv', fw, fh := yuv, capW, capH;
      ghost var n := FrameSize(capW, capH);
      if yuv.len >= n {
        PlanesJoin(yuv.Bytes()[..n], capW, capH);
      }
      if rot == 90 || rot == 270 {
        yuv', scratch, fw, fh := RotateYU12(yuv, scratch, capW, capH, rot);
      }
    }

    /** The flips of one frame, with a row of scratch. */
    method Flipped(yuv: Slice, fw: nat, fh: nat, hf: bool, vf: bool)
      requires scratch.Valid() && yuv.Valid() && yuv.buf != scratch.buf
      requires hf && !vf ==> StaysInside(yuv.len, yuv.buf.Length, fw, fh)
      modifies this, scratch.buf, yuv.buf
      ensures scratch.Valid() && yuv.buf != scratch.buf
      ensures scratch.buf == old(scratch.buf) || fresh(scratch.buf)
      ensures SpareOf(scratch) == SpareFlipped(old(SpareOf(scratch)), fw, hf, vf)
      ensures var f, n := old(yuv.Bytes()), FrameSize(fw, fh);
              if yuv.len >= n then yuv.Bytes()[..n] == FlipFrame(f[..n], fw, fh, hf, vf) else yuv.Bytes() == f
    {
      ghost var n := FrameSize(fw, fh);
      if yuv.len >= n {
        NoFlipOrEmpty(yuv.Bytes()[..n], fw, fh, hf, vf);
      }
      if hf || vf {
        if scratch.len < fw {
          var row := new Byte[fw](_ => 0);
          scratch := Slice(row, fw);
        }
        FlipYU12(yuv, fw, fh, hf, vf, scratch);
      }
    }

    /** The slice holds what the pump should make of a capture. */
    ghost predicate Carries(s: Slice, c: Captured)
      reads s.buf
    {
      s.Valid() && IsTransformed(s.Bytes(), c.data, c.flipH, c.flipV)
    }

    /** One buffer per capture, each holding its transform, and none of them the scratch. */
    ghost predicate Delivered(sent: seq<Slice>, frames: seq<Captured>)
      reads this, set s | s in sent :: s.buf
    {
      && |sent| == |frames|
      && (forall s :: s in sent ==> s.buf != scratch.buf)
      && (forall k :: 0 <= k < |sent| ==> Carries(sent[k], frames[k]))
    }

    method PumpNext(sent: seq<Slice>, c: Captured, ghost before: seq<Captured>) returns (yuv: Slice)
      requires scratch.Valid() && FlipsInside(SpareOf(scratch), c) && Delivered(sent, before)
      modifies this, scratch.buf
      ensures scratch.Valid() && (scratch.buf == old(scratch.buf) || fresh(scratch.buf))
      ensures SpareOf(scratch) == SpareAfter(old(SpareOf(scratch)), c)
      ensures Delivered(sent + [yuv], before + [c])
    {
      ghost var kept := scratch.buf;
      var fw, fh;
      yuv, fw, fh := Transform(c.data, c.flipH, c.flipV);
      assert Carries(yuv, c);
      forall k | 0 <= k < |sent| ensures Carries(sent[k], before[k]) && sent[k].buf != scratch.buf {
        assert sent[k] in sent && sent[k].buf != kept;
      }
    }

    /**
     * Frames captured one after the other, the flips set as they were at the time:
     * every delivered frame is the transform of its capture, and still is after
     * all later frames have gone through the shared scratch.
     */
    method Pump(frames: seq<Captured>) returns (sent: seq<Slice>)
      requires scratch.Valid() && AllInside(SpareOf(scratch), frames)
      modifies this, scratch.buf
      ensures Delivered(sent, frames)
    {
      sent := [];
      for i := 0 to |frames|
        invariant scratch.Valid() && (scratch.buf == old(scratch.buf) || fresh(scratch.buf))
        invariant Delivered(sent, frames[..i]) && AllInside(SpareOf(scratch), frames[i..])
      {
        assert frames[i..][0] == frames[i] && frames[i..][1..] == frames[i + 1..];
        var yuv := PumpNext(sent, frames[i], frames[..i]);
        assert frames[..i + 1] == frames[..i] + [frames[i]];
        sent := sent + [yuv];
      }
      assert frames[..|frames|] == frames;
    }
  }
}
