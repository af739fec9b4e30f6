/**
 * Copying a contiguous I420 frame into a buffer whose rows are padded to the
 * driver's stride, with chroma rows of half that stride.
 */
module PaddedCopy {
  import opened Basics
  import opened PlaneAlgebra

  // ---------------------------------------------------------------- one plane

  /** `n` bytes of `s`, from `from` on, written over `o` from `at` on. */
  function Copied(o: seq<Byte>, at: nat, s: seq<Byte>, from: nat, n: nat): (c: seq<Byte>)
    ensures |c| == |o|
    decreases n
  {
    if n == 0 || at + n > |o| || from + n > |s| then o
    else Copied(o, at, s, from, n - 1)[at + n - 1 := s[from + n - 1]]
  }

  lemma {:induction false} CopiedInside(o: seq<Byte>, at: nat, s: seq<Byte>, from: nat, n: nat, i: nat, j: nat)
    requires at <= i < at + n <= |o| && from + n <= |s| && j == from + (i - at)
    ensures Copied(o, at, s, from, n)[i] == s[j]
    decreases n
  {
    if i < at + n - 1 {
      CopiedInside(o, at, s, from, n - 1, i, j);
    }
  }

  lemma {:induction false} CopiedOutside(o: seq<Byte>, at: nat, s: seq<Byte>, from: nat, n: nat, i: nat)
    requires i < |o| && !(at <= i < at + n)
    ensures Copied(o, at, s, from, n)[i] == o[i]
    decreases n
  {
    if !(n == 0 || at + n > |o| || from + n > |s|) {
      CopiedOutside(o, at, s, from, n - 1, i);
    }
  }

  /** `k` rows of `w` bytes, taken from `s` on at `from`, laid out `stride` bytes apart from `at` on. */
  function Padded(o: seq<Byte>, at: nat, stride: nat, s: seq<Byte>, from: nat, w: nat, k: nat): (p: seq<Byte>)
    ensures |p| == |o|
    decreases k
  {
    if k == 0 then o
    else Padded(Copied(o, at, s, from, w), at + stride, stride, s, from + w, w, k - 1)
  }

  /** Rows further on do not reach back. */
  lemma {:induction false} PaddedBefore(o: seq<Byte>, at: nat, stride: nat, s: seq<Byte>, from: nat, w: nat, k: nat,
                                        i: nat)
    requires i < at && i < |o|
    ensures Padded(o, at, stride, s, from, w, k)[i] == o[i]
    decreases k
  {
    if k > 0 {
      CopiedOutside(o, at, s, from, w, i);
      PaddedBefore(Copied(o, at, s, from, w), at + stride, stride, s, from + w, w, k - 1, i);
    }
  }

  /** `k` rows of `w` bytes, `stride` apart from `at` on, lie within `n` bytes. */
  predicate Room(at: nat, stride: nat, w: nat, k: nat, n: nat)
    decreases k
  {
    k == 0 || (at + w <= n && Room(at + stride, stride, w, k - 1, n))
  }

  /** The byte at `i` of the padded plane is the one at `j` of the plain plane. */
  predicate Mapped(at: nat, stride: nat, from: nat, w: nat, k: nat, i: nat, j: nat)
    decreases k
  {
    k > 0 && ((at <= i < at + w && j == from + (i - at)) || Mapped(at + stride, stride, from + w, w, k - 1, i, j))
  }

  lemma {:induction false} PaddedAt(o: seq<Byte>, at: nat, stride: nat, s: seq<Byte>, from: nat, w: nat, k: nat,
                                    i: nat, j: nat)
    requires w <= stride && Mapped(at, stride, from, w, k, i, j)
    requires Room(at, stride, w, k, |o|) && Room(from, w, w, k, |s|)
    ensures i < |o| && j < |s| && Padded(o, at, stride, s, from, w, k)[i] == s[j]
    decreases k
  {
    var o' := Copied(o, at, s, from, w);
    var at', from' := at + stride, from + w;
    assert |o'| == |o|;
    if at <= i < at + w && j == from + (i - at) {
      CopiedInside(o, at, s, from, w, i, j);
      PaddedBefore(o', at', stride, s, from', w, k - 1, i);
    } else {
      PaddedAt(o', at', stride, s, from', w, k - 1, i, j);
    }
  }

  /** Rows and columns by multiplication, as the copy computes them. */
  lemma {:induction false} MappedAt(at: nat, stride: nat, from: nat, w: nat, k: nat, r: nat, x: nat)
    requires r < k && x < w
    ensures Mapped(at, stride, from, w, k, at + r * stride + x, from + r * w + x)
    decreases k
  {
    if r > 0 {
      OneLess(r, stride);
      OneLess(r, w);
      MappedAt(at + stride, stride, from + w, w, k - 1, r - 1, x);
    }
  }

  lemma {:induction false} RoomFor(at: nat, stride: nat, w: nat, k: nat, end: nat, n: nat)
    requires w <= stride && at + k * stride == end <= n
    ensures Room(at, stride, w, k, n)
    decreases k
  {
    if k > 0 {
      OneLess(k, stride);
      RoomFor(at + stride, stride, w, k - 1, end, n);
    }
  }

  lemma OneLess(k: nat, n: nat)
    requires k > 0
    ensures k * n == n + (k - 1) * n && (k - 1) * n >= 0
  {
  }

  predicate InARow(i: nat, at: nat, stride: nat, w: nat, k: nat)
    decreases k
  {
    k > 0 && (at <= i < at + w || InARow(i, at + stride, stride, w, k - 1))
  }

  /** The padding of the rows, and all that lies around them, is left alone. */
  lemma {:induction false} PaddingUntouched(o: seq<Byte>, at: nat, stride: nat, s: seq<Byte>, from: nat, w: nat, k: nat,
                                            i: nat)
    requires i < |o| && !InARow(i, at, stride, w, k)
    ensures Padded(o, at, stride, s, from, w, k)[i] == o[i]
    decreases k
  {
    if k > 0 {
      CopiedOutside(o, at, s, from, w, i);
      PaddingUntouched(Copied(o, at, s, from, w), at + stride, stride, s, from + w, w, k - 1, i);
    }
  }

  // ---------------------------------------------------------------- the copy

  method CopyBytes(dst: array<Byte>, at: nat, src: array<Byte>, from: nat, n: nat)
    requires dst != src && at + n <= dst.Length && from + n <= src.Length
    modifies dst
    ensures dst[..] == Copied(old(dst[..]), at, src[..], from, n)
  {
    for k := 0 to n
      invariant dst[..] == Copied(old(dst[..]), at, src[..], from, k)
    {
      dst[at + k] := src[from + k];
    }
  }

  method CopyRows(dst: array<Byte>, at: nat, stride: nat, src: array<Byte>, from: nat, w: nat, h: nat)
    requires dst != src && Room(at, stride, w, h, dst.Length) && Room(from, w, w, h, src.Length)
    modifies dst
    ensures dst[..] == Padded(old(dst[..]), at, stride, src[..], from, w, h)
  {
    ghost var goal := Padded(dst[..], at, stride, src[..], from, w, h);
    var to: nat, take: nat := at, from;
    for row := 0 to h
      invariant Room(to, stride, w, h - row, dst.Length) && Room(take, w, w, h - row, src.Length)
      invariant Padded(dst[..], to, stride, src[..], take, w, h - row) == goal
    {
      CopyBytes(dst, to, src, take, w);
      to, take := to + stride, take + w;
    }
  }

  /** Where the planes lie: sizes and offsets of luma and chroma in the padded and in the plain frame. */
  datatype Layout = Layout(stride: nat, cs: nat, uOff: nat, vOff: nat, total: nat,
                           w: nat, h: nat, cw: nat, ch: nat, srcU: nat, srcV: nat, srcEnd: nat)

  predicate IsLayout(l: Layout, w: nat, h: nat, stride: nat) {
    && l.w == w && l.h == h && l.stride == stride && l.cs == stride / 2 && l.cw == w / 2 && l.ch == h / 2
    && l.uOff == l.h * l.stride && l.vOff == l.uOff + l.ch * l.cs && l.total == l.vOff + l.ch * l.cs
    && l.srcU == l.h * l.w && l.srcV == l.srcU + l.ch * l.cw && l.srcEnd == l.srcV + l.ch * l.cw
  }

  /** The frame in its padded form: luma at the full stride, then both chroma planes at half of it. */
  function PaddedFrame(o: seq<Byte>, s: seq<Byte>, l: Layout): seq<Byte> {
    var y := Padded(o, 0, l.stride, s, 0, l.w, l.h);
    var u := Padded(y, l.uOff, l.cs, s, l.srcU, l.cw, l.ch);
    Padded(u, l.vOff, l.cs, s, l.srcV, l.cw, l.ch)
  }

  method CopyPlanes(dst: array<Byte>, src: array<Byte>, l: Layout)
    requires dst != src && IsLayout(l, l.w, l.h, l.stride) && l.w <= l.stride
    requires l.total <= dst.Length && l.srcEnd <= src.Length
    modifies dst
    ensures dst[..] == PaddedFrame(old(dst[..]), src[..], l)
  {
    RoomForPlanes(l, dst.Length, src.Length);
    CopyRows(dst, 0, l.stride, src, 0, l.w, l.h);
    CopyRows(dst, l.uOff, l.cs, src, l.srcU, l.cw, l.ch);
    CopyRows(dst, l.vOff, l.cs, src, l.srcV, l.cw, l.ch);
  }

  lemma RoomForPlanes(l: Layout, n: nat, m: nat)
    requires IsLayout(l, l.w, l.h, l.stride) && l.w <= l.stride && l.total <= n && l.srcEnd <= m
    ensures Room(0, l.stride, l.w, l.h, n) && Room(l.uOff, l.cs, l.cw, l.ch, n) && Room(l.vOff, l.cs, l.cw, l.ch, n)
    ensures Room(0, l.w, l.w, l.h, m) && Room(l.srcU, l.cw, l.cw, l.ch, m) && Room(l.srcV, l.cw, l.cw, l.ch, m)
  {
    RoomForThree(l.stride, l.cs, l.w, l.cw, l.h, l.ch, l.uOff, l.vOff, l.total, n);
    RoomForThree(l.w, l.cw, l.w, l.cw, l.h, l.ch, l.srcU, l.srcV, l.srcEnd, m);
  }

  lemma RoomForThree(stride: nat, cs: nat, w: nat, cw: nat, h: nat, ch: nat, u: nat, v: nat, end: nat, n: nat)
    requires w <= stride && cw <= cs && u == h * stride && v == u + ch * cs && end == v + ch * cs && end <= n
    ensures Room(0, stride, w, h, n) && Room(u, cs, cw, ch, n) && Room(v, cs, cw, ch, n)
  {
    RoomFor(0, stride, w, h, u, n);
    RoomFor(u, cs, cw, ch, v, n);
    RoomFor(v, cs, cw, ch, end, n);
  }

  function Area(h: nat, w: nat): (a: nat)
    ensures a == h * w
  {
    MulMono(0, h, w);
    h * w
  }

  function LayoutOf(w: nat, h: nat, stride: nat): (l: Layout)
    ensures IsLayout(l, w, h, stride)
  {
    var cs, cw, ch := stride / 2, w / 2, h / 2;
    var uOff, srcU, c, sc := Area(h, stride), Area(h, w), Area(ch, cs), Area(ch, cw);
    Layout(stride, cs, uOff, uOff + c, uOff + c + c, w, h, cw, ch, srcU, srcU + sc, srcU + sc + sc)
  }

  /** The plain frame has room for all its planes. */
  lemma PlanesFit(w: nat, h: nat, stride: nat)
    ensures LayoutOf(w, h, stride).srcEnd <= w * h * 3 / 2
  {
    var a, b := h / 2, w / 2;
    Product(2 * a, h, 2 * b, w);
    assert (2 * a) * (2 * b) == 4 * (a * b);
    assert h * w == w * h;
  }

  lemma Product(a: nat, b: nat, c: nat, d: nat)
    requires a <= b && c <= d
    ensures a * c <= b * d
  {
    MulMono(a, b, c);
    MulMono(c, d, b);
  }

  lemma {:induction false} CopiedFront(o: seq<Byte>, s: seq<Byte>, n: nat)
    requires n <= |s| <= |o|
    ensures Copied(o, 0, s, 0, n)[..n] == s[..n]
    decreases n
  {
    if n > 0 {
      var c := Copied(o, 0, s, 0, n - 1);
      CopiedFront(o, s, n - 1);
      assert c[n - 1 := s[n - 1]][..n] == c[..n - 1] + [s[n - 1]];
      assert s[..n] == s[..n - 1] + [s[n - 1]];
    }
  }

  /** Returns the number of bytes of the padded frame, or 0 if one of the buffers is too short for it. */
  method CopyPaddedI420(dst: array<Byte>, src: array<Byte>, w: nat, h: nat, stride: nat) returns (written: nat)
    requires dst != src && w <= stride
    modifies dst
    ensures stride == w && src.Length <= dst.Length ==> written == src.Length && dst[..written] == src[..]
    ensures stride == w && src.Length > dst.Length ==> written == 0 && dst[..] == old(dst[..])
    ensures stride != w ==>
              var l := LayoutOf(w, h, stride);
              if dst.Length < l.total || src.Length < w * h * 3 / 2 then written == 0 && dst[..] == old(dst[..])
              else written == l.total && dst[..] == PaddedFrame(old(dst[..]), src[..], l)
  {
    if stride == w {
      if dst.Length < src.Length {
        return 0;
      }
      CopyBytes(dst, 0, src, 0, src.Length);
      CopiedFront(old(dst[..]), src[..], src.Length);
      assert src[..][..src.Length] == src[..];
      return src.Length;
    }
    var l := LayoutOf(w, h, stride);
    if dst.Length < l.total || src.Length < w * h * 3 / 2 {
      return 0;
    }
    PlanesFit(w, h, stride);
    CopyPlanes(dst, src, l);
    return l.total;
  }

  // ---------------------------------------------------------------- what the padded frame holds

  lemma InPlane(at: nat, r: nat, h: nat, stride: nat, x: nat, w: nat, end: nat)
    requires r < h && x < w <= stride && end == at + h * stride
    ensures at + r * stride + x < end
  {
    MulStep(r, h, stride);
  }

  /** Luma samples of the frame, each at its place in the padded one. */
  lemma PaddedLumaHolds(o: seq<Byte>, s: seq<Byte>, l: Layout, r: nat, x: nat, i: nat, j: nat)
    requires IsLayout(l, l.w, l.h, l.stride) && l.w <= l.stride && l.total <= |o| && l.srcEnd <= |s|
    requires r < l.h && x < l.w && i == r * l.stride + x && j == r * l.w + x
    ensures i < |o| && j < |s| && PaddedFrame(o, s, l)[i] == s[j]
  {
    RoomForPlanes(l, |o|, |s|);
    ChromaFollows(l);
    FirstPlaneHolds(o, s, l.stride, l.w, l.h, r, x, i, j, l.uOff);
    var y := Padded(o, 0, l.stride, s, 0, l.w, l.h);
    var u := Padded(y, l.uOff, l.cs, s, l.srcU, l.cw, l.ch);
    PaddedBefore(y, l.uOff, l.cs, s, l.srcU, l.cw, l.ch, i);
    PaddedBefore(u, l.vOff, l.cs, s, l.srcV, l.cw, l.ch, i);
  }

  lemma ChromaFollows(l: Layout)
    requires IsLayout(l, l.w, l.h, l.stride)
    ensures l.uOff <= l.vOff <= l.total
  {
  }

  lemma FirstPlaneHolds(o: seq<Byte>, s: seq<Byte>, stride: nat, w: nat, h: nat, r: nat, x: nat, i: nat, j: nat,
                        end: nat)
    requires w <= stride && Room(0, stride, w, h, |o|) && Room(0, w, w, h, |s|) && end == h * stride
    requires r < h && x < w && i == r * stride + x && j == r * w + x
    ensures i < end && i < |o| && j < |s| && Padded(o, 0, stride, s, 0, w, h)[i] == s[j]
  {
    InPlane(0, r, h, stride, x, w, end);
    MappedAt(0, stride, 0, w, h, r, x);
    PaddedAt(o, 0, stride, s, 0, w, h, i, j);
  }

  lemma PaddedUHolds(o: seq<Byte>, s: seq<Byte>, l: Layout, r: nat, x: nat, i: nat, j: nat)
    requires IsLayout(l, l.w, l.h, l.stride) && l.w <= l.stride && l.total <= |o| && l.srcEnd <= |s|
    requires r < l.ch && x < l.cw && i == l.uOff + r * l.cs + x && j == l.srcU + r * l.cw + x
    ensures i < |o| && j < |s| && PaddedFrame(o, s, l)[i] == s[j]
  {
    var y := Padded(o, 0, l.stride, s, 0, l.w, l.h);
    var u := Padded(y, l.uOff, l.cs, s, l.srcU, l.cw, l.ch);
    RoomForPlanes(l, |o|, |s|);
    MappedAt(l.uOff, l.cs, l.srcU, l.cw, l.ch, r, x);
    PaddedAt(y, l.uOff, l.cs, s, l.srcU, l.cw, l.ch, i, j);
    InPlane(l.uOff, r, l.ch, l.cs, x, l.cw, l.vOff);
    PaddedBefore(u, l.vOff, l.cs, s, l.srcV, l.cw, l.ch, i);
  }

  lemma PaddedVHolds(o: seq<Byte>, s: seq<Byte>, l: Layout, r: nat, x: nat, i: nat, j: nat)
    requires IsLayout(l, l.w, l.h, l.stride) && l.w <= l.stride && l.total <= |o| && l.srcEnd <= |s|
    requires r < l.ch && x < l.cw && i == l.vOff + r * l.cs + x && j == l.srcV + r * l.cw + x
    ensures i < |o| && j < |s| && PaddedFrame(o, s, l)[i] == s[j]
  {
    var y := Padded(o, 0, l.stride, s, 0, l.w, l.h);
    var u := Padded(y, l.uOff, l.cs, s, l.srcU, l.cw, l.ch);
    RoomForPlanes(l, |o|, |s|);
    MappedAt(l.vOff, l.cs, l.srcV, l.cw, l.ch, r, x);
    PaddedAt(u, l.vOff, l.cs, s, l.srcV, l.cw, l.ch, i, j);
  }

  /**
   * Where samples go, in plain numbers: row `r` of the luma plane starts at `r` times
   * the stride.
   */
  lemma LumaPlaces(o: seq<Byte>, s: seq<Byte>, w: nat, h: nat, stride: nat, r: nat, x: nat, i: nat, j: nat)
    requires w <= stride && h * stride + 2 * (h / 2 * (stride / 2)) <= |o| && h * w + 2 * (h / 2 * (w / 2)) <= |s|
    requires r < h && x < w && i == r * stride + x && j == r * w + x
    ensures i < |o| && j < |s| && PaddedFrame(o, s, LayoutOf(w, h, stride))[i] == s[j]
  {
    PaddedLumaHolds(o, s, LayoutOf(w, h, stride), r, x, i, j);
  }

  /** Rows of the two chroma planes follow, each at half the stride. */
  lemma ChromaPlaces(o: seq<Byte>, s: seq<Byte>, w: nat, h: nat, stride: nat, plane: nat, r: nat, x: nat,
                     i: nat, j: nat)
    requires w <= stride && h * stride + 2 * (h / 2 * (stride / 2)) <= |o| && h * w + 2 * (h / 2 * (w / 2)) <= |s|
    requires plane < 2 && r < h / 2 && x < w / 2
    requires i == h * stride + (if plane == 0 then 0 else h / 2 * (stride / 2)) + r * (stride / 2) + x
    requires j == h * w + (if plane == 0 then 0 else h / 2 * (w / 2)) + r * (w / 2) + x
    ensures i < |o| && j < |s| && PaddedFrame(o, s, LayoutOf(w, h, stride))[i] == s[j]
  {
    if plane == 0 {
      PaddedUHolds(o, s, LayoutOf(w, h, stride), r, x, i, j);
    } else {
      PaddedVHolds(o, s, LayoutOf(w, h, stride), r, x, i, j);
    }
  }

  /** All bytes that no sample goes to, between rows and behind the frame, keep what they held. */
  lemma FramePaddingUntouched(o: seq<Byte>, s: seq<Byte>, l: Layout, i: nat)
    requires i < |o| && !InARow(i, 0, l.stride, l.w, l.h)
    requires !InARow(i, l.uOff, l.cs, l.cw, l.ch) && !InARow(i, l.vOff, l.cs, l.cw, l.ch)
    ensures PaddedFrame(o, s, l)[i] == o[i]
  {
    var y := Padded(o, 0, l.stride, s, 0, l.w, l.h);
    var u := Padded(y, l.uOff, l.cs, s, l.srcU, l.cw, l.ch);
    PaddingUntouched(o, 0, l.stride, s, 0, l.w, l.h, i);
    PaddingUntouched(y, l.uOff, l.cs, s, l.srcU, l.cw, l.ch, i);
    PaddingUntouched(u, l.vOff, l.cs, s, l.srcV, l.cw, l.ch, i);
  }
}
