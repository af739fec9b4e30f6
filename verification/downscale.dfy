/**
 * Nearest-neighbour downscaling of I420 frames into a reused buffer, with cached
 * index tables per axis.
 */
module Downscale {
  import opened Basics
  import opened PlaneAlgebra

  // ---------------------------------------------------------------- axis tables

  /** The source coordinate for coordinate `i`, rounded down. */
  function Nearest(i: nat, dst: nat, src: nat): nat {
    if dst == 0 then 0 else i * src / dst
  }

  lemma QuotientIs(n: nat, d: nat, q: nat)
    requires d > 0 && q * d <= n < (q + 1) * d
    ensures n / d == q
  {
    var p := n / d;
    assert n == p * d + n % d;
    if p < q {
      MulStep(p, q, d);
    } else if q < p {
      MulMono(q + 1, p, d);
    }
  }

  /** The source coordinate is the only one `x` for which `i` lies between `x` and `x + 1` on the source's scale. */
  lemma NearestExactly(i: nat, dst: nat, src: nat, x: nat)
    requires dst > 0
    ensures Nearest(i, dst, src) == x <==> x * dst <= i * src < (x + 1) * dst
  {
    var n := i * src;
    assert n == n / dst * dst + n % dst;
    assert (n / dst + 1) * dst == n / dst * dst + dst;
    if x * dst <= i * src < (x + 1) * dst {
      QuotientIs(n, dst, x);
    }
  }

  function AxisTable(dst: nat, src: nat): (m: seq<nat>)
    ensures |m| == dst
  {
    seq(dst, i requires 0 <= i < dst => Nearest(i, dst, src))
  }

  lemma QuotientBelow(n: nat, k: nat, d: nat)
    requires d > 0 && n < k * d
    ensures n / d < k
  {
    assert n == (n / d) * d + n % d;
    if n / d >= k {
      MulMono(k, n / d, d);
    }
  }

  lemma NearestInRange(i: nat, dst: nat, src: nat)
    requires i < dst && src > 0
    ensures Nearest(i, dst, src) < src
  {
    MulStep(i, dst, src);
    assert dst * src == src * dst;
    QuotientBelow(i * src, src, dst);
  }

  /** The luma coordinate a chroma coordinate is paired with. */
  function Paired(c: nat, dst: nat): nat {
    if dst == 0 then 0 else Min(c * 2, dst - 1)
  }

  function HalfOrOne(n: nat): nat {
    if n / 2 > 1 then n / 2 else 1
  }

  /** Halving the mapped coordinate stays inside the chroma plane, odd sizes included. */
  lemma ChromaInRange(c: nat, dst: nat, src: nat)
    requires 0 < dst <= src && src >= 2 && c < HalfOrOne(dst)
    ensures Paired(c, dst) < dst && Nearest(Paired(c, dst), dst, src) / 2 < src / 2
  {
    var i := Paired(c, dst);
    if dst >= 2 {
      assert i + 2 <= dst;
      MulMono(i + 2, dst, src);
      assert (i + 2) * src == i * src + 2 * src;
      assert i * src + 2 * dst <= dst * src;
      assert (src - 1) * dst == dst * src - dst;
      QuotientBelow(i * src, src - 1, dst);
    }
  }

  /** The tables computed so far, by size of destination and source. */
  class AxisCache {
    var maps: map<(nat, nat), seq<nat>>

    constructor ()
      ensures Valid()
    {
      maps := map[];
    }

    /** Whatever calls came before, a cached table is the one that would be computed now. */
    predicate Valid()
      reads this
    {
      forall key :: key in maps ==> maps[key] == AxisTable(key.0, key.1)
    }

    method MapAxis(dst: nat, src: nat) returns (m: seq<nat>)
      requires Valid()
      modifies this
      ensures Valid() && m == AxisTable(dst, src)
      ensures forall key :: key in old(maps) ==> key in maps
    {
      var key := (dst, src);
      if key in maps {
        return maps[key];
      }
      m := [];
      for i := 0 to dst
        invariant m == AxisTable(dst, src)[..i]
      {
        m := m + [i * src / dst];
      }
      maps := maps[key := m];
    }
  }

  // ---------------------------------------------------------------- the formulas

  /** Sizes of a downscaling. */
  datatype Sizes = Sizes(srcW: nat, srcH: nat, dstW: nat, dstH: nat)

  /** Byte `k` of the luma plane. */
  function LumaByte(s: seq<Byte>, z: Sizes, k: nat): Byte {
    if z.dstW == 0 then 0
    else Get(s, Nearest(k / z.dstW, z.dstH, z.srcH) * z.srcW + Nearest(k % z.dstW, z.dstW, z.srcW))
  }

  /** Byte `k` of a chroma plane that starts at `off` in the source. */
  function ChromaByte(s: seq<Byte>, z: Sizes, off: nat, k: nat): Byte {
    var cw := HalfOrOne(z.dstW);
    Get(s, off + Nearest(Paired(k / cw, z.dstH), z.dstH, z.srcH) / 2 * (z.srcW / 2)
             + Nearest(Paired(k % cw, z.dstW), z.dstW, z.srcW) / 2)
  }

  predicate Shrinks(z: Sizes) {
    0 < z.dstW <= z.srcW && 0 < z.dstH <= z.srcH
  }

  lemma LumaCell(s: seq<Byte>, z: Sizes, dx: nat, dy: nat, k: nat, j: nat)
    requires Shrinks(z) && dx < z.dstW && dy < z.dstH && z.srcH * z.srcW <= |s|
    requires k == dy * z.dstW + dx
    requires j == Nearest(dy, z.dstH, z.srcH) * z.srcW + Nearest(dx, z.dstW, z.srcW)
    ensures j < |s| && LumaByte(s, z, k) == s[j]
    ensures k < z.dstH * z.dstW
  {
    IndexDivMod(z.dstW, dx, dy);
    IndexInRange(z.dstW, z.dstH, dx, dy);
    NearestInRange(dx, z.dstW, z.srcW);
    NearestInRange(dy, z.dstH, z.srcH);
    IndexInRange(z.srcW, z.srcH, Nearest(dx, z.dstW, z.srcW), Nearest(dy, z.dstH, z.srcH));
  }

  /** Where row `dy` of a chroma plane that starts at `off` is read from. */
  function RowStart(z: Sizes, off: nat, dy: nat): nat {
    off + Nearest(Paired(dy, z.dstH), z.dstH, z.srcH) / 2 * (z.srcW / 2)
  }

  /** Where the code looks for chroma sample (dx, dy) of a plane that starts at `off`. */
  function ChromaIndex(z: Sizes, off: nat, dx: nat, dy: nat): nat {
    RowStart(z, off, dy) + Nearest(Paired(dx, z.dstW), z.dstW, z.srcW) / 2
  }

  predicate ChromaStaysInside(z: Sizes, off: nat, n: nat) {
    forall dx, dy :: 0 <= dx < HalfOrOne(z.dstW) && 0 <= dy < HalfOrOne(z.dstH) ==> ChromaIndex(z, off, dx, dy) < n
  }

  /** All reads of both chroma planes are inside a source of `n` bytes. */
  predicate ReadsStayInside(z: Sizes, srcY: nat, srcC: nat, n: nat) {
    ChromaStaysInside(z, srcY, n) && ChromaStaysInside(z, srcY + srcC, n)
  }

  lemma ChromaCell(s: seq<Byte>, z: Sizes, off: nat, dx: nat, dy: nat, k: nat, j: nat)
    requires Shrinks(z) && dx < HalfOrOne(z.dstW) && dy < HalfOrOne(z.dstH) && ChromaStaysInside(z, off, |s|)
    requires k == dy * HalfOrOne(z.dstW) + dx && j == ChromaIndex(z, off, dx, dy)
    ensures j < |s| && ChromaByte(s, z, off, k) == s[j]
    ensures k < HalfOrOne(z.dstH) * HalfOrOne(z.dstW)
  {
    var cw, ch := HalfOrOne(z.dstW), HalfOrOne(z.dstH);
    IndexDivMod(cw, dx, dy);
    IndexInRange(cw, ch, dx, dy);
  }

  lemma ChromaIndexBelow(z: Sizes, off: nat, dx: nat, dy: nat, size: nat)
    requires Shrinks(z) && z.srcW >= 2 && z.srcH >= 2 && dx < HalfOrOne(z.dstW) && dy < HalfOrOne(z.dstH)
    requires size == z.srcH / 2 * (z.srcW / 2)
    ensures ChromaIndex(z, off, dx, dy) < off + size
  {
    ChromaInRange(dx, z.dstW, z.srcW);
    ChromaInRange(dy, z.dstH, z.srcH);
    var x, y := Nearest(Paired(dx, z.dstW), z.dstW, z.srcW) / 2, Nearest(Paired(dy, z.dstH), z.dstH, z.srcH) / 2;
    IndexInRange(z.srcW / 2, z.srcH / 2, x, y);
  }

  lemma StaysInside(z: Sizes, off: nat, size: nat, n: nat)
    requires Shrinks(z) && z.srcW >= 2 && z.srcH >= 2 && size == z.srcH / 2 * (z.srcW / 2) && off + size <= n
    ensures ChromaStaysInside(z, off, n)
  {
    forall dx, dy | 0 <= dx < HalfOrOne(z.dstW) && 0 <= dy < HalfOrOne(z.dstH)
      ensures ChromaIndex(z, off, dx, dy) < n
    {
      ChromaIndexBelow(z, off, dx, dy, size);
    }
  }

  lemma NearestGrows(i: nat, j: nat, dst: nat, src: nat)
    requires i <= j && dst > 0
    ensures Nearest(i, dst, src) <= Nearest(j, dst, src)
  {
    MulMono(i, j, src);
    QuotientGrows(i * src, j * src, dst);
  }

  lemma QuotientGrows(a: nat, b: nat, d: nat)
    requires a <= b && d > 0
    ensures a / d <= b / d
  {
    var p, q := a / d, b / d;
    assert a == p * d + a % d && b == q * d + b % d;
    if q < p {
      MulStep(q, p, d);
    }
  }

  /** The index grows along both axes. */
  lemma ChromaIndexGrows(z: Sizes, off: nat, dx: nat, dy: nat, dx': nat, dy': nat)
    requires Shrinks(z) && dx <= dx' && dy <= dy'
    ensures ChromaIndex(z, off, dx, dy) <= ChromaIndex(z, off, dx', dy')
  {
    NearestGrows(Paired(dx, z.dstW), Paired(dx', z.dstW), z.dstW, z.srcW);
    NearestGrows(Paired(dy, z.dstH), Paired(dy', z.dstH), z.dstH, z.srcH);
    MulMono(Nearest(Paired(dy, z.dstH), z.dstH, z.srcH) / 2, Nearest(Paired(dy', z.dstH), z.dstH, z.srcH) / 2,
            z.srcW / 2);
  }

  /** The last index looked at in the plane that starts at `off`. */
  function LastIndex(z: Sizes, off: nat): nat {
    ChromaIndex(z, off, HalfOrOne(z.dstW) - 1, HalfOrOne(z.dstH) - 1)
  }

  lemma PlaneStaysInsideExactly(z: Sizes, off: nat, n: nat)
    requires Shrinks(z)
    ensures ChromaStaysInside(z, off, n) <==> LastIndex(z, off) < n
  {
    forall dx, dy | 0 <= dx < HalfOrOne(z.dstW) && 0 <= dy < HalfOrOne(z.dstH)
      ensures ChromaIndex(z, off, dx, dy) <= LastIndex(z, off)
    {
      ChromaIndexGrows(z, off, dx, dy, HalfOrOne(z.dstW) - 1, HalfOrOne(z.dstH) - 1);
    }
  }

  /**
   * For a source of any length the code accepts: all chroma reads are in bounds
   * exactly if it is two pixels wide and high, or goes on behind its planes for the
   * last index.
   */
  lemma InBoundsExactly(z: Sizes, srcY: nat, srcC: nat, n: nat)
    requires Shrinks(z) && srcC == z.srcH / 2 * (z.srcW / 2) && n >= srcY + 2 * srcC
    ensures ReadsStayInside(z, srcY, srcC, n) <==> (z.srcW >= 2 && z.srcH >= 2) || LastIndex(z, srcY) < n
    ensures n == srcY + 2 * srcC ==> (ReadsStayInside(z, srcY, srcC, n) <==> z.srcW >= 2 && z.srcH >= 2)
  {
    PlaneStaysInsideExactly(z, srcY, n);
    if z.srcW >= 2 && z.srcH >= 2 {
      StaysInside(z, srcY, srcC, n);
      StaysInside(z, srcY + srcC, srcC, n);
    } else {
      NoChroma(z, srcC);
      assert srcY + srcC == srcY && LastIndex(z, srcY) >= srcY;
    }
  }

  lemma NoChroma(z: Sizes, srcC: nat)
    requires srcC == z.srcH / 2 * (z.srcW / 2) && (z.srcW < 2 || z.srcH < 2)
    ensures srcC == 0
  {
  }

  // ---------------------------------------------------------------- the downscaler

  /** One row of the luma plane. */
  method LumaRow(out: array<Byte>, src: array<Byte>, z: Sizes, xmap: seq<nat>, dy: nat, sy: nat, dRow: nat, sRow: nat)
    requires out != src && Shrinks(z) && dy < z.dstH && z.srcH * z.srcW <= src.Length && z.dstH * z.dstW <= out.Length
    requires xmap == AxisTable(z.dstW, z.srcW) && sy == Nearest(dy, z.dstH, z.srcH)
    requires dRow == dy * z.dstW && sRow == sy * z.srcW
    requires forall i :: 0 <= i < dRow && i < out.Length ==> out[i] == LumaByte(src[..], z, i)
    modifies out
    ensures dRow + z.dstW <= out.Length
    ensures forall i :: 0 <= i < dRow + z.dstW ==> out[i] == LumaByte(src[..], z, i)
  {
    MulStep(dy, z.dstH, z.dstW);
    for dx := 0 to z.dstW
      invariant forall i :: 0 <= i < dRow + dx ==> out[i] == LumaByte(src[..], z, i)
    {
      LumaCell(src[..], z, dx, dy, dRow + dx, sRow + xmap[dx]);
      out[dRow + dx] := src[sRow + xmap[dx]];
    }
  }

  method LumaPlane(out: array<Byte>, src: array<Byte>, z: Sizes, xmap: seq<nat>, ymap: seq<nat>, ghost size: nat)
    requires out != src && Shrinks(z) && z.srcH * z.srcW <= src.Length && size == z.dstH * z.dstW <= out.Length
    requires xmap == AxisTable(z.dstW, z.srcW) && ymap == AxisTable(z.dstH, z.srcH)
    modifies out
    ensures forall i :: 0 <= i < size ==> out[i] == LumaByte(src[..], z, i)
  {
    for dy := 0 to z.dstH
      invariant dy * z.dstW <= size
      invariant forall i :: 0 <= i < dy * z.dstW && i < out.Length ==> out[i] == LumaByte(src[..], z, i)
    {
      MulStep(dy, z.dstH, z.dstW);
      LumaRow(out, src, z, xmap, dy, ymap[dy], dy * z.dstW, ymap[dy] * z.srcW);
      assert (dy + 1) * z.dstW == dy * z.dstW + z.dstW;
    }
  }

  /** One row of both chroma planes, at `u` and `v` in the output and `from` and `from + srcC` in the source. */
  method ChromaRow(out: array<Byte>, src: array<Byte>, z: Sizes, xmap: seq<nat>, dy: nat, ghost srcY: nat, srcC: nat,
                   row: nat, from: nat, u: nat, v: nat, ghost dstC: nat)
    requires out != src && Shrinks(z) && dy < HalfOrOne(z.dstH) && ReadsStayInside(z, srcY, srcC, src.Length)
    requires dstC == HalfOrOne(z.dstH) * HalfOrOne(z.dstW) && u + dstC == v && v + dstC <= out.Length
    requires xmap == AxisTable(z.dstW, z.srcW)
    requires row == dy * HalfOrOne(z.dstW)
    requires from == RowStart(z, srcY, dy)
    requires forall i :: u <= i < u + row && i < v ==> out[i] == ChromaByte(src[..], z, srcY, i - u)
    requires forall i :: v <= i < v + row && i < out.Length ==> out[i] == ChromaByte(src[..], z, srcY + srcC, i - v)
    modifies out
    ensures forall i :: 0 <= i < u ==> out[i] == old(out[i])
    ensures row + HalfOrOne(z.dstW) <= dstC
    ensures forall i :: u <= i < u + row + HalfOrOne(z.dstW) ==> out[i] == ChromaByte(src[..], z, srcY, i - u)
    ensures forall i :: v <= i < v + row + HalfOrOne(z.dstW) ==> out[i] == ChromaByte(src[..], z, srcY + srcC, i - v)
  {
    var cw := HalfOrOne(z.dstW);
    MulStep(dy, HalfOrOne(z.dstH), cw);
    for dx := 0 to cw
      invariant forall i :: 0 <= i < u ==> out[i] == old(out[i])
      invariant forall i :: u <= i < u + row + dx ==> out[i] == ChromaByte(src[..], z, srcY, i - u)
      invariant forall i :: v <= i < v + row + dx ==> out[i] == ChromaByte(src[..], z, srcY + srcC, i - v)
    {
      var lumaCol := Min(dx * 2, |xmap| - 1);
      var col := xmap[lumaCol] / 2;
      ChromaCell(src[..], z, srcY, dx, dy, row + dx, from + col);
      ChromaCell(src[..], z, srcY + srcC, dx, dy, row + dx, from + srcC + col);
      out[u + row + dx] := src[from + col];
      out[v + row + dx] := src[from + srcC + col];
    }
  }

  lemma NextRow(y: nat, h: nat, w: nat)
    requires y < h
    ensures (y + 1) * w == y * w + w <= h * w
  {
    MulStep(y, h, w);
  }

  method ChromaRowStart(z: Sizes, srcY: nat, ymap: seq<nat>, dy: nat) returns (from: nat)
    requires Shrinks(z) && ymap == AxisTable(z.dstH, z.srcH)
    ensures from == RowStart(z, srcY, dy)
  {
    var lumaRow := Min(dy * 2, |ymap| - 1);
    from := srcY + ymap[lumaRow] / 2 * (z.srcW / 2);
  }

  method ChromaPlanes(out: array<Byte>, src: array<Byte>, z: Sizes, xmap: seq<nat>, ymap: seq<nat>,
                      srcY: nat, srcC: nat, u: nat, v: nat, ghost dstC: nat)
    requires out != src && Shrinks(z) && ReadsStayInside(z, srcY, srcC, src.Length)
    requires dstC == HalfOrOne(z.dstH) * HalfOrOne(z.dstW) && u + dstC == v && v + dstC <= out.Length
    requires xmap == AxisTable(z.dstW, z.srcW) && ymap == AxisTable(z.dstH, z.srcH)
    modifies out
    ensures forall i :: 0 <= i < u ==> out[i] == old(out[i])
    ensures forall i :: u <= i < v ==> out[i] == ChromaByte(src[..], z, srcY, i - u)
    ensures forall i :: v <= i < v + dstC ==> out[i] == ChromaByte(src[..], z, srcY + srcC, i - v)
  {
    var cw, ch := HalfOrOne(z.dstW), HalfOrOne(z.dstH);
    ghost var done: nat := 0;
    for dy := 0 to ch
      invariant done == dy * cw <= dstC
      invariant forall i :: 0 <= i < u ==> out[i] == old(out[i])
      invariant forall i :: u <= i < u + done ==> out[i] == ChromaByte(src[..], z, srcY, i - u)
      invariant forall i :: v <= i < v + done ==> out[i] == ChromaByte(src[..], z, srcY + srcC, i - v)
    {
      NextRow(dy, ch, cw);
      var from := ChromaRowStart(z, srcY, ymap, dy);
      ChromaRow(out, src, z, xmap, dy, srcY, srcC, dy * cw, from, u, v, dstC);
      done := done + cw;
    }
  }

  /** Identity, enlarging, empty sizes and a source too short for its planes: the input is passed on unchanged. */
  predicate PassedOn(z: Sizes, n: nat) {
    || z.srcW == 0 || z.srcH == 0 || z.dstW == 0 || z.dstH == 0 || z.dstW > z.srcW || z.dstH > z.srcH
    || n < z.srcH * z.srcW + 2 * (z.srcH / 2 * (z.srcW / 2))
    || (z.dstW == z.srcW && z.dstH == z.srcH)
  }

  /** Everything else is scaled: the frame is to be smaller, in one direction at least, and the source is all there. */
  lemma ScaledExactly(z: Sizes, n: nat)
    ensures !PassedOn(z, n) <==>
              && 0 < z.dstW <= z.srcW && 0 < z.dstH <= z.srcH && (z.dstW < z.srcW || z.dstH < z.srcH)
              && n >= z.srcH * z.srcW + 2 * (z.srcH / 2 * (z.srcW / 2))
    ensures z.dstW >= 2 && z.dstH >= 2 ==>
              ScaledSize(z) == z.dstH * z.dstW + 2 * (z.dstH / 2 * (z.dstW / 2))
  {
  }

  function ScaledSize(z: Sizes): nat {
    z.dstH * z.dstW + 2 * (HalfOrOne(z.dstH) * HalfOrOne(z.dstW))
  }

  /** The three planes by their formulas. */
  ghost predicate IsScaled(o: seq<Byte>, s: seq<Byte>, z: Sizes, u: nat, v: nat, srcY: nat, srcC: nat) {
    && u <= v <= |o|
    && (forall i :: 0 <= i < u ==> o[i] == LumaByte(s, z, i))
    && (forall i :: u <= i < v ==> o[i] == ChromaByte(s, z, srcY, i - u))
    && (forall i :: v <= i < |o| ==> o[i] == ChromaByte(s, z, srcY + srcC, i - v))
  }

  /** Each luma pixel of the result is the source's pixel at the nearest coordinates, rounded down. */
  lemma ScaledLumaAt(o: seq<Byte>, s: seq<Byte>, z: Sizes, u: nat, v: nat, srcY: nat, srcC: nat,
                     dx: nat, dy: nat, sx: nat, sy: nat)
    requires IsScaled(o, s, z, u, v, srcY, srcC) && u == z.dstH * z.dstW && dx < z.dstW && dy < z.dstH
    requires sx * z.dstW <= dx * z.srcW < (sx + 1) * z.dstW && sy * z.dstH <= dy * z.srcH < (sy + 1) * z.dstH
    ensures At(o, z.dstW, dx, dy) == At(s, z.srcW, sx, sy)
  {
    NearestExactly(dx, z.dstW, z.srcW, sx);
    NearestExactly(dy, z.dstH, z.srcH, sy);
    IndexInRange(z.dstW, z.dstH, dx, dy);
    IndexDivMod(z.dstW, dx, dy);
  }

  /**
   * Each chroma pixel is the source's pixel at half the coordinates that the luma pixel
   * at twice its own, or the last one, is taken from. Planes are half as wide and high,
   * rounded down, but never empty.
   */
  lemma ScaledChromaAt(o: seq<Byte>, s: seq<Byte>, z: Sizes, u: nat, v: nat, srcY: nat, srcC: nat, cw: nat, ch: nat,
                       dx: nat, dy: nat, i: nat, j: nat, sx: nat, sy: nat)
    requires IsScaled(o, s, z, u, v, srcY, srcC) && Shrinks(z)
    requires cw == (if z.dstW < 2 then 1 else z.dstW / 2) && ch == (if z.dstH < 2 then 1 else z.dstH / 2)
    requires v == u + ch * cw && |o| == v + ch * cw && dx < cw && dy < ch
    requires i == (if 2 * dx < z.dstW then 2 * dx else z.dstW - 1)
    requires j == (if 2 * dy < z.dstH then 2 * dy else z.dstH - 1)
    requires sx * z.dstW <= i * z.srcW < (sx + 1) * z.dstW && sy * z.dstH <= j * z.srcH < (sy + 1) * z.dstH
    ensures At(o[u..v], cw, dx, dy) == Get(s, srcY + sy / 2 * (z.srcW / 2) + sx / 2)
    ensures At(o[v..], cw, dx, dy) == Get(s, srcY + srcC + sy / 2 * (z.srcW / 2) + sx / 2)
  {
    NearestExactly(i, z.dstW, z.srcW, sx);
    NearestExactly(j, z.dstH, z.srcH, sy);
    ScaledPlaneAt(o[u..v], s, z, srcY, cw, ch, dx, dy, sx, sy);
    ScaledPlaneAt(o[v..], s, z, srcY + srcC, cw, ch, dx, dy, sx, sy);
  }

  lemma ScaledPlaneAt(p: seq<Byte>, s: seq<Byte>, z: Sizes, off: nat, cw: nat, ch: nat, dx: nat, dy: nat,
                      sx: nat, sy: nat)
    requires |p| == ch * cw && forall k :: 0 <= k < |p| ==> p[k] == ChromaByte(s, z, off, k)
    requires cw == HalfOrOne(z.dstW) && ch == HalfOrOne(z.dstH) && dx < cw && dy < ch
    requires sx == Nearest(Paired(dx, z.dstW), z.dstW, z.srcW) && sy == Nearest(Paired(dy, z.dstH), z.dstH, z.srcH)
    ensures At(p, cw, dx, dy) == Get(s, off + sy / 2 * (z.srcW / 2) + sx / 2)
  {
    IndexInRange(cw, ch, dx, dy);
    IndexDivMod(cw, dx, dy);
  }

  /** A buffer of at least `n` bytes: the given one if it is long enough, else a new one. */
  method Room(dst: array<Byte>, n: nat) returns (buf: array<Byte>)
    ensures buf.Length >= n && (buf == dst || fresh(buf))
  {
    buf := dst;
    if dst.Length < n {
      buf := new Byte[n](_ => 0);
    }
  }

  method CopyAll(dst: array<Byte>, src: array<Byte>) returns (out: Slice)
    requires dst != src
    modifies dst
    ensures out.len == src.Length <= out.buf.Length && (out.buf == dst || fresh(out.buf))
    ensures out.buf[..out.len] == src[..]
  {
    var buf := Room(dst, src.Length);
    for k := 0 to src.Length
      invariant forall i :: 0 <= i < k ==> buf[i] == src[i]
    {
      buf[k] := src[k];
    }
    out := Slice(buf, src.Length);
  }

  /**
   * The result never shares memory with the source, which stays as it is. Where
   * scaling happens, the chroma reads have to stay inside the source.
   */
  method DownscaleYU12Into(dst: array<Byte>, src: array<Byte>, z: Sizes, cache: AxisCache) returns (out: Slice)
    requires dst != src && cache.Valid()
    requires !PassedOn(z, src.Length) ==>
               ReadsStayInside(z, z.srcH * z.srcW, z.srcH / 2 * (z.srcW / 2), src.Length)
    modifies dst, cache
    ensures cache.Valid() && out.len <= out.buf.Length && (out.buf == dst || fresh(out.buf))
    ensures PassedOn(z, src.Length) ==> out.buf[..out.len] == src[..]
    ensures !PassedOn(z, src.Length) ==>
              && out.len == ScaledSize(z)
              && IsScaled(out.buf[..out.len], src[..], z, z.dstH * z.dstW,
                          z.dstH * z.dstW + HalfOrOne(z.dstH) * HalfOrOne(z.dstW),
                          z.srcH * z.srcW, z.srcH / 2 * (z.srcW / 2))
  {
    if PassedOn(z, src.Length) {
      out := CopyAll(dst, src);
      return;
    }
    var srcY, srcC := z.srcH * z.srcW, z.srcH / 2 * (z.srcW / 2);
    var dstYu, dstC := z.dstH * z.dstW, HalfOrOne(z.dstH) * HalfOrOne(z.dstW);
    var xmap := cache.MapAxis(z.dstW, z.srcW);
    var ymap := cache.MapAxis(z.dstH, z.srcH);
    out := Scale(dst, src, z, xmap, ymap, srcY, srcC, dstYu, dstC);
  }

  method Scale(dst: array<Byte>, src: array<Byte>, z: Sizes, xmap: seq<nat>, ymap: seq<nat>,
               srcY: nat, srcC: nat, dstYu: nat, dstC: nat) returns (out: Slice)
    requires dst != src && Shrinks(z) && ReadsStayInside(z, srcY, srcC, src.Length)
    requires srcY == z.srcH * z.srcW && srcC == z.srcH / 2 * (z.srcW / 2) && srcY + 2 * srcC <= src.Length
    requires dstYu == z.dstH * z.dstW && dstC == HalfOrOne(z.dstH) * HalfOrOne(z.dstW)
    requires xmap == AxisTable(z.dstW, z.srcW) && ymap == AxisTable(z.dstH, z.srcH)
    modifies dst
    ensures out.len == dstYu + 2 * dstC <= out.buf.Length && (out.buf == dst || fresh(out.buf))
    ensures IsScaled(out.buf[..out.len], src[..], z, dstYu, dstYu + dstC, srcY, srcC)
  {
    var outLen := dstYu + 2 * dstC;
    var buf := Room(dst, outLen);
    LumaPlane(buf, src, z, xmap, ymap, dstYu);
    ChromaPlanes(buf, src, z, xmap, ymap, srcY, srcC, dstYu, dstYu + dstC, dstC);
    out := Slice(buf, outLen);
  }
}
