/**
 * Planes of bytes in row-major order, their quarter turns and mirror images, and
 * the dihedral laws these obey. Everything is stated on coordinates; sizes are
 * arbitrary.
 */
module PlaneAlgebra {
  import opened Basics

  // ---------------------------------------------------------------- row-major indices

  lemma IndexInRange(w: nat, h: nat, x: nat, y: nat)
    requires x < w && y < h
    ensures y * w + x < y * w + w <= h * w
  {
    MulStep(y, h, w);
  }

  lemma IndexSplit(w: nat, h: nat, k: nat)
    requires k < h * w
    ensures w > 0 && k / w < h && k % w < w && k == (k / w) * w + k % w
  {
    assert w > 0;
    if k / w >= h {
      MulMono(h, k / w, w);
    }
  }

  // ---------------------------------------------------------------- planes

  /** The byte at `i`; outside the plane the value is immaterial. */
  function Get(s: seq<Byte>, i: int): Byte {
    if 0 <= i < |s| then s[i] else 0
  }

  function At(s: seq<Byte>, w: nat, x: int, y: int): Byte {
    Get(s, y * w + x)
  }

  /** The `w` by `h` plane whose pixel at (x, y) is `f(x, y)`. */
  function Plane(w: nat, h: nat, f: (int, int) -> Byte): (s: seq<Byte>)
    ensures |s| == h * w
  {
    seq(h * w, k => if w == 0 then 0 else f(k % w, k / w))
  }

  lemma PlaneAt(w: nat, h: nat, f: (int, int) -> Byte, x: nat, y: nat)
    requires x < w && y < h
    ensures At(Plane(w, h, f), w, x, y) == f(x, y)
  {
    IndexInRange(w, h, x, y);
    IndexDivMod(w, x, y);
  }

  /** Planes are equal when all their pixels are. */
  lemma PlanesEqual(s: seq<Byte>, t: seq<Byte>, w: nat, h: nat)
    requires |s| == |t| == h * w
    requires forall x, y :: 0 <= x < w && 0 <= y < h ==> At(s, w, x, y) == At(t, w, x, y)
    ensures s == t
  {
    forall k | 0 <= k < h * w ensures s[k] == t[k] {
      IndexSplit(w, h, k);
      assert At(s, w, k % w, k / w) == At(t, w, k % w, k / w);
    }
  }

  /** A quarter turn clockwise; the result is `h` wide and `w` high. */
  function Rot90(s: seq<Byte>, w: nat, h: nat): (t: seq<Byte>)
    ensures |t| == w * h
  {
    Plane(h, w, (x, y) => At(s, w, y, h - 1 - x))
  }

  /** A quarter turn counter-clockwise; the result is `h` wide and `w` high. */
  function Rot270(s: seq<Byte>, w: nat, h: nat): (t: seq<Byte>)
    ensures |t| == w * h
  {
    Plane(h, w, (x, y) => At(s, w, w - 1 - y, x))
  }

  function Rot180(s: seq<Byte>, w: nat, h: nat): (t: seq<Byte>)
    ensures |t| == h * w
  {
    Plane(w, h, (x, y) => At(s, w, w - 1 - x, h - 1 - y))
  }

  function Mirror(flip: bool, n: nat, x: int): int {
    if flip then n - 1 - x else x
  }

  /** Mirrored left to right when `hflip`, top to bottom when `vflip`. */
  function Flip(s: seq<Byte>, w: nat, h: nat, hflip: bool, vflip: bool): (t: seq<Byte>)
    ensures |t| == h * w
  {
    Plane(w, h, (x, y) => At(s, w, Mirror(hflip, w, x), Mirror(vflip, h, y)))
  }

  lemma Rot90At(s: seq<Byte>, w: nat, h: nat, x: nat, y: nat)
    requires x < h && y < w
    ensures At(Rot90(s, w, h), h, x, y) == At(s, w, y, h - 1 - x)
  {
    PlaneAt(h, w, (x, y) => At(s, w, y, h - 1 - x), x, y);
  }

  lemma Rot270At(s: seq<Byte>, w: nat, h: nat, x: nat, y: nat)
    requires x < h && y < w
    ensures At(Rot270(s, w, h), h, x, y) == At(s, w, w - 1 - y, x)
  {
    PlaneAt(h, w, (x, y) => At(s, w, w - 1 - y, x), x, y);
  }

  lemma Rot180At(s: seq<Byte>, w: nat, h: nat, x: nat, y: nat)
    requires x < w && y < h
    ensures At(Rot180(s, w, h), w, x, y) == At(s, w, w - 1 - x, h - 1 - y)
  {
    PlaneAt(w, h, (x, y) => At(s, w, w - 1 - x, h - 1 - y), x, y);
  }

  lemma FlipAt(s: seq<Byte>, w: nat, h: nat, hflip: bool, vflip: bool, x: nat, y: nat)
    requires x < w && y < h
    ensures At(Flip(s, w, h, hflip, vflip), w, x, y) == At(s, w, Mirror(hflip, w, x), Mirror(vflip, h, y))
  {
    PlaneAt(w, h, (x, y) => At(s, w, Mirror(hflip, w, x), Mirror(vflip, h, y)), x, y);
  }

  // ---------------------------------------------------------------- dihedral laws

  lemma Rot270UndoesRot90(s: seq<Byte>, w: nat, h: nat)
    requires |s| == h * w
    ensures Rot270(Rot90(s, w, h), h, w) == s
  {
    var r := Rot90(s, w, h);
    forall x, y | 0 <= x < w && 0 <= y < h ensures At(Rot270(r, h, w), w, x, y) == At(s, w, x, y) {
      Rot270At(r, h, w, x, y);
      Rot90At(s, w, h, h - 1 - y, x);
    }
    PlanesEqual(Rot270(r, h, w), s, w, h);
  }

  lemma Rot90UndoesRot270(s: seq<Byte>, w: nat, h: nat)
    requires |s| == h * w
    ensures Rot90(Rot270(s, w, h), h, w) == s
  {
    var r := Rot270(s, w, h);
    forall x, y | 0 <= x < w && 0 <= y < h ensures At(Rot90(r, h, w), w, x, y) == At(s, w, x, y) {
      Rot90At(r, h, w, x, y);
      Rot270At(s, w, h, y, w - 1 - x);
    }
    PlanesEqual(Rot90(r, h, w), s, w, h);
  }

  lemma TwoQuarterTurns(s: seq<Byte>, w: nat, h: nat)
    requires |s| == h * w
    ensures Rot90(Rot90(s, w, h), h, w) == Rot180(s, w, h)
  {
    var r := Rot90(s, w, h);
    forall x, y | 0 <= x < w && 0 <= y < h
      ensures At(Rot90(r, h, w), w, x, y) == At(Rot180(s, w, h), w, x, y)
    {
      Rot90At(r, h, w, x, y);
      Rot90At(s, w, h, y, w - 1 - x);
      Rot180At(s, w, h, x, y);
    }
    PlanesEqual(Rot90(r, h, w), Rot180(s, w, h), w, h);
  }

  /** A half turn is both mirrors. */
  lemma HalfTurnIsBothFlips(s: seq<Byte>, w: nat, h: nat)
    requires |s| == h * w
    ensures Rot180(s, w, h) == Flip(s, w, h, true, true)
  {
    forall x, y | 0 <= x < w && 0 <= y < h
      ensures At(Rot180(s, w, h), w, x, y) == At(Flip(s, w, h, true, true), w, x, y)
    {
      Rot180At(s, w, h, x, y);
      FlipAt(s, w, h, true, true, x, y);
    }
    PlanesEqual(Rot180(s, w, h), Flip(s, w, h, true, true), w, h);
  }

  /** Flips compose by exclusive or; in particular each is its own inverse. */
  lemma FlipsCompose(s: seq<Byte>, w: nat, h: nat, a: bool, b: bool, c: bool, d: bool)
    requires |s| == h * w
    ensures Flip(Flip(s, w, h, a, b), w, h, c, d) == Flip(s, w, h, a != c, b != d)
    ensures Flip(s, w, h, false, false) == s
  {
    var f := Flip(s, w, h, a, b);
    forall x, y | 0 <= x < w && 0 <= y < h
      ensures At(Flip(f, w, h, c, d), w, x, y) == At(Flip(s, w, h, a != c, b != d), w, x, y)
      ensures At(Flip(s, w, h, false, false), w, x, y) == At(s, w, x, y)
    {
      FlipAt(f, w, h, c, d, x, y);
      FlipAt(s, w, h, a, b, Mirror(c, w, x), Mirror(d, h, y));
      FlipAt(s, w, h, a != c, b != d, x, y);
      FlipAt(s, w, h, false, false, x, y);
    }
    PlanesEqual(Flip(f, w, h, c, d), Flip(s, w, h, a != c, b != d), w, h);
    PlanesEqual(Flip(s, w, h, false, false), s, w, h);
  }

  lemma FourQuarterTurns(s: seq<Byte>, w: nat, h: nat)
    requires |s| == h * w
    ensures Rot90(Rot90(Rot90(Rot90(s, w, h), h, w), w, h), h, w) == s
  {
    TwoQuarterTurns(s, w, h);
    var half := Rot180(s, w, h);
    TwoQuarterTurns(half, w, h);
    HalfTurnIsBothFlips(s, w, h);
    HalfTurnIsBothFlips(half, w, h);
    FlipsCompose(s, w, h, true, true, true, true);
  }

  /** A mirror moves through a quarter turn as the mirror of the other axis. */
  lemma FlipThroughRot90(s: seq<Byte>, w: nat, h: nat, a: bool, b: bool)
    requires |s| == h * w
    ensures Flip(Rot90(s, w, h), h, w, a, b) == Rot90(Flip(s, w, h, b, a), w, h)
  {
    var r, f := Rot90(s, w, h), Flip(s, w, h, b, a);
    forall x, y | 0 <= x < h && 0 <= y < w
      ensures At(Flip(r, h, w, a, b), h, x, y) == At(Rot90(f, w, h), h, x, y)
    {
      FlipAt(r, h, w, a, b, x, y);
      Rot90At(s, w, h, Mirror(a, h, x), Mirror(b, w, y));
      Rot90At(f, w, h, x, y);
      FlipAt(s, w, h, b, a, y, h - 1 - x);
    }
    PlanesEqual(Flip(r, h, w, a, b), Rot90(f, w, h), h, w);
  }
}
