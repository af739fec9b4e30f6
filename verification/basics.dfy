/** Types and sequence facts shared by the other modules. */
module Basics {

  type Byte = b: int | 0 <= b < 256

  datatype Option<+T> = None | Some(value: T)

  /** A slice: the first `len` bytes of a buffer, which may be longer. */
  datatype Slice = Slice(buf: array<Byte>, len: nat) {
    ghost predicate Valid() {
      len <= buf.Length
    }

    ghost function Bytes(): seq<Byte>
      requires Valid()
      reads buf
    {
      buf[..len]
    }
  }

  /** The bytes of an ASCII string. */
  function Ascii(s: string): seq<Byte> {
    seq(|s|, i requires 0 <= i < |s| => s[i] as int % 256)
  }

  // Times are in nanoseconds.

  const SECOND := 1_000_000_000
  const MILLISECOND := 1_000_000

  /** The concatenation of a list of lists, in order. */
  function Flatten<T>(xss: seq<seq<T>>): seq<T> {
    if xss == [] then [] else xss[0] + Flatten(xss[1..])
  }

  lemma {:induction false} FlattenAppend<T>(xss: seq<seq<T>>, yss: seq<seq<T>>)
    ensures Flatten(xss + yss) == Flatten(xss) + Flatten(yss)
  {
    if xss == [] {
      assert xss + yss == yss;
    } else {
      assert (xss + yss)[1..] == xss[1..] + yss;
      FlattenAppend(xss[1..], yss);
    }
  }

  lemma FlattenSnoc<T>(xss: seq<seq<T>>, ys: seq<T>)
    ensures Flatten(xss + [ys]) == Flatten(xss) + ys
  {
    FlattenAppend(xss, [ys]);
    assert Flatten([ys]) == ys + Flatten<T>([]) == ys;
  }

  lemma AppendStep<T>(xs: seq<T>, ys: seq<T>, zs: seq<T>)
    ensures xs + (ys + zs) == (xs + ys) + zs
    ensures xs + [] == xs
  {
  }

  /** A stretch of `o` overwritten by `t`, if it fits. */
  function Splice(o: seq<Byte>, at: nat, t: seq<Byte>): seq<Byte> {
    if at + |t| <= |o| then o[..at] + t + o[at + |t|..] else o
  }

  // ---------------------------------------------------------------- order-preserving selections

  /** `xs` lists the elements of `ys` at the ascending positions `ids`. */
  predicate Picks<T(==)>(xs: seq<T>, ids: seq<nat>, ys: seq<T>) {
    && |xs| == |ids|
    && (forall k :: 0 <= k < |ids| ==> ids[k] < |ys| && xs[k] == ys[ids[k]])
    && (forall j, k :: 0 <= j < k < |ids| ==> ids[j] < ids[k])
  }

  function Without<T>(xs: seq<T>, i: nat): seq<T>
    requires i < |xs|
  {
    xs[..i] + xs[i + 1..]
  }

  lemma PicksWithout<T>(xs: seq<T>, ids: seq<nat>, ys: seq<T>, i: nat)
    requires Picks(xs, ids, ys) && i < |xs|
    ensures Picks(Without(xs, i), Without(ids, i), ys)
  {
  }

  lemma PicksSnoc<T>(xs: seq<T>, ids: seq<nat>, ys: seq<T>, y: T)
    requires Picks(xs, ids, ys)
    ensures Picks(xs + [y], ids + [|ys|], ys + [y])
  {
  }

  lemma PicksLonger<T>(xs: seq<T>, ids: seq<nat>, ys: seq<T>, y: T)
    requires Picks(xs, ids, ys)
    ensures Picks(xs, ids, ys + [y])
  {
  }

  /** Numbers from `lo` up to, but not including, `hi`, each larger than the one before. */
  predicate Ascending(xs: seq<nat>, lo: nat, hi: nat) {
    && (forall k :: 0 <= k < |xs| ==> lo <= xs[k] < hi)
    && (forall j, k :: 0 <= j < k < |xs| ==> xs[j] < xs[k])
  }

  /** The numbers from `a` up to, but not including, `b`. */
  function From(a: nat, b: nat): (xs: seq<nat>)
    requires a <= b
    ensures |xs| == b - a
  {
    seq(b - a, k => a + k)
  }

  lemma FromSnoc(a: nat, b: nat)
    requires a <= b
    ensures From(a, b) + [b] == From(a, b + 1)
  {
  }

  lemma FromTail(a: nat, b: nat)
    requires a < b
    ensures From(a, b)[0] == a && From(a, b)[1..] == From(a + 1, b)
  {
  }

  function Max(a: int, b: int): int {
    if a >= b then a else b
  }

  function Min(a: int, b: int): int {
    if a < b then a else b
  }

  // ---------------------------------------------------------------- products and quotients

  lemma MulMono(a: nat, b: nat, c: nat)
    requires a <= b
    ensures a * c <= b * c
  {
  }

  lemma MulStep(a: nat, b: nat, c: nat)
    requires a < b
    ensures a * c + c <= b * c
  {
    MulMono(a + 1, b, c);
    assert (a + 1) * c == a * c + c;
  }

  /** A quotient and a remainder are all there is to a number. */
  lemma IndexDivMod(w: nat, x: nat, y: nat)
    requires x < w
    ensures (y * w + x) / w == y && (y * w + x) % w == x
  {
    var k := y * w + x;
    var q, r := k / w, k % w;
    assert k == q * w + r;
    if q < y {
      MulStep(q, y, w);
    } else if y < q {
      MulStep(y, q, w);
    }
  }
}
