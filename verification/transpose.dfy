/**
 * The cache-blocked plane transpose: 64 by 64 tiles are gathered into a scratch
 * block and scattered into the destination, one contiguous run per tile column.
 */
module Transpose {
  import opened Basics
  import opened PlaneAlgebra

  const TILE: nat := 64

  /** The plane the transpose produces: a quarter turn in either direction. */
  function Turned(s: seq<Byte>, pw: nat, ph: nat, clockwise: bool): (t: seq<Byte>)
    ensures |t| == pw * ph
  {
    if clockwise then Rot90(s, pw, ph) else Rot270(s, pw, ph)
  }

  /** The source column and row that destination index `k` comes from. */
  function SX(k: nat, pw: nat, ph: nat, clockwise: bool): int {
    if ph == 0 then 0 else if clockwise then k / ph else pw - 1 - k / ph
  }

  function SY(k: nat, pw: nat, ph: nat, clockwise: bool): int {
    if ph == 0 then 0 else if clockwise then ph - 1 - k % ph else k % ph
  }

  lemma TurnedAt(s: seq<Byte>, pw: nat, ph: nat, clockwise: bool, k: nat)
    requires k < pw * ph
    ensures 0 <= SX(k, pw, ph, clockwise) < pw && 0 <= SY(k, pw, ph, clockwise) < ph
    ensures Turned(s, pw, ph, clockwise)[k] == At(s, pw, SX(k, pw, ph, clockwise), SY(k, pw, ph, clockwise))
  {
    IndexSplit(ph, pw, k);
  }

  /** Where the run for source column `sx` and source rows `sy0 .. sy0 + n` begins. */
  function RunStart(pw: nat, ph: nat, clockwise: bool, sx: nat, sy0: nat, n: nat): nat
    requires sx < pw && sy0 + n <= ph
  {
    var row: nat := if clockwise then sx else pw - 1 - sx;
    row * ph + (if clockwise then ph - sy0 - n else sy0)
  }

  /** That run is exactly the cells that come from those source cells. */
  lemma RunCells(pw: nat, ph: nat, clockwise: bool, sx: nat, sy0: nat, n: nat, k: nat)
    requires sx < pw && sy0 + n <= ph && k < pw * ph
    ensures RunStart(pw, ph, clockwise, sx, sy0, n) + n <= pw * ph
    ensures RunStart(pw, ph, clockwise, sx, sy0, n) <= k < RunStart(pw, ph, clockwise, sx, sy0, n) + n <==>
              SX(k, pw, ph, clockwise) == sx && sy0 <= SY(k, pw, ph, clockwise) < sy0 + n
    ensures var d := RunStart(pw, ph, clockwise, sx, sy0, n);
            d <= k < d + n ==>
              SY(k, pw, ph, clockwise) == sy0 + (if clockwise then n - 1 - (k - d) else k - d)
  {
    var row := if clockwise then sx else pw - 1 - sx;
    IndexSplit(ph, pw, k);
    MulStep(row, pw, ph);
    var q := k / ph;
    if q < row {
      MulStep(q, row, ph);
    } else if row < q {
      MulStep(row, q, ph);
    }
  }

  // ---------------------------------------------------------------- one tile

  function TileAt(tile: seq<Byte>, i: int, j: int): Byte {
    Get(tile, i * TILE + j)
  }

  /** Row `i` of the tile is the source run of length `sxN` at column `sx0`, row `sy0 + i`. */
  predicate Gathered(tile: seq<Byte>, s: seq<Byte>, pw: nat, sx0: nat, sxN: nat, sy0: nat, rows: nat) {
    && |tile| == TILE * TILE && sxN <= TILE && rows <= TILE
    && forall i, j :: 0 <= i < rows && 0 <= j < sxN ==>
        TileAt(tile, i, j) == At(s, pw, sx0 + j, sy0 + i)
  }

  method CopyInto(tile: array<Byte>, at: nat, src: array<Byte>, from: nat, n: nat)
    requires tile != src && at + n <= tile.Length && from + n <= src.Length
    modifies tile
    ensures forall i :: 0 <= i < tile.Length ==>
              tile[i] == if at <= i < at + n then src[from + (i - at)] else old(tile[i])
  {
    for k := 0 to n
      invariant forall i :: 0 <= i < tile.Length ==>
                  tile[i] == if at <= i < at + k then src[from + (i - at)] else old(tile[i])
    {
      tile[at + k] := src[from + k];
    }
  }

  method Gather(tile: array<Byte>, src: array<Byte>, soff: nat, ghost s: seq<Byte>, pw: nat, ph: nat,
                sx0: nat, sxN: nat, sy0: nat, syN: nat)
    requires tile != src && tile.Length == TILE * TILE
    requires soff + |s| <= src.Length && |s| == pw * ph && s == src[soff..soff + |s|]
    requires sxN <= TILE && syN <= TILE && sx0 + sxN <= pw && sy0 + syN <= ph
    modifies tile
    ensures Gathered(tile[..], s, pw, sx0, sxN, sy0, syN)
  {
    for i := 0 to syN
      invariant Gathered(tile[..], s, pw, sx0, sxN, sy0, i)
    {
      GatherRow(tile, src, soff, s, pw, ph, sx0, sxN, sy0, i);
    }
  }

  method GatherRow(tile: array<Byte>, src: array<Byte>, soff: nat, ghost s: seq<Byte>, pw: nat, ghost ph: nat,
                   sx0: nat, sxN: nat, sy0: nat, i: nat)
    requires tile != src && tile.Length == TILE * TILE && i < TILE
    requires soff + |s| <= src.Length && |s| == pw * ph && s == src[soff..soff + |s|]
    requires sxN <= TILE && sx0 + sxN <= pw && sy0 + i < ph && Gathered(tile[..], s, pw, sx0, sxN, sy0, i)
    modifies tile
    ensures Gathered(tile[..], s, pw, sx0, sxN, sy0, i + 1)
  {
    RunInPlane(pw, ph, sx0, sxN, sy0 + i);
    var from := (sy0 + i) * pw + sx0;
    ghost var before := tile[..];
    CopyInto(tile, i * TILE, src, soff + from, sxN);
    GatherStep(before, tile[..], s, pw, sx0, sxN, sy0, i, from);
  }

  lemma RunInPlane(pw: nat, ph: nat, sx0: nat, n: nat, y: nat)
    requires sx0 + n <= pw && y < ph
    ensures y * pw + sx0 + n <= pw * ph
  {
    MulStep(y, ph, pw);
  }

  lemma GatherStep(before: seq<Byte>, after: seq<Byte>, s: seq<Byte>, pw: nat,
                   sx0: nat, sxN: nat, sy0: nat, i: nat, from: nat)
    requires Gathered(before, s, pw, sx0, sxN, sy0, i) && i < TILE && |after| == TILE * TILE
    requires from == (sy0 + i) * pw + sx0 && from + sxN <= |s|
    requires forall m :: 0 <= m < |after| ==>
               after[m] == if i * TILE <= m < i * TILE + sxN then s[from + (m - i * TILE)] else before[m]
    ensures Gathered(after, s, pw, sx0, sxN, sy0, i + 1)
  {
    forall r, j | 0 <= r < i + 1 && 0 <= j < sxN
      ensures TileAt(after, r, j) == At(s, pw, sx0 + j, sy0 + r)
    {
      if r < i {
        assert TileAt(before, r, j) == At(s, pw, sx0 + j, sy0 + r);
      }
    }
  }

  /** Does destination index `k` take a source cell in columns `x0 .. x1`, rows `y0 .. y1`? */
  predicate FromBlock(k: nat, pw: nat, ph: nat, clockwise: bool, x0: nat, x1: nat, y0: nat, y1: nat) {
    x0 <= SX(k, pw, ph, clockwise) < x1 && y0 <= SY(k, pw, ph, clockwise) < y1
  }

  /**
   * The buffer `o` with the destination cells of one source block filled in; the
   * plane begins at `doff`, and `s` is the source plane.
   */
  ghost function Filled(o: seq<Byte>, doff: nat, s: seq<Byte>, pw: nat, ph: nat, clockwise: bool,
                        x0: nat, x1: nat, y0: nat, y1: nat): (t: seq<Byte>)
    ensures |t| == |o|
  {
    seq(|o|, i requires 0 <= i < |o| =>
      if doff <= i < doff + pw * ph && FromBlock(i - doff, pw, ph, clockwise, x0, x1, y0, y1)
      then Turned(s, pw, ph, clockwise)[i - doff] else o[i])
  }

  lemma FilledColumns(o: seq<Byte>, doff: nat, s: seq<Byte>, pw: nat, ph: nat, clockwise: bool,
                      x0: nat, x1: nat, x2: nat, y0: nat, y1: nat)
    requires x0 <= x1 <= x2
    ensures Filled(Filled(o, doff, s, pw, ph, clockwise, x0, x1, y0, y1), doff, s, pw, ph, clockwise, x1, x2, y0, y1)
         == Filled(o, doff, s, pw, ph, clockwise, x0, x2, y0, y1)
  {
    var f := Filled(o, doff, s, pw, ph, clockwise, x0, x1, y0, y1);
    var g := Filled(f, doff, s, pw, ph, clockwise, x1, x2, y0, y1);
    var h := Filled(o, doff, s, pw, ph, clockwise, x0, x2, y0, y1);
    forall i | 0 <= i < |o| ensures g[i] == h[i] {
      if doff <= i < doff + pw * ph { TurnedAt(s, pw, ph, clockwise, i - doff); }
    }
  }

  lemma FilledRows(o: seq<Byte>, doff: nat, s: seq<Byte>, pw: nat, ph: nat, clockwise: bool,
                   x1: nat, y1: nat, y2: nat)
    requires y1 <= y2
    ensures Filled(Filled(o, doff, s, pw, ph, clockwise, 0, x1, 0, y1), doff, s, pw, ph, clockwise, 0, x1, y1, y2)
         == Filled(o, doff, s, pw, ph, clockwise, 0, x1, 0, y2)
  {
    var f := Filled(o, doff, s, pw, ph, clockwise, 0, x1, 0, y1);
    var g := Filled(f, doff, s, pw, ph, clockwise, 0, x1, y1, y2);
    var h := Filled(o, doff, s, pw, ph, clockwise, 0, x1, 0, y2);
    forall i | 0 <= i < |o| ensures g[i] == h[i] {
      if doff <= i < doff + pw * ph { TurnedAt(s, pw, ph, clockwise, i - doff); }
    }
  }

  /** Filling an empty block changes nothing. */
  lemma FilledNone(o: seq<Byte>, doff: nat, s: seq<Byte>, pw: nat, ph: nat, clockwise: bool,
                   x0: nat, x1: nat, y0: nat, y1: nat)
    requires x0 == x1 || y0 == y1
    ensures Filled(o, doff, s, pw, ph, clockwise, x0, x1, y0, y1) == o
  {
    var f := Filled(o, doff, s, pw, ph, clockwise, x0, x1, y0, y1);
    forall i | 0 <= i < |o| ensures f[i] == o[i] {
      if doff <= i < doff + pw * ph { TurnedAt(s, pw, ph, clockwise, i - doff); }
    }
  }

  /** Filling every block produces the turned plane. */
  lemma FilledAll(o: seq<Byte>, doff: nat, s: seq<Byte>, pw: nat, ph: nat, clockwise: bool, x1: nat, y1: nat)
    requires x1 >= pw && y1 >= ph && doff + pw * ph <= |o|
    ensures Filled(o, doff, s, pw, ph, clockwise, 0, x1, 0, y1)
         == o[..doff] + Turned(s, pw, ph, clockwise) + o[doff + pw * ph..]
  {
    var f := Filled(o, doff, s, pw, ph, clockwise, 0, x1, 0, y1);
    forall i | doff <= i < doff + pw * ph ensures f[i] == Turned(s, pw, ph, clockwise)[i - doff] {
      TurnedAt(s, pw, ph, clockwise, i - doff);
    }
  }

  /** The bytes of tile column `j` in the order they are written. */
  function ColumnAt(tile: seq<Byte>, clockwise: bool, n: nat, j: nat, k: int): Byte {
    TileAt(tile, if clockwise then n - 1 - k else k, j)
  }

  /** Tile column `j`, reversed for clockwise, becomes one run of the destination. */
  method ScatterColumn(dst: array<Byte>, doff: nat, tile: array<Byte>, ghost s: seq<Byte>, pw: nat, ph: nat,
                       clockwise: bool, sx0: nat, sxN: nat, sy0: nat, syN: nat, j: nat)
    requires dst != tile && doff + pw * ph <= dst.Length && j < sxN
    requires Gathered(tile[..], s, pw, sx0, sxN, sy0, syN)
    requires sx0 + sxN <= pw && sy0 + syN <= ph
    modifies dst
    ensures dst[..] == Filled(old(dst[..]), doff, s, pw, ph, clockwise, sx0 + j, sx0 + j + 1, sy0, sy0 + syN)
  {
    var d := doff + RunStart(pw, ph, clockwise, sx0 + j, sy0, syN);
    RunEnd(pw, ph, clockwise, sx0 + j, sy0, syN);
    ghost var column := tile[..];
    for k := 0 to syN
      invariant forall i :: 0 <= i < dst.Length ==>
                  dst[i] == if d <= i < d + k then ColumnAt(column, clockwise, syN, j, i - d) else old(dst[i])
    {
      dst[d + k] := tile[(if clockwise then syN - 1 - k else k) * TILE + j];
    }
    RunIsFilled(old(dst[..]), dst[..], doff, column, s, pw, ph, clockwise, sx0, sxN, sy0, syN, j);
  }

  lemma RunIsFilled(o: seq<Byte>, t: seq<Byte>, doff: nat, tile: seq<Byte>, s: seq<Byte>, pw: nat, ph: nat,
                    clockwise: bool, sx0: nat, sxN: nat, sy0: nat, syN: nat, j: nat)
    requires doff + pw * ph <= |o| == |t| && j < sxN && sx0 + sxN <= pw && sy0 + syN <= ph
    requires Gathered(tile, s, pw, sx0, sxN, sy0, syN)
    requires var d := doff + RunStart(pw, ph, clockwise, sx0 + j, sy0, syN);
             forall i :: 0 <= i < |t| ==>
               t[i] == if d <= i < d + syN then ColumnAt(tile, clockwise, syN, j, i - d) else o[i]
    ensures t == Filled(o, doff, s, pw, ph, clockwise, sx0 + j, sx0 + j + 1, sy0, sy0 + syN)
  {
    var d := doff + RunStart(pw, ph, clockwise, sx0 + j, sy0, syN);
    RunEnd(pw, ph, clockwise, sx0 + j, sy0, syN);
    var f := Filled(o, doff, s, pw, ph, clockwise, sx0 + j, sx0 + j + 1, sy0, sy0 + syN);
    forall i | 0 <= i < |t| ensures t[i] == f[i] {
      if doff <= i < doff + pw * ph {
        RunCells(pw, ph, clockwise, sx0 + j, sy0, syN, i - doff);
        TurnedAt(s, pw, ph, clockwise, i - doff);
      }
    }
  }

  lemma RunEnd(pw: nat, ph: nat, clockwise: bool, sx: nat, sy0: nat, n: nat)
    requires sx < pw && sy0 + n <= ph
    ensures RunStart(pw, ph, clockwise, sx, sy0, n) + n <= pw * ph
  {
    MulStep(if clockwise then sx else pw - 1 - sx, pw, ph);
  }

  method Scatter(dst: array<Byte>, doff: nat, tile: array<Byte>, ghost s: seq<Byte>, pw: nat, ph: nat,
                 clockwise: bool, sx0: nat, sxN: nat, sy0: nat, syN: nat)
    requires dst != tile && doff + pw * ph <= dst.Length
    requires Gathered(tile[..], s, pw, sx0, sxN, sy0, syN)
    requires sx0 + sxN <= pw && sy0 + syN <= ph
    modifies dst
    ensures dst[..] == Filled(old(dst[..]), doff, s, pw, ph, clockwise, sx0, sx0 + sxN, sy0, sy0 + syN)
  {
    ghost var o := dst[..];
    FilledNone(o, doff, s, pw, ph, clockwise, sx0, sx0, sy0, sy0 + syN);
    for j := 0 to sxN
      invariant dst[..] == Filled(o, doff, s, pw, ph, clockwise, sx0, sx0 + j, sy0, sy0 + syN)
    {
      ScatterColumn(dst, doff, tile, s, pw, ph, clockwise, sx0, sxN, sy0, syN, j);
      FilledColumns(o, doff, s, pw, ph, clockwise, sx0, sx0 + j, sx0 + j + 1, sy0, sy0 + syN);
    }
  }

  // ---------------------------------------------------------------- the plane

  /** One tile: read into the tile buffer row by row, written out column by column. */
  method TransposeTile(src: array<Byte>, soff: nat, dst: array<Byte>, doff: nat, tile: array<Byte>,
                       ghost s: seq<Byte>, pw: nat, ph: nat, clockwise: bool,
                       sx0: nat, sxN: nat, sy0: nat, syN: nat)
    requires src != dst && src != tile && dst != tile && tile.Length == TILE * TILE
    requires soff + |s| <= src.Length && |s| == pw * ph && doff + pw * ph <= dst.Length
    requires s == src[soff..soff + |s|]
    requires sxN <= TILE && syN <= TILE && sx0 + sxN <= pw && sy0 + syN <= ph
    modifies dst, tile
    ensures dst[..] == Filled(old(dst[..]), doff, s, pw, ph, clockwise, sx0, sx0 + sxN, sy0, sy0 + syN)
  {
    ghost var before := dst[..];
    Gather(tile, src, soff, s, pw, ph, sx0, sxN, sy0, syN);
    assert dst[..] == before;
    Scatter(dst, doff, tile, s, pw, ph, clockwise, sx0, sxN, sy0, syN);
  }

  /** One horizontal band of tiles. */
  method TransposeBand(src: array<Byte>, soff: nat, dst: array<Byte>, doff: nat, tile: array<Byte>,
                       ghost s: seq<Byte>, pw: nat, ph: nat, clockwise: bool, sy0: nat, syN: nat)
    requires src != dst && src != tile && dst != tile && tile.Length == TILE * TILE
    requires soff + |s| <= src.Length && |s| == pw * ph && doff + pw * ph <= dst.Length
    requires s == src[soff..soff + |s|] && syN <= TILE && sy0 + syN <= ph
    modifies dst, tile
    ensures dst[..] == Filled(old(dst[..]), doff, s, pw, ph, clockwise, 0, pw, sy0, sy0 + syN)
  {
    ghost var o, y1 := dst[..], sy0 + syN;
    FilledNone(o, doff, s, pw, ph, clockwise, 0, 0, sy0, y1);
    var sx0 := 0;
    while sx0 < pw
      invariant dst[..] == Filled(o, doff, s, pw, ph, clockwise, 0, Min(sx0, pw), sy0, y1)
    {
      var sxN := Min(TILE, pw - sx0);
      TransposeTile(src, soff, dst, doff, tile, s, pw, ph, clockwise, sx0, sxN, sy0, syN);
      FilledColumns(o, doff, s, pw, ph, clockwise, 0, sx0, sx0 + sxN, sy0, y1);
      sx0 := sx0 + TILE;
    }
  }

  /** The tiled transpose turns the plane at `soff` of `src` into the plane at `doff` of `dst`. */
  method TransposePlane(src: array<Byte>, soff: nat, dst: array<Byte>, doff: nat, pw: nat, ph: nat, clockwise: bool)
    requires src != dst && soff + pw * ph <= src.Length && doff + pw * ph <= dst.Length
    modifies dst
    ensures dst[..] == old(dst[..doff])
                       + Turned(old(src[soff..soff + pw * ph]), pw, ph, clockwise)
                       + old(dst[doff + pw * ph..])
  {
    var tile := new Byte[TILE * TILE](_ => 0);
    ghost var s, o := src[soff..soff + pw * ph], dst[..];
    FilledNone(o, doff, s, pw, ph, clockwise, 0, pw, 0, 0);
    var sy0 := 0;
    while sy0 < ph
      invariant dst[..] == Filled(o, doff, s, pw, ph, clockwise, 0, pw, 0, Min(sy0, ph))
    {
      var syN := Min(TILE, ph - sy0);
      TransposeBand(src, soff, dst, doff, tile, s, pw, ph, clockwise, sy0, syN);
      FilledRows(o, doff, s, pw, ph, clockwise, pw, sy0, sy0 + syN);
      sy0 := sy0 + TILE;
    }
    FilledAll(o, doff, s, pw, ph, clockwise, pw, ph);
  }
}
