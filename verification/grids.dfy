/** Two-dimensional rasters as sequences of rows, and the elementwise
    lifting that numpy's `np.where` performs on them. */
module Grids {

  /** A raster: a sequence of rows.  Tiles are 4800 x 4800. */
  type Raster<T> = seq<seq<T>>

  /** A raster of plain integers (uint8, int16, ... pixel values). */
  type Grid = Raster<int>

  const TileSize: nat := 4800

  predicate HasShape<T>(g: Raster<T>, rows: nat, cols: nat)
  {
    |g| == rows && forall i :: 0 <= i < rows ==> |g[i]| == cols
  }

  predicate SameShape<A, B>(a: Raster<A>, b: Raster<B>)
  {
    |a| == |b| && forall i :: 0 <= i < |a| ==> |a[i]| == |b[i]|
  }

  predicate InBounds<T>(g: Raster<T>, i: int, j: int)
  {
    0 <= i < |g| && 0 <= j < |g[i]|
  }

  /** A raster of the given shape holding `v` everywhere (np.zeros / fill). */
  function Fill<T>(rows: nat, cols: nat, v: T): (r: Raster<T>)
    ensures HasShape(r, rows, cols)
    ensures forall i, j :: 0 <= i < rows && 0 <= j < cols ==> r[i][j] == v
  {
    seq(rows, i => seq(cols, j => v))
  }

  /** Elementwise application of a per-pixel rule. */
  function Map<A, B>(g: Raster<A>, f: A -> B): (r: Raster<B>)
    ensures SameShape(g, r)
    ensures forall i, j :: InBounds(g, i, j) ==> r[i][j] == f(g[i][j])
  {
    seq(|g|, i requires 0 <= i < |g| =>
      seq(|g[i]|, j requires 0 <= j < |g[i]| => f(g[i][j])))
  }

  /** Elementwise application of a per-pixel rule on two rasters of one shape. */
  function Map2<A, B, C>(a: Raster<A>, b: Raster<B>, f: (A, B) -> C): (r: Raster<C>)
    requires SameShape(a, b)
    ensures SameShape(a, r)
    ensures forall i, j :: InBounds(a, i, j) ==> r[i][j] == f(a[i][j], b[i][j])
  {
    seq(|a|, i requires 0 <= i < |a| =>
      seq(|a[i]|, j requires 0 <= j < |a[i]| => f(a[i][j], b[i][j])))
  }

  /** Elementwise application of a per-pixel rule on three rasters of one shape. */
  function Map3<A, B, C, D>(a: Raster<A>, b: Raster<B>, c: Raster<C>, f: (A, B, C) -> D): (r: Raster<D>)
    requires SameShape(a, b) && SameShape(a, c)
    ensures SameShape(a, r)
    ensures forall i, j :: InBounds(a, i, j) ==> r[i][j] == f(a[i][j], b[i][j], c[i][j])
  {
    seq(|a|, i requires 0 <= i < |a| =>
      seq(|a[i]|, j requires 0 <= j < |a[i]| => f(a[i][j], b[i][j], c[i][j])))
  }

  /** Some in-bounds 4-neighbour (up, down, left, right) of pixel (i, j)
      satisfies `p`.  Out-of-bounds neighbours count as not satisfying it,
      as numpy's shifted-slice masks and scipy's zero border both do. */
  predicate SomeNeighbour<T>(g: Raster<T>, i: int, j: int, p: T -> bool)
  {
    || (InBounds(g, i - 1, j) && p(g[i - 1][j]))
    || (InBounds(g, i + 1, j) && p(g[i + 1][j]))
    || (InBounds(g, i, j - 1) && p(g[i][j - 1]))
    || (InBounds(g, i, j + 1) && p(g[i][j + 1]))
  }

  /** Every in-bounds 4-neighbour of pixel (i, j) satisfies `p`. */
  predicate AllNeighbours<T>(g: Raster<T>, i: int, j: int, p: T -> bool)
  {
    && (InBounds(g, i - 1, j) ==> p(g[i - 1][j]))
    && (InBounds(g, i + 1, j) ==> p(g[i + 1][j]))
    && (InBounds(g, i, j - 1) ==> p(g[i][j - 1]))
    && (InBounds(g, i, j + 1) ==> p(g[i][j + 1]))
  }

  /** The pixel at (i, j), or `d` when the raster has no such pixel. */
  function At<T>(g: Raster<T>, i: int, j: int, d: T): T
  {
    if InBounds(g, i, j) then g[i][j] else d
  }

  /** `b` read over the shape of `like`, with 0 where `b` has no pixel. */
  function Conform<T>(b: Grid, like: Raster<T>): (r: Grid)
    ensures SameShape(like, r)
    ensures forall i, j :: InBounds(like, i, j) ==> r[i][j] == At(b, i, j, 0)
  {
    seq(|like|, i requires 0 <= i < |like| =>
      seq(|like[i]|, j requires 0 <= j < |like[i]| => At(b, i, j, 0)))
  }

  /** Two rasters of the shape of a third share their shape. */
  lemma SameShapeVia<A, B, C>(p: Raster<A>, a: Raster<B>, b: Raster<C>)
    requires SameShape(p, a) && SameShape(p, b)
    ensures SameShape(a, b)
  {
  }

  /** Every raster of `gs` has the shape of `like`. */
  predicate Stacked<A, B>(like: Raster<A>, gs: seq<Raster<B>>)
  {
    forall k :: 0 <= k < |gs| ==> SameShape(like, gs[k])
  }

  /** A stack stays one when its reference is replaced by a raster of the
      same shape, and every pixel of the reference is a pixel of each layer. */
  lemma StackedVia<A, B, C>(like: Raster<A>, other: Raster<B>, gs: seq<Raster<C>>)
    requires Stacked(like, gs) && SameShape(like, other)
    ensures Stacked(other, gs)
    ensures forall k, i, j :: 0 <= k < |gs| && InBounds(like, i, j) ==> InBounds(gs[k], i, j)
  {
    forall k | 0 <= k < |gs|
      ensures SameShape(other, gs[k])
    {
      SameShapeVia(like, other, gs[k]);
    }
  }
}
