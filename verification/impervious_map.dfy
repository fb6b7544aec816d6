/** The static impervious-surface mask: percentages thresholded into a
    binary mask and then eroded by one pixel through a 4-neighbour cross. */
module ImperviousMap {
  import opened Grids
  import opened Errors
  import opened Tiles

  const PercentageCutoffFloor: int := 75
  const PercentageCutoffCeil: int := 100
  const PercentageNodata: int := 255

  const NamePre: string := "Imp_Surf_"
  const NamePost: string := "_250m.tif"

  /** A percentage counted as impervious. */
  predicate InRange(v: int)
  {
    PercentageCutoffFloor <= v <= PercentageCutoffCeil
  }

  /** The thresholded uint8 mask, one pixel. */
  function Threshold(v: int): (b: int)
    ensures b == 0 || b == 1
    ensures b == 1 <==> InRange(v)
  {
    if PercentageCutoffFloor <= v && v <= PercentageCutoffCeil then 1 else 0
  }

  /** `x ^ 1` on a 0/1 pixel. */
  function Flip(b: int): int
  {
    if b == 0 then 1 else if b == 1 then 0 else b
  }

  predicate NonZero(v: int) { v != 0 }

  /** `binary_dilation` with the cross kernel `[[0,1,0],[1,0,1],[0,1,0]]`:
      a pixel is set when one of its in-bounds 4-neighbours is non-zero.  The
      centre of the kernel is 0, so the pixel's own value does not count,
      and outside the raster counts as 0. */
  function Dilate(g: Grid): (r: Grid)
    ensures SameShape(g, r)
  {
    seq(|g|, i requires 0 <= i < |g| =>
      seq(|g[i]|, j requires 0 <= j < |g[i]| =>
        if SomeNeighbour(g, i, j, NonZero) then 1 else 0))
  }

  /** `generateImperviousBinaryMask` once the percentages are in hand:
      threshold, flip, dilate, flip.  The result is 1 exactly where every
      in-bounds 4-neighbour is impervious. */
  function BinaryMask(percentages: Grid): (r: Grid)
    ensures SameShape(percentages, r)
    ensures forall i, j :: InBounds(percentages, i, j) ==>
      (r[i][j] == 0 || r[i][j] == 1)
      && (r[i][j] == 1 <==> AllNeighbours(percentages, i, j, InRange))
  {
    var thresholded := Map(percentages, Threshold);
    var flipped := Map(thresholded, Flip);
    var dilated := Dilate(flipped);
    FlippedNeighbours(percentages, flipped);
    Map(dilated, Flip)
  }

  /** The flipped threshold is non-zero exactly at the permeable pixels, so
      some neighbour is flipped exactly when not all neighbours pass. */
  lemma FlippedNeighbours(percentages: Grid, flipped: Grid)
    requires flipped == Map(Map(percentages, Threshold), Flip)
    ensures forall i, j :: InBounds(percentages, i, j) ==>
      (SomeNeighbour(flipped, i, j, NonZero) <==> !AllNeighbours(percentages, i, j, InRange))
  {
    assert forall i, j :: InBounds(percentages, i, j) ==>
      InBounds(flipped, i, j) && (NonZero(flipped[i][j]) <==> !InRange(percentages[i][j]));
  }

  /** The erosion looks only at the neighbours: a permeable pixel whose four
      neighbours are all impervious comes out as impervious, and an
      impervious pixel next to a permeable one comes out as permeable. */
  lemma ErosionIgnoresCentre()
    ensures BinaryMask([[80, 80, 80], [80, 0, 80], [80, 80, 80]])[1][1] == 1
    ensures BinaryMask([[80, 0]])[0][0] == 0
  {
    var g := [[80, 80, 80], [80, 0, 80], [80, 80, 80]];
    assert InBounds(g, 1, 1);
    assert AllNeighbours(g, 1, 1, InRange);
    var h := [[80, 0]];
    assert InBounds(h, 0, 0);
    assert !InRange(h[0][1]);
  }

  /** The nodata value and every percentage below 75 are permeable. */
  lemma NodataIsPermeable(v: int)
    ensures Threshold(PercentageNodata) == 0
    ensures v < PercentageCutoffFloor ==> Threshold(v) == 0
  {
  }

  /** The search term of the static raster, `Imp_Surf_<tile>_250m.tif`. */
  function SearchTerm(tile: string): string
  {
    NamePre + tile + NamePost
  }

  /** `_getImperviousPercentageArray`: the raster read, or all zeros of the
      tile shape when the file is missing on an exclusion tile. */
  function PercentageArray(tile: string, exclusions: set<string>, read: Result<Grid>): (r: Result<Grid>)
    ensures read.Ok? ==> r == read
    ensures read.Err? && read.error.FileNotFound? && IsExclusionTile(tile, exclusions) ==>
      r.Ok? && HasShape(r.value, TileSize, TileSize)
      && forall i, j :: InBounds(r.value, i, j) ==> r.value[i][j] == 0
    ensures read.Err? && !(read.error.FileNotFound? && IsExclusionTile(tile, exclusions)) ==> r == read
  {
    WithExclusionDefault(read, IsExclusionTile(tile, exclusions), Fill(TileSize, TileSize, 0))
  }

  /** On an exclusion tile with no raster the mask is 0 everywhere: every
      pixel has a neighbour, and 0 is below the threshold. */
  lemma ExclusionFallbackMaskIsZero(tile: string, exclusions: set<string>, path: string)
    requires IsExclusionTile(tile, exclusions)
    ensures var p := PercentageArray(tile, exclusions, Err(FileNotFound(path)));
      p.Ok? && forall i, j :: InBounds(p.value, i, j) ==> BinaryMask(p.value)[i][j] == 0
  {
    var p := PercentageArray(tile, exclusions, Err(FileNotFound(path)));
    var z := p.value;
    forall i, j | InBounds(z, i, j)
      ensures BinaryMask(z)[i][j] == 0
    {
      if i + 1 < |z| {
        assert InBounds(z, i + 1, j);
        assert !InRange(z[i + 1][j]);
      } else {
        assert i >= 1 && InBounds(z, i - 1, j);
        assert !InRange(z[i - 1][j]);
      }
    }
  }
}
