/** The annual seven-class map: the annual water product refined by the
    static seven-class map, with a shoreline class added along the edges of
    inland and shallow water. */
module SevenClassMap {
  import opened Grids
  import opened Errors
  import opened Paths
  import opened Products

  // Seven-class values.
  const ShallowOcean: int := 0
  const Land: int := 1
  const Shoreline: int := 2
  const InlandWater: int := 3
  const DeepInland: int := 5
  const ModerateOcean: int := 6
  const DeepOcean: int := 7

  const TifBaseName: string := "Master_7class_maxextent_"

  /** The static classes a water pixel keeps as they are. */
  predicate KeptStaticClass(s: int)
  {
    s == DeepInland || s == ShallowOcean || s == ModerateOcean || s == DeepOcean
  }

  /** The per-pixel steps of `generateSevenClass` before the shoreline: the
      output and the "rest" array are updated rule by rule, and whatever
      water is left in "rest" at the end becomes inland water. */
  function SevenClassPixel(annual: int, staticClass: int): (c: int)
    ensures annual == 0 ==> c == Land
    ensures annual == 1 && KeptStaticClass(staticClass) ==> c == staticClass
    ensures annual == 1 && !KeptStaticClass(staticClass) ==> c == InlandWater
    ensures annual != 0 && annual != 1 ==> c == 0
  {
    var output := 0;
    var rest := annual;
    var output := if annual == 0 then 1 else output;
    var rest := if annual == 0 then 0 else rest;
    var annualEqualsOne := annual == 1;
    var deepInland := annualEqualsOne && staticClass == 5;
    var output := if deepInland then 5 else output;
    var rest := if deepInland then 0 else rest;
    var shallowOcean := annualEqualsOne && staticClass == 0;
    var output := if shallowOcean then 0 else output;
    var rest := if shallowOcean then 0 else rest;
    var moderateOcean := annualEqualsOne && staticClass == 6;
    var output := if moderateOcean then 6 else output;
    var rest := if moderateOcean then 0 else rest;
    var deepOcean := annualEqualsOne && staticClass == 7;
    var output := if deepOcean then 7 else output;
    var rest := if deepOcean then 0 else rest;
    if rest == 1 then 3 else output
  }

  /** Only the classes 0, 1, 3, 5, 6 and 7 come out of the mapping; the
      shoreline class 2 and the unused 4 never do. */
  lemma SevenClassValues(annual: int, staticClass: int)
    ensures SevenClassPixel(annual, staticClass) in {ShallowOcean, Land, InlandWater, DeepInland, ModerateOcean, DeepOcean}
    ensures SevenClassPixel(annual, staticClass) == Land <==> annual == 0
  {
  }

  /** `_shoreline`'s binarisation before boundary detection: values above
      100 and the value 1 are foreground, everything else background. */
  function ShorelineBinary(v: int): (b: int)
    ensures b == 0 || b == 1
    ensures b == 1 <==> v > 100 || v == 1
  {
    var arr := if v > 100 then 1 else v;
    if arr != 1 then 0 else arr
  }

  /** `_shoreline`: the binarised raster's outer boundary.  The boundary
      detector is a parameter; it is not part of this model. */
  function ShorelineOf(arr: Grid, boundary: Grid -> Grid): Grid
  {
    boundary(Map(arr, ShorelineBinary))
  }

  /** `_generateShoreline`, one pixel: a boundary pixel of either the
      inland-water or the shallow-ocean layer that is land. */
  function ShorelinePixel(inlandEdge: int, shallowEdge: int, sevenClass: int): (s: int)
    ensures s == 0 || s == 1
    ensures s == 1 <==> (inlandEdge != 0 || shallowEdge != 0) && sevenClass == Land
  {
    var either := if inlandEdge != 0 || shallowEdge != 0 then 1 else 0;
    if either == 1 && sevenClass == Land then 1 else 0
  }

  function IsClass(v: int, c: int): int { if v == c then 1 else 0 }

  /** The boundary of the inland-water layer, and of the shallow-ocean
      layer, as `_shoreline` computes them. */
  function InlandEdges(sevenClass: Grid, boundary: Grid -> Grid): Grid
  {
    ShorelineOf(Map(sevenClass, v => IsClass(v, InlandWater)), boundary)
  }

  function ShallowEdges(sevenClass: Grid, boundary: Grid -> Grid): Grid
  {
    ShorelineOf(Map(sevenClass, v => IsClass(v, ShallowOcean)), boundary)
  }

  /** A land pixel on the boundary of either layer (read as 0 where the
      detector returns no pixel). */
  predicate OnShore(sevenClass: Grid, boundary: Grid -> Grid, i: int, j: int)
    requires InBounds(sevenClass, i, j)
  {
    && (At(InlandEdges(sevenClass, boundary), i, j, 0) != 0 || At(ShallowEdges(sevenClass, boundary), i, j, 0) != 0)
    && sevenClass[i][j] == Land
  }

  /** `_generateShoreline`: the boundary rasters are read at each pixel of
      the seven-class raster. */
  function GenerateShoreline(sevenClass: Grid, boundary: Grid -> Grid): (r: Grid)
    ensures SameShape(sevenClass, r)
    ensures forall i, j :: InBounds(sevenClass, i, j) ==>
      && (r[i][j] == 0 || r[i][j] == 1)
      && (r[i][j] == 1 <==> OnShore(sevenClass, boundary, i, j))
  {
    var inland := InlandEdges(sevenClass, boundary);
    var shallow := ShallowEdges(sevenClass, boundary);
    seq(|sevenClass|, i requires 0 <= i < |sevenClass| =>
      seq(|sevenClass[i]|, j requires 0 <= j < |sevenClass[i]| =>
        ShorelinePixel(At(inland, i, j, 0), At(shallow, i, j, 0), sevenClass[i][j])))
  }

  /** Adding the shoreline: class 2 wherever the shoreline raster is 1. */
  function AddShoreline(sevenClass: Grid, shoreline: Grid): (r: Grid)
    requires SameShape(sevenClass, shoreline)
    ensures SameShape(sevenClass, r)
    ensures forall i, j :: InBounds(sevenClass, i, j) ==>
      r[i][j] == (if shoreline[i][j] == 1 then Shoreline else sevenClass[i][j])
  {
    Map2(sevenClass, shoreline, (c, s) => if s == 1 then Shoreline else c)
  }

  /** `generateSevenClass` once the rasters are in hand. */
  function GenerateSevenClass(annual: Grid, staticClass: Grid, boundary: Grid -> Grid): (r: Grid)
    requires SameShape(annual, staticClass)
    ensures SameShape(annual, r)
    ensures forall i, j :: InBounds(annual, i, j) ==>
      var c := SevenClassPixel(annual[i][j], staticClass[i][j]);
      r[i][j] == c || (c == Land && r[i][j] == Shoreline)
    ensures var classes := Map2(annual, staticClass, SevenClassPixel);
      forall i, j :: InBounds(annual, i, j) ==>
        (r[i][j] == Shoreline <==> OnShore(classes, boundary, i, j))
  {
    var classes := Map2(annual, staticClass, SevenClassPixel);
    AddShoreline(classes, GenerateShoreline(classes, boundary))
  }

  /** The shoreline only ever turns land into shoreline: every pixel is
      either its class before the shoreline step, or shoreline over land. */
  lemma ShorelineOnlyRelabelsLand(annual: Grid, staticClass: Grid, boundary: Grid -> Grid)
    requires SameShape(annual, staticClass)
    ensures var r := GenerateSevenClass(annual, staticClass, boundary);
      forall i, j :: InBounds(annual, i, j) ==>
        (r[i][j] != SevenClassPixel(annual[i][j], staticClass[i][j]) ==> annual[i][j] == 0 && r[i][j] == Shoreline)
        && r[i][j] in {ShallowOcean, Land, Shoreline, InlandWater, DeepInland, ModerateOcean, DeepOcean}
  {
    var r := GenerateSevenClass(annual, staticClass, boundary);
    forall i, j | InBounds(annual, i, j)
      ensures r[i][j] in {ShallowOcean, Land, Shoreline, InlandWater, DeepInland, ModerateOcean, DeepOcean}
    {
      SevenClassValues(annual[i][j], staticClass[i][j]);
    }
  }

  /** `_getStaticSevenClassPath`: the static map of the tile, if it exists. */
  function StaticSevenClassPath(dir: string, tile: string, pathExists: string -> bool): (r: Result<string>)
    ensures var path := Join(dir, TifBaseName + tile + ".tif");
      && (r.Ok? <==> pathExists(path))
      && (r.Ok? ==> r.value == path)
      && (r.Err? ==> r.error == FileNotFound(path))
  {
    var path := Join(dir, TifBaseName + tile + ".tif");
    if pathExists(path) then Ok(path) else Err(FileNotFound(path))
  }

  /** The output name `MOD.A<year>.<tile>.<classifier>.AnnualSevenClass.<postStr>`. */
  function SevenClassName(year: int, tile: string, classifier: string, postStr: string): string
  {
    ProductName(year, tile, classifier, "AnnualSevenClass", postStr)
  }
}
