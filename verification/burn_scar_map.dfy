/** The annual burn-scar map: the monthly burned-area layers of a tile,
    each made binary, OR-ed into one mask, and the dotted name it is
    written under. */
module BurnScarMap {
  import opened Grids
  import opened Errors
  import opened Paths
  import opened Text
  import Products

  const BurnScarProduct: string := "AnnualBurnScar"

  /** `_getAllFiles`: `<path>/<year>` is listed (None when it does not
      exist), and each entry, in the listing's sorted order, gives the
      first file its `*<tile>*` glob matches.  `matches` maps a sub-directory
      to its glob result. */
  function GetAllFiles(path: string, year: int, listing: Option<seq<string>>, matches: map<string, seq<string>>)
    : (r: Result<seq<string>>)
    ensures listing.None? ==> r == Err(RuntimeError(NoBurnScarDirs(Join(path, IntToStr(year)))))
    ensures listing.Some? ==>
      var dirs := seq(|listing.value|, k requires 0 <= k < |listing.value| =>
                      Join(Join(path, IntToStr(year)), listing.value[k]));
      && (r.Ok? <==> forall k :: 0 <= k < |dirs| ==> dirs[k] in matches && matches[dirs[k]] != [])
      && (r.Err? ==> r.error == RuntimeError(NoBurnScarFiles))
      && (r.Ok? ==> |r.value| == |dirs| && forall k :: 0 <= k < |dirs| ==> r.value[k] == matches[dirs[k]][0])
  {
    var prefix := Join(path, IntToStr(year));
    match listing
    case None => Err(RuntimeError(NoBurnScarDirs(prefix)))
    case Some(entries) =>
      var dirs := seq(|entries|, k requires 0 <= k < |entries| => Join(prefix, entries[k]));
      FirstMatches(dirs, matches)
  }

  /** The first glob match of every directory, or RuntimeError as soon as
      one has none. */
  function FirstMatches(dirs: seq<string>, matches: map<string, seq<string>>): (r: Result<seq<string>>)
    ensures r.Ok? <==> forall k :: 0 <= k < |dirs| ==> dirs[k] in matches && matches[dirs[k]] != []
    ensures r.Err? ==> r.error == RuntimeError(NoBurnScarFiles)
    ensures r.Ok? ==> |r.value| == |dirs| && forall k :: 0 <= k < |dirs| ==> r.value[k] == matches[dirs[k]][0]
  {
    if |dirs| == 0 then Ok([])
    else if dirs[0] !in matches || matches[dirs[0]] == [] then Err(RuntimeError(NoBurnScarFiles))
    else
      match FirstMatches(dirs[1..], matches)
      case Err(e) => Err(e)
      case Ok(rest) =>
        assert forall k :: 1 <= k < |dirs| ==> dirs[k] == dirs[1..][k - 1];
        Ok([matches[dirs[0]][0]] + rest)
  }

  /** `np.where(burnScarMask > 0, 1, 0)`, one pixel. */
  function BurnedPixel(v: int): int
  {
    if v > 0 then 1 else 0
  }

  /** The binarised layer of `_getMatFromHDF`: 1 where the burn date is
      positive, 0 elsewhere (unburned 0, and the negative fill values). */
  function Binarise(layer: Grid): (r: Grid)
    ensures SameShape(layer, r)
    ensures forall i, j :: InBounds(layer, i, j) ==> (r[i][j] == 0 || r[i][j] == 1)
    ensures forall i, j :: InBounds(layer, i, j) ==> (r[i][j] == 1 <==> layer[i][j] > 0)
  {
    Map(layer, BurnedPixel)
  }

  /** A binary layer is its own binarisation. */
  lemma BinariseIdempotent(layer: Grid)
    ensures Binarise(Binarise(layer)) == Binarise(layer)
  {
    var b := Binarise(layer);
    assert forall i :: 0 <= i < |b| ==> Binarise(b)[i] == b[i];
  }

  /** The sum of the layers at pixel (i, j); a layer without that pixel adds 0. */
  function SumAt(mats: seq<Grid>, i: int, j: int): int
  {
    if |mats| == 0 then 0 else At(mats[0], i, j, 0) + SumAt(mats[1..], i, j)
  }

  /** With no negative layer value at the pixel, the sum is positive exactly
      when some layer is. */
  lemma {:induction false} SumPositiveIffSome(mats: seq<Grid>, i: int, j: int)
    requires forall k :: 0 <= k < |mats| ==> At(mats[k], i, j, 0) >= 0
    ensures SumAt(mats, i, j) >= 0
    ensures SumAt(mats, i, j) > 0 <==> exists k :: 0 <= k < |mats| && At(mats[k], i, j, 0) > 0
    decreases |mats|
  {
    if |mats| > 0 {
      assert forall k :: 1 <= k < |mats| ==> mats[k] == mats[1..][k - 1];
      SumPositiveIffSome(mats[1..], i, j);
      if exists k :: 1 <= k < |mats| && At(mats[k], i, j, 0) > 0 {
        var k :| 1 <= k < |mats| && At(mats[k], i, j, 0) > 0;
        assert At(mats[1..][k - 1], i, j, 0) > 0;
      }
    }
  }

  /** `outputMat = outputMat + mat` for every layer in turn. */
  function AddLayers(acc: Grid, mats: seq<Grid>): (r: Grid)
    requires Stacked(acc, mats)
    ensures SameShape(acc, r)
    ensures forall i, j :: InBounds(acc, i, j) ==> r[i][j] == acc[i][j] + SumAt(mats, i, j)
    decreases |mats|
  {
    if |mats| == 0 then acc
    else
      assert SameShape(acc, mats[0]);
      var next := Map2(acc, mats[0], (a, m) => a + m);
      StackedVia(acc, next, mats);
      assert forall i, j :: InBounds(acc, i, j) ==> At(mats[0], i, j, 0) == mats[0][i][j];
      AddLayers(next, mats[1..])
  }

  /** `_logicalOrMask` as written: the running sum starts from an
      `np.empty` buffer, whose contents are whatever the memory held, so the
      result reads the buffer as well as the layers.  An empty list raises
      IndexError. */
  function LogicalOrMaskAsWritten(buffer: Grid, mats: seq<Grid>): (r: Result<Grid>)
    requires Stacked(buffer, mats)
    ensures r.Err? <==> |mats| == 0
    ensures r.Err? ==> r.error == IndexError
    ensures r.Ok? ==> SameShape(buffer, r.value)
    ensures r.Ok? ==> forall i, j :: InBounds(buffer, i, j) ==>
      && (r.value[i][j] == 0 || r.value[i][j] == 1)
      && (r.value[i][j] == 1 <==> buffer[i][j] + SumAt(mats, i, j) > 0)
  {
    if |mats| == 0 then Err(IndexError)
    else Ok(Map(AddLayers(buffer, mats), BurnedPixel))
  }

  /** The stale buffer decides pixels: a leftover 1 marks an unburned pixel
      as burned, and a leftover -5 hides a burned one. */
  lemma StaleBufferDecides()
    ensures LogicalOrMaskAsWritten([[1]], [[[0]]]) == Ok([[1]])
    ensures LogicalOrMaskAsWritten([[-5]], [[[1]]]) == Ok([[0]])
  {
    assert [[[0]]][1..] == [] && [[[1]]][1..] == [];
    assert InBounds([[0]], 0, 0) && InBounds([[1]], 0, 0) && InBounds([[-5]], 0, 0);
    assert SumAt([[[0]]], 0, 0) == 0;
    assert SumAt([[[1]]], 0, 0) == 1;
    var r := LogicalOrMaskAsWritten([[1]], [[[0]]]);
    assert r.value[0][0] == 1;
    assert r.value[0] == [1];
    assert r.value == [[1]];
    var q := LogicalOrMaskAsWritten([[-5]], [[[1]]]);
    assert q.value[0][0] == 0;
    assert q.value[0] == [0];
    assert q.value == [[0]];
  }

  /** A zero raster of the shape of `g` (`np.zeros(g.shape)`). */
  function ZerosLike(g: Grid): (r: Grid)
    ensures SameShape(g, r)
    ensures forall i, j :: InBounds(g, i, j) ==> r[i][j] == 0
  {
    Map(g, _ => 0)
  }

  /** `_logicalOrMask` with the running sum started at zero: 1 exactly
      where some layer is positive, for layers with no negative values (the
      binarised ones).  `At` reads a layer's pixel; the layers all have the
      first one's shape. */
  function LogicalOrMask(mats: seq<Grid>): (r: Result<Grid>)
    requires |mats| > 0 ==> Stacked(mats[0], mats)
    ensures r.Err? <==> |mats| == 0
    ensures r.Err? ==> r.error == IndexError
    ensures r.Ok? ==> SameShape(mats[0], r.value)
    ensures r.Ok? ==> forall i, j :: InBounds(mats[0], i, j) ==>
      && (r.value[i][j] == 0 || r.value[i][j] == 1)
      && ((forall k :: 0 <= k < |mats| ==> At(mats[k], i, j, 0) >= 0) ==>
            (r.value[i][j] == 1 <==> exists k :: 0 <= k < |mats| && At(mats[k], i, j, 0) > 0))
  {
    if |mats| == 0 then Err(IndexError)
    else
      var zeros := ZerosLike(mats[0]);
      StackedVia(mats[0], zeros, mats);
      var r := LogicalOrMaskAsWritten(zeros, mats);
      assert forall i, j :: InBounds(mats[0], i, j) ==>
        ((forall k :: 0 <= k < |mats| ==> At(mats[k], i, j, 0) >= 0) ==>
           (r.value[i][j] == 1 <==> exists k :: 0 <= k < |mats| && At(mats[k], i, j, 0) > 0)) by {
        forall i, j | InBounds(mats[0], i, j) && (forall k :: 0 <= k < |mats| ==> At(mats[k], i, j, 0) >= 0)
          ensures r.value[i][j] == 1 <==> exists k :: 0 <= k < |mats| && At(mats[k], i, j, 0) > 0
        {
          SumPositiveIffSome(mats, i, j);
        }
      }
      r
  }

  /** The annual mask of `generateAnnualBurnScarMap`: each monthly layer
      binarised, then OR-ed.  A pixel is burned exactly when some month has
      a positive burn date there. */
  function AnnualMask(layers: seq<Grid>): (r: Result<Grid>)
    requires |layers| > 0 ==> Stacked(layers[0], layers)
    ensures r.Err? <==> |layers| == 0
    ensures r.Err? ==> r.error == IndexError
    ensures r.Ok? ==> SameShape(layers[0], r.value)
    ensures r.Ok? ==> forall i, j :: InBounds(layers[0], i, j) ==>
      && (r.value[i][j] == 1 <==> exists k :: 0 <= k < |layers| && At(layers[k], i, j, 0) > 0)
      && (r.value[i][j] == 0 <==> forall k :: 0 <= k < |layers| ==> At(layers[k], i, j, 0) <= 0)
  {
    var bins := seq(|layers|, k requires 0 <= k < |layers| => Binarise(layers[k]));
    if |layers| == 0 then LogicalOrMask(bins)
    else
      BinarisedStack(layers, bins);
      var r := LogicalOrMask(bins);
      r
  }

  /** A sum of 0/1 layers is at most the number of layers. */
  lemma {:induction false} SumAtBounded(mats: seq<Grid>, i: int, j: int)
    requires forall k :: 0 <= k < |mats| ==> 0 <= At(mats[k], i, j, 0) <= 1
    ensures 0 <= SumAt(mats, i, j) <= |mats|
    decreases |mats|
  {
    if |mats| > 0 {
      assert forall k :: 1 <= k < |mats| ==> mats[k] == mats[1..][k - 1];
      SumAtBounded(mats[1..], i, j);
    }
  }

  /** The annual mask as `generateAnnualBurnScarMap` computes it, through
      the `np.empty` buffer.  Where the leftover value is 0 the mask is the
      intended one; a positive leftover marks the pixel burned whatever the
      months say, and a leftover of minus the number of months or less
      hides every burn. */
  function AnnualMaskAsWritten(buffer: Grid, layers: seq<Grid>): (r: Result<Grid>)
    requires Stacked(buffer, layers)
    ensures r.Err? <==> |layers| == 0
    ensures r.Err? ==> r.error == IndexError
    ensures r.Ok? ==> SameShape(buffer, r.value)
    ensures r.Ok? ==> forall i, j :: InBounds(buffer, i, j) ==>
      && (r.value[i][j] == 0 || r.value[i][j] == 1)
      && (buffer[i][j] >= 0 ==>
            (r.value[i][j] == 1 <==> buffer[i][j] > 0 || exists k :: 0 <= k < |layers| && At(layers[k], i, j, 0) > 0))
      && (buffer[i][j] + |layers| <= 0 ==> r.value[i][j] == 0)
  {
    var bins := seq(|layers|, k requires 0 <= k < |layers| => Binarise(layers[k]));
    if |layers| == 0 then LogicalOrMaskAsWritten(buffer, bins)
    else
      StackedVia(buffer, layers[0], layers);
      BinarisedStack(layers, bins);
      SameShapeVia(layers[0], buffer, bins[0]);
      StackedVia(bins[0], buffer, bins);
      var r := LogicalOrMaskAsWritten(buffer, bins);
      assert forall i, j :: InBounds(buffer, i, j) ==>
        && (buffer[i][j] >= 0 ==>
              (r.value[i][j] == 1 <==> buffer[i][j] > 0 || exists k :: 0 <= k < |layers| && At(layers[k], i, j, 0) > 0))
        && (buffer[i][j] + |layers| <= 0 ==> r.value[i][j] == 0) by {
        forall i, j | InBounds(buffer, i, j)
          ensures buffer[i][j] >= 0 ==>
            (r.value[i][j] == 1 <==> buffer[i][j] > 0 || exists k :: 0 <= k < |layers| && At(layers[k], i, j, 0) > 0)
          ensures buffer[i][j] + |layers| <= 0 ==> r.value[i][j] == 0
        {
          assert InBounds(layers[0], i, j);
          SumPositiveIffSome(bins, i, j);
          SumAtBounded(bins, i, j);
        }
      }
      r
  }

  /** The binarised layers keep the stack's shape, and each of their pixels
      is 0 or 1, positive where the layer is. */
  lemma BinarisedStack(layers: seq<Grid>, bins: seq<Grid>)
    requires |layers| > 0 && Stacked(layers[0], layers)
    requires |bins| == |layers| && forall k :: 0 <= k < |layers| ==> bins[k] == Binarise(layers[k])
    ensures Stacked(bins[0], bins)
    ensures forall i, j, k :: InBounds(layers[0], i, j) && 0 <= k < |layers| ==>
      At(bins[k], i, j, 0) >= 0 && (At(bins[k], i, j, 0) > 0 <==> At(layers[k], i, j, 0) > 0)
    ensures SameShape(layers[0], bins[0])
  {
    StackedVia(layers[0], layers[0], layers);
    forall k | 0 <= k < |bins|
      ensures SameShape(bins[0], bins[k])
    {
      SameShapeVia(layers[0], layers[k], bins[k]);
      SameShapeVia(layers[0], layers[0], bins[0]);
      SameShapeVia(layers[0], bins[0], bins[k]);
    }
  }

  /** `_setupBurnScarOutputPath`: `MOD.A<year>.<tile>.<classifier>.AnnualBurnScar.<postStr>.tif`
      under the output directory; `postStr` is the clock stamp, a parameter here. */
  function OutputPath(outDir: string, year: int, tile: string, classifier: string, postStr: string): string
  {
    Join(outDir, Products.ProductName(year, tile, classifier, BurnScarProduct, postStr) + ".tif")
  }

  /** Under a relative output directory, the file name is the dotted
      product name with its `.tif` suffix, and the name splits back into
      its six fields. */
  lemma OutputPathFields(outDir: string, year: int, tile: string, classifier: string, postStr: string)
    requires Products.Dotless(tile) && Products.Dotless(classifier) && Products.Dotless(postStr)
    ensures var name := Products.ProductName(year, tile, classifier, BurnScarProduct, postStr);
      var p := OutputPath(outDir, year, tile, classifier, postStr);
      && p[|p| - |name| - 4..] == name + ".tif"
      && Split(name, '.') == ["MOD", "A" + IntToStr(year), tile, classifier, BurnScarProduct, postStr]
  {
    Products.ProductNameSplits(year, tile, classifier, BurnScarProduct, postStr);
  }
}
