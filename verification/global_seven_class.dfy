/** The global seven-class mosaic: shoreline removal and re-addition, the
    8-bit corrective mask, and the iterated "inland water next to ocean"
    correction. */
module GlobalSevenClassMap {
  import opened Grids
  import opened Errors
  import opened Text
  import opened Paths
  import SevenClassMap

  const ShorelineValue: int := 2
  const LandValue: int := 1
  const InlandValue: int := 3
  const ScNodata: int := 250

  /** Low four bits of the corrective mask: the class to use where the
      mosaic has no data. */
  const SevenClassReservedBits: bv8 := 0x0F
  /** Bits 4-6: a class that overrides the mosaic (reprojection edges). */
  const CorrectiveBitMask: bv8 := 0x70

  const ReplacementValue: int := 0
  const NumInlandOceanAdjacentIters: nat := 10
  const ExpectedProducts: nat := 318

  /** The Antarctic rows the global mosaic leaves out. */
  const AntarcticExclusion: set<string> := {"v17", "v16", "v15", "v14"}

  /** The ocean classes: shallow, moderate and deep ocean. */
  predicate IsOcean(v: int) { v == 0 || v == 6 || v == 7 }

  // ---------------------------------------------------------------------
  // Shoreline removal and addition
  // ---------------------------------------------------------------------

  /** `revertShorelineFromArray`, one pixel. */
  function RevertPixel(v: int): int
  {
    if v == ShorelineValue then LandValue else v
  }

  /** `revertShorelineFromArray`: shoreline becomes land, nothing else moves. */
  function RevertShoreline(g: Grid): (r: Grid)
    ensures SameShape(g, r)
    ensures forall i, j :: InBounds(g, i, j) ==> r[i][j] != ShorelineValue
    ensures forall i, j :: InBounds(g, i, j) && g[i][j] != ShorelineValue ==> r[i][j] == g[i][j]
    ensures forall i, j :: InBounds(g, i, j) && g[i][j] == ShorelineValue ==> r[i][j] == LandValue
  {
    Map(g, RevertPixel)
  }

  /** Reverting twice is reverting once. */
  lemma RevertIdempotent(g: Grid)
    ensures RevertShoreline(RevertShoreline(g)) == RevertShoreline(g)
  {
    var r := RevertShoreline(g);
    var rr := RevertShoreline(r);
    assert |rr| == |r|;
    forall i | 0 <= i < |r|
      ensures rr[i] == r[i]
    {
      assert |rr[i]| == |r[i]|;
      forall j | 0 <= j < |r[i]|
        ensures rr[i][j] == r[i][j]
      {
        assert InBounds(r, i, j) && InBounds(g, i, j);
      }
    }
  }

  /** `extractValueFromSevenClass`: 1 exactly where the class is `value`. */
  function ExtractValue(value: int, sevenClass: Grid): (r: Grid)
    ensures SameShape(sevenClass, r)
    ensures forall i, j :: InBounds(sevenClass, i, j) ==>
      (r[i][j] == 1 <==> sevenClass[i][j] == value) && (r[i][j] == 0 || r[i][j] == 1)
  {
    Map(sevenClass, v => if v == value then 1 else 0)
  }

  /** `shallow | moderate | deep` on 0/1 layers. */
  function Or3(a: int, b: int, c: int): int
    requires a in {0, 1} && b in {0, 1} && c in {0, 1}
  {
    if a == 1 || b == 1 || c == 1 then 1 else 0
  }

  /** The ocean layer: the OR of the three ocean classes. */
  function OceanLayer(sevenClass: Grid): (r: Grid)
    ensures SameShape(sevenClass, r)
    ensures forall i, j :: InBounds(sevenClass, i, j) ==> (r[i][j] == 1 <==> IsOcean(sevenClass[i][j]))
  {
    var shallow := ExtractValue(0, sevenClass);
    var moderate := ExtractValue(6, sevenClass);
    var deep := ExtractValue(7, sevenClass);
    seq(|sevenClass|, i requires 0 <= i < |sevenClass| =>
      seq(|sevenClass[i]|, j requires 0 <= j < |sevenClass[i]| =>
        Or3(shallow[i][j], moderate[i][j], deep[i][j])))
  }

  /** `postProcessShoreline`: a boundary pixel of either layer that is land. */
  function PostProcessShoreline(inlandEdge: Grid, oceanEdge: Grid, sevenClass: Grid): (r: Grid)
    requires SameShape(sevenClass, inlandEdge) && SameShape(sevenClass, oceanEdge)
    ensures SameShape(sevenClass, r)
    ensures forall i, j :: InBounds(sevenClass, i, j) ==>
      (r[i][j] == 1 <==> (inlandEdge[i][j] != 0 || oceanEdge[i][j] != 0) && sevenClass[i][j] == LandValue)
      && (r[i][j] == 0 || r[i][j] == 1)
  {
    Map3(sevenClass, inlandEdge, oceanEdge, (c, a, b) => SevenClassMap.ShorelinePixel(a, b, c))
  }

  /** `addShorelineToSevenClass`: `value` wherever the shoreline is 1. */
  function AddShorelineToSevenClass(sevenClass: Grid, shoreline: Grid, value: int): (r: Grid)
    requires SameShape(sevenClass, shoreline)
    ensures SameShape(sevenClass, r)
    ensures forall i, j :: InBounds(sevenClass, i, j) ==>
      r[i][j] == (if shoreline[i][j] == 1 then value else sevenClass[i][j])
  {
    Map2(sevenClass, shoreline, (c, s) => if s == 1 then value else c)
  }

  /** The boundaries `generateSevenClassShoreline` reads: of the inland-water
      layer and of the ocean layer, over the mosaic's shape (0 where the
      detector returns no pixel). */
  function InlandEdges(sevenClass: Grid, boundary: Grid -> Grid): (r: Grid)
    ensures SameShape(sevenClass, r)
  {
    Conform(SevenClassMap.ShorelineOf(ExtractValue(InlandValue, sevenClass), boundary), sevenClass)
  }

  function OceanEdges(sevenClass: Grid, boundary: Grid -> Grid): (r: Grid)
    ensures SameShape(sevenClass, r)
  {
    Conform(SevenClassMap.ShorelineOf(OceanLayer(sevenClass), boundary), sevenClass)
  }

  /** `generateSevenClassShoreline`; the boundary detector is a parameter.
      Shoreline goes exactly on the land pixels of either boundary. */
  function GenerateSevenClassShoreline(sevenClass: Grid, boundary: Grid -> Grid): (r: Grid)
    ensures SameShape(sevenClass, r)
    ensures forall i, j :: InBounds(sevenClass, i, j) ==>
      r[i][j] == sevenClass[i][j] || (sevenClass[i][j] == LandValue && r[i][j] == ShorelineValue)
    ensures var inlandEdge := InlandEdges(sevenClass, boundary);
      var oceanEdge := OceanEdges(sevenClass, boundary);
      forall i, j :: InBounds(sevenClass, i, j) ==>
        (r[i][j] != sevenClass[i][j] <==>
          sevenClass[i][j] == LandValue && (inlandEdge[i][j] != 0 || oceanEdge[i][j] != 0))
  {
    var inlandEdge := InlandEdges(sevenClass, boundary);
    var oceanEdge := OceanEdges(sevenClass, boundary);
    var shoreline := PostProcessShoreline(inlandEdge, oceanEdge, sevenClass);
    AddShorelineToSevenClass(sevenClass, shoreline, ShorelineValue)
  }

  /** Adding the shoreline and reverting it gives back a mosaic that had no
      shoreline, whatever the boundary detector returns. */
  lemma ShorelineRoundTrip(sevenClass: Grid, boundary: Grid -> Grid)
    requires forall i, j :: InBounds(sevenClass, i, j) ==> sevenClass[i][j] != ShorelineValue
    ensures RevertShoreline(GenerateSevenClassShoreline(sevenClass, boundary)) == sevenClass
  {
    var w := GenerateSevenClassShoreline(sevenClass, boundary);
    var r := RevertShoreline(w);
    assert |r| == |sevenClass|;
    forall i | 0 <= i < |r|
      ensures r[i] == sevenClass[i]
    {
      assert |r[i]| == |sevenClass[i]|;
      forall j | 0 <= j < |r[i]|
        ensures r[i][j] == sevenClass[i][j]
      {
        assert InBounds(sevenClass, i, j) && InBounds(w, i, j);
      }
    }
  }

  // ---------------------------------------------------------------------
  // Corrective mask
  // ---------------------------------------------------------------------

  /** `astype(np.uint8)`: wrap modulo 256. */
  function ToUint8(x: int): (r: int)
    ensures 0 <= r < 256
    ensures 0 <= x < 256 ==> r == x
  {
    x % 256
  }

  /** The corrective-mask pixel after `astype(np.uint8)`, as its eight bits. */
  function MaskBits(anc: int): bv8
  {
    ToUint8(anc) as bv8
  }

  /** The three corrective passes of `_applyCorrectingMask` on one pixel,
      in the order of the source.  `original` is the mosaic pixel, read as
      uint8, and `mask` the corrective-mask pixel's bits. */
  function CorrectPixel(original: int, mask: bv8): (c: int)
  {
    var sc := ToUint8(original);
    var oceanFill := (mask & SevenClassReservedBits) as int;
    var corrected := if sc == ScNodata then oceanFill else sc;
    var edge := ((mask & CorrectiveBitMask) >> 4) as int;
    var corrected := if edge > 0 then edge else corrected;
    var siberian := (mask >> 7) as int;
    if sc == 0 && siberian == 1 then InlandValue else corrected
  }

  /** The bit fields of an 8-bit mask value, in terms of its value. */
  lemma MaskFields(x: bv8)
    ensures (x & SevenClassReservedBits) as int == (x as int) % 16
    ensures ((x & CorrectiveBitMask) >> 4) as int == ((x as int) / 16) % 8
    ensures (x >> 7) as int == (x as int) / 128
  {
    OceanFillField(x);
    CorrectiveField(x);
    SiberianField(x);
  }

  lemma OceanFillField(x: bv8)
    ensures (x & SevenClassReservedBits) as int == (x as int) % 16
  {
  }

  lemma CorrectiveField(x: bv8)
    ensures ((x & CorrectiveBitMask) >> 4) as int == ((x as int) / 16) % 8
  {
  }

  lemma SiberianField(x: bv8)
    ensures (x >> 7) as int == (x as int) / 128
  {
  }

  /** Later passes override earlier ones: the Siberian flip of an original
      0 wins, then a non-zero corrective class, then the ocean fill of a
      no-data pixel, and otherwise the pixel is kept.  `a` is the mask's
      uint8 value. */
  lemma CorrectPixelPriority(original: int, mask: bv8)
    ensures var sc := ToUint8(original);
      var a := mask as int;
      var c := CorrectPixel(original, mask);
      && (sc == 0 && a >= 128 ==> c == InlandValue)
      && (!(sc == 0 && a >= 128) && (a / 16) % 8 > 0 ==> c == (a / 16) % 8)
      && (!(sc == 0 && a >= 128) && (a / 16) % 8 == 0 && sc == ScNodata ==> c == a % 16)
      && (!(sc == 0 && a >= 128) && (a / 16) % 8 == 0 && sc != ScNodata ==> c == sc)
      && 0 <= c < 256
  {
    MaskFields(mask);
  }

  // ---------------------------------------------------------------------
  // Inland water next to ocean
  // ---------------------------------------------------------------------

  /** `replaceAdjacentThrees`, per pixel: an inland-water pixel with an
      ocean 4-neighbour in the input becomes 0; all masks are taken from
      the input, so the update is simultaneous. */
  function ReplaceAdjacentThrees(g: Grid): (r: Grid)
    ensures SameShape(g, r)
    ensures forall i, j :: InBounds(g, i, j) ==>
      (r[i][j] != g[i][j] <==> g[i][j] == InlandValue && SomeNeighbour(g, i, j, IsOcean))
    ensures forall i, j :: InBounds(g, i, j) && r[i][j] != g[i][j] ==> r[i][j] == ReplacementValue
  {
    seq(|g|, i requires 0 <= i < |g| =>
      seq(|g[i]|, j requires 0 <= j < |g[i]| =>
        if g[i][j] == InlandValue && SomeNeighbour(g, i, j, IsOcean) then ReplacementValue else g[i][j]))
  }

  predicate Rectangular(g: Grid)
  {
    forall i :: 0 <= i < |g| ==> |g[i]| == |g[0]|
  }

  /** The source's algorithm: four shifted copies of the ocean mask ORed
      into an adjacency mask (below, above, right, left), then the write. */
  method ReplaceAdjacentThreesShifted(arr: Grid) returns (r: Grid)
    requires Rectangular(arr)
    ensures r == ReplaceAdjacentThrees(arr)
  {
    var expected := ReplaceAdjacentThrees(arr);
    var rows := |arr|;
    r := [];
    var i := 0;
    while i < rows
      invariant 0 <= i <= rows
      invariant |r| == i
      invariant forall k :: 0 <= k < i ==> r[k] == expected[k]
    {
      var cols := |arr[i]|;
      var row: seq<int> := [];
      var j := 0;
      while j < cols
        invariant 0 <= j <= cols
        invariant |row| == j
        invariant forall l :: 0 <= l < j ==> row[l] == expected[i][l]
      {
        var v := ShiftedPixel(arr, i, j);
        row := row + [v];
        j := j + 1;
      }
      assert row == expected[i];
      r := r + [row];
      i := i + 1;
    }
  }

  /** One pixel of the shifted-mask algorithm: the four shifted ocean
      masks that reach pixel (i, j), ORed, then the write of 0 over an
      adjacent inland-water pixel. */
  method ShiftedPixel(arr: Grid, i: int, j: int) returns (v: int)
    requires Rectangular(arr) && InBounds(arr, i, j)
    ensures v == ReplaceAdjacentThrees(arr)[i][j]
  {
    var rows := |arr|;
    var cols := |arr[i]|;
    var adjacent := false;
    if i + 1 < rows { adjacent := adjacent || IsOcean(arr[i + 1][j]); }
    if i > 0 { adjacent := adjacent || IsOcean(arr[i - 1][j]); }
    if j + 1 < cols { adjacent := adjacent || IsOcean(arr[i][j + 1]); }
    if j > 0 { adjacent := adjacent || IsOcean(arr[i][j - 1]); }
    assert adjacent == SomeNeighbour(arr, i, j, IsOcean);
    v := if arr[i][j] == InlandValue && adjacent then ReplacementValue else arr[i][j];
  }

  /** `replaceAdjacentThrees` applied `n` times. */
  function IterateReplace(g: Grid, n: nat): (r: Grid)
    ensures SameShape(g, r)
    decreases n
  {
    if n == 0 then g else IterateReplace(ReplaceAdjacentThrees(g), n - 1)
  }

  /** However many times it is applied, the pass only turns inland water
      into 0 and leaves every other pixel as it was. */
  lemma {:induction false} IterateOnlyClearsThrees(g: Grid, n: nat)
    ensures var r := IterateReplace(g, n);
      forall i, j :: InBounds(g, i, j) ==>
        r[i][j] == g[i][j] || (g[i][j] == InlandValue && r[i][j] == ReplacementValue)
    decreases n
  {
    if n > 0 {
      var g1 := ReplaceAdjacentThrees(g);
      IterateOnlyClearsThrees(g1, n - 1);
      assert IterateReplace(g, n) == IterateReplace(g1, n - 1);
      forall i, j | InBounds(g, i, j)
        ensures InBounds(g1, i, j)
      {
      }
    }
  }

  /** A mosaic with no inland water next to ocean is a fixed point, and so
      stays as it is however many passes are made. */
  lemma {:induction false} IterateFixedPoint(g: Grid, n: nat)
    requires forall i, j :: InBounds(g, i, j) && g[i][j] == InlandValue ==> !SomeNeighbour(g, i, j, IsOcean)
    ensures IterateReplace(g, n) == g
    decreases n
  {
    if n > 0 {
      var g1 := ReplaceAdjacentThrees(g);
      assert g1 == g by {
        assert |g1| == |g|;
        forall i | 0 <= i < |g|
          ensures g1[i] == g[i]
        {
          assert |g1[i]| == |g[i]|;
          forall j | 0 <= j < |g[i]|
            ensures g1[i][j] == g[i][j]
          {
            assert InBounds(g, i, j);
          }
        }
      }
      IterateFixedPoint(g1, n - 1);
    }
  }

  /** An inland-water pixel with an ocean neighbour is cleared by the first
      of `n` passes, and the later passes keep it cleared. */
  lemma FirstPassClears(g: Grid, n: nat, i: int, j: int)
    requires n >= 1 && InBounds(g, i, j)
    requires g[i][j] == InlandValue && SomeNeighbour(g, i, j, IsOcean)
    ensures IterateReplace(g, n)[i][j] == ReplacementValue
  {
    var g1 := ReplaceAdjacentThrees(g);
    assert IterateReplace(g, n) == IterateReplace(g1, n - 1);
    IterateOnlyClearsThrees(g1, n - 1);
    assert InBounds(g1, i, j);
  }

  /** The mosaic after the three corrective passes. */
  function Corrected(sevenClass: Grid, correctiveMask: Grid): (r: Grid)
    requires SameShape(sevenClass, correctiveMask)
    ensures SameShape(sevenClass, r)
    ensures forall i, j :: InBounds(sevenClass, i, j) ==>
      r[i][j] == CorrectPixel(sevenClass[i][j], MaskBits(correctiveMask[i][j]))
  {
    Map2(sevenClass, correctiveMask, (o, m) => CorrectPixel(o, MaskBits(m)))
  }

  /** `_applyCorrectingMask` on the arrays: the three corrective passes,
      then ten passes of `replaceAdjacentThrees`. */
  function ApplyCorrectingMask(sevenClass: Grid, correctiveMask: Grid): (r: Grid)
    requires SameShape(sevenClass, correctiveMask)
    ensures SameShape(sevenClass, r)
    ensures var corrected := Corrected(sevenClass, correctiveMask);
      forall i, j :: InBounds(sevenClass, i, j) ==>
        && (r[i][j] == corrected[i][j] || (corrected[i][j] == InlandValue && r[i][j] == ReplacementValue))
        && (corrected[i][j] == InlandValue && SomeNeighbour(corrected, i, j, IsOcean) ==> r[i][j] == ReplacementValue)
  {
    var corrected := Corrected(sevenClass, correctiveMask);
    IterateOnlyClearsThrees(corrected, NumInlandOceanAdjacentIters);
    forall i, j | InBounds(sevenClass, i, j) && corrected[i][j] == InlandValue && SomeNeighbour(corrected, i, j, IsOcean)
      ensures IterateReplace(corrected, NumInlandOceanAdjacentIters)[i][j] == ReplacementValue
    {
      FirstPassClears(corrected, NumInlandOceanAdjacentIters, i, j);
    }
    IterateReplace(corrected, NumInlandOceanAdjacentIters)
  }

  /** A one-row mosaic: ocean in column 0, then `len` inland-water pixels,
      the first `cleared` of which have already become 0. */
  function Strip(cleared: nat, len: nat): (g: Grid)
    requires cleared <= len
  {
    [seq(len + 1, j => if j <= cleared then ReplacementValue else InlandValue)]
  }

  /** One pass clears exactly the next inland-water pixel of a strip. */
  lemma StripStep(cleared: nat, len: nat)
    requires cleared <= len
    ensures ReplaceAdjacentThrees(Strip(cleared, len)) == Strip(if cleared < len then cleared + 1 else len, len)
  {
    var g := Strip(cleared, len);
    var r := ReplaceAdjacentThrees(g);
    var e := Strip(if cleared < len then cleared + 1 else len, len);
    assert |r| == 1 && |r[0]| == len + 1 && |e[0]| == len + 1;
    forall j | 0 <= j <= len
      ensures r[0][j] == e[0][j]
    {
      assert InBounds(g, 0, j) && !InBounds(g, -1, j) && !InBounds(g, 1, j);
      if j == cleared + 1 {
        assert InBounds(g, 0, j - 1) && IsOcean(g[0][j - 1]);
      } else if j > cleared + 1 {
        assert !SomeNeighbour(g, 0, j, IsOcean);
      }
    }
    assert r[0] == e[0];
  }

  /** `n` passes clear the next `n` inland-water pixels of a strip. */
  lemma {:induction false} IterateStrip(cleared: nat, len: nat, n: nat)
    requires cleared <= len
    ensures IterateReplace(Strip(cleared, len), n) == Strip(if cleared + n <= len then cleared + n else len, len)
    decreases n
  {
    if n > 0 {
      StripStep(cleared, len);
      IterateStrip(if cleared < len then cleared + 1 else len, len, n - 1);
    }
  }

  /** The ten passes reach exactly ten pixels: on a strip of inland water
      running inland from the ocean, with nothing for the corrective mask
      to do, the pixels 1 to 10 steps from the ocean are cleared and every
      pixel further in is kept. */
  lemma TenPassesReachTenPixels(len: nat)
    ensures var r := ApplyCorrectingMask(Strip(0, len), Fill(1, len + 1, 0));
      |r| == 1 && |r[0]| == len + 1
      && forall j :: 1 <= j <= len ==>
        (r[0][j] == ReplacementValue <==> j <= NumInlandOceanAdjacentIters)
        && (r[0][j] == InlandValue <==> j > NumInlandOceanAdjacentIters)
  {
    var g := Strip(0, len);
    var corrected := Corrected(g, Fill(1, len + 1, 0));
    assert MaskBits(0) == 0;
    assert corrected == g by {
      assert |corrected[0]| == |g[0]|;
      forall j | 0 <= j <= len
        ensures corrected[0][j] == g[0][j]
      {
        assert InBounds(g, 0, j);
        assert g[0][j] == ReplacementValue || g[0][j] == InlandValue;
      }
      assert corrected[0] == g[0];
    }
    IterateStrip(0, len, NumInlandOceanAdjacentIters);
  }

  // ---------------------------------------------------------------------
  // Product count and output name
  // ---------------------------------------------------------------------

  /** `_validateNumberOfNoShorelineProducts`: all 318 tiles are required. */
  function ValidateNumberOfNoShorelineProducts(products: seq<string>): (r: Result<bool>)
    ensures r.Ok? <==> |products| >= ExpectedProducts
    ensures r.Ok? ==> r.value
    ensures r.Err? ==> r.error == RuntimeError(TooFewSevenClassProducts(|products|))
  {
    if |products| < ExpectedProducts then Err(RuntimeError(TooFewSevenClassProducts(|products|)))
    else Ok(true)
  }

  /** `split('.')[:2] + split('.')[3:]`: every field except the third. */
  function DropThirdField(parts: seq<string>): (r: seq<string>)
    ensures |r| == if |parts| >= 3 then |parts| - 1 else |parts|
    ensures forall k :: 0 <= k < |r| ==> r[k] == parts[if k < 2 then k else k + 1]
  {
    (if |parts| <= 2 then parts else parts[..2]) + (if |parts| > 3 then parts[3..] else [])
  }

  /** The name with its tile field removed. */
  function NameWithoutTile(stem: string): string
  {
    JoinWith(DropThirdField(Split(stem, '.')), '.')
  }

  /** Removing the tile field removes exactly that field: the name still
      splits into all the other fields, in order. */
  lemma NameWithoutTileFields(stem: string)
    requires |Split(stem, '.')| >= 3
    ensures Split(NameWithoutTile(stem), '.') == DropThirdField(Split(stem, '.'))
  {
    var parts := Split(stem, '.');
    var kept := DropThirdField(parts);
    assert forall k :: 0 <= k < |kept| ==> '.' !in kept[k];
    SplitJoin(kept, '.');
  }

  /** `_buildOutputGlobalName`. */
  function BuildOutputGlobalName(samplePath: string, wgs84: bool, outDir: string): string
  {
    var stem := Stem(Basename(samplePath));
    var finalName := ReplaceAll(NameWithoutTile(stem), "NoShoreline", GlobalSuffix(wgs84));
    Join(outDir, finalName + ".tif")
  }

  /** The output ends in `.tif`; a name without the `NoShoreline` tag is
      only stripped of its tile field. */
  lemma OutputGlobalNameShape(samplePath: string, wgs84: bool, outDir: string)
    ensures var p := BuildOutputGlobalName(samplePath, wgs84, outDir);
      |p| >= 4 && p[|p| - 4..] == ".tif"
    ensures var stem := Stem(Basename(samplePath));
      !Occurs(NameWithoutTile(stem), "NoShoreline") ==>
        BuildOutputGlobalName(samplePath, wgs84, outDir) == Join(outDir, NameWithoutTile(stem) + ".tif")
  {
    var stem := Stem(Basename(samplePath));
    var b := ReplaceAll(NameWithoutTile(stem), "NoShoreline", GlobalSuffix(wgs84)) + ".tif";
    var p := Join(outDir, b);
    assert p[|p| - 4..] == ".tif" by {
      if b[0] != '/' {
        assert p[|p| - |b|..] == b;
        assert p[|p| - 4..] == b[|b| - 4..];
      }
    }
    if !Occurs(NameWithoutTile(stem), "NoShoreline") {
      ReplaceAbsent(NameWithoutTile(stem), "NoShoreline", GlobalSuffix(wgs84));
    }
  }

  /** The suffix `_buildOutputGlobalName` writes for a projection. */
  function GlobalSuffix(wgs84: bool): string
  {
    "AnnualSevenClass.NoShoreline.global." + (if wgs84 then "wgs84" else "sinu")
  }

  /** A sample name ends in the `NoShoreline` tag that
      `_revertShorelineAndWrite` gives it: the tag, and only the tag, is
      replaced by the global suffix, and the sinusoidal and WGS84 mosaics
      get different paths. */
  lemma TaggedGlobalName(samplePath: string, outDir: string, head: string)
    requires NameWithoutTile(Stem(Basename(samplePath))) == head + "NoShoreline"
    requires !Occurs(head, "NoShoreline")
    ensures forall wgs84: bool :: BuildOutputGlobalName(samplePath, wgs84, outDir) == Join(outDir, head + GlobalSuffix(wgs84) + ".tif")
    ensures BuildOutputGlobalName(samplePath, true, outDir) != BuildOutputGlobalName(samplePath, false, outDir)
  {
    assert HeadUnique("NoShoreline");
    ReplaceTail(head, "NoShoreline", GlobalSuffix(true));
    ReplaceTail(head, "NoShoreline", GlobalSuffix(false));
    var b1 := head + GlobalSuffix(true) + ".tif";
    var b2 := head + GlobalSuffix(false) + ".tif";
    var r1 := Join(outDir, b1);
    var r2 := Join(outDir, b2);
    assert b1[|b1| - 5] == '4';
    assert b2[|b2| - 5] == 'u';
    assert r1[|r1| - 5] == '4' by {
      if b1[0] != '/' { assert r1[|r1| - |b1|..] == b1; assert r1[|r1| - 5] == r1[|r1| - |b1|..][|b1| - 5]; }
    }
    assert r2[|r2| - 5] == 'u' by {
      if b2[0] != '/' { assert r2[|r2| - |b2|..] == b2; assert r2[|r2| - 5] == r2[|r2| - |b2|..][|b2| - 5]; }
    }
  }
}
