/** The annual QA pass: the burn-scar and slope rules that correct the
    annual water product and record why in a QA code. */
module QAMap {
  import opened Grids
  import opened Errors
  import opened Paths
  import opened Products
  import opened Text

  /** QA codes: nothing flagged, steep slope over water, burn scar. */
  const QaNone: int := 0
  const QaSlope: int := 4
  const QaBurnScar: int := 6

  const SlopeCutoff: int := 5
  const Water: int := 1

  /** One pixel of the two outputs. */
  datatype QaPixelOut = QaPixelOut(product: int, qa: int)

  /** The QA code of one pixel: slope over water wins over a burn scar. */
  function QaCode(annual: int, slope: int, burn: int): (qa: int)
    ensures qa in {QaNone, QaSlope, QaBurnScar}
    ensures qa == QaSlope <==> slope > SlopeCutoff && annual == Water
    ensures qa == QaBurnScar <==> burn == 1 && !(slope > SlopeCutoff && annual == Water)
    ensures qa == QaNone <==> burn != 1 && !(slope > SlopeCutoff && annual == Water)
  {
    var qa := QaNone;
    var qa := if burn == 1 then QaBurnScar else qa;
    if slope > SlopeCutoff && annual == Water then QaSlope else qa
  }

  /** `generateQA` as written, one pixel.  The burn-scar write to the
      product is overwritten: the slope rule starts again from the original
      annual value. */
  function QaPixel(annual: int, slope: int, burn: int): (r: QaPixelOut)
    ensures r.qa == QaCode(annual, slope, burn)
    ensures slope > SlopeCutoff ==> r.product == 0
    ensures slope <= SlopeCutoff ==> r.product == annual
  {
    var product := annual;
    var product := if burn == 1 then 0 else annual;
    var qa := QaCode(annual, slope, burn);
    var product := if slope > SlopeCutoff then 0 else annual;
    QaPixelOut(product, qa)
  }

  /** The burn-scar raster has no effect on the corrected product. */
  lemma ProductIgnoresBurnScar(annual: int, slope: int, burn1: int, burn2: int)
    ensures QaPixel(annual, slope, burn1).product == QaPixel(annual, slope, burn2).product
  {
  }

  /** A burnt water pixel on flat ground is flagged as a burn scar in the QA
      band, yet stays water in the product. */
  lemma BurnScarFlaggedButKept()
    ensures QaPixel(1, 0, 1) == QaPixelOut(1, QaBurnScar)
  {
  }

  /** The two rules applied in turn, each clearing the product where it
      fires: what the QA codes describe. */
  function QaPixelIntended(annual: int, slope: int, burn: int): (r: QaPixelOut)
    ensures r.qa == QaCode(annual, slope, burn)
    ensures r.product == (if burn == 1 || slope > SlopeCutoff then 0 else annual)
  {
    var product := if burn == 1 then 0 else annual;
    var product := if slope > SlopeCutoff then 0 else product;
    QaPixelOut(product, QaCode(annual, slope, burn))
  }

  /** With the rules applied in turn, every flagged pixel is cleared in the
      product; the QA band is the one the code as written produces. */
  lemma IntendedClearsFlagged(annual: int, slope: int, burn: int)
    ensures var r := QaPixelIntended(annual, slope, burn);
      r.qa != QaNone ==> r.product == 0
    ensures QaPixelIntended(annual, slope, burn).qa == QaPixel(annual, slope, burn).qa
    ensures burn != 1 ==> QaPixelIntended(annual, slope, burn) == QaPixel(annual, slope, burn)
  {
  }

  /** The as-written product does not meet that property. */
  lemma AsWrittenKeepsFlagged()
    ensures exists annual, slope, burn :: var r := QaPixel(annual, slope, burn);
      r.qa != QaNone && r.product != 0
  {
    BurnScarFlaggedButKept();
    assert QaPixel(1, 0, 1).qa != QaNone && QaPixel(1, 0, 1).product != 0;
  }

  /** `generateQA` on whole rasters, as written: the product and QA rasters
      have the annual raster's shape. */
  function GenerateQaAsWritten(annual: Grid, slope: Grid, burn: Grid): (r: (Grid, Grid))
    requires SameShape(annual, slope) && SameShape(annual, burn)
    ensures SameShape(annual, r.0) && SameShape(annual, r.1)
    ensures forall i, j :: InBounds(annual, i, j) ==>
      r.0[i][j] == QaPixel(annual[i][j], slope[i][j], burn[i][j]).product
      && r.1[i][j] == QaPixel(annual[i][j], slope[i][j], burn[i][j]).qa
  {
    (Map3(annual, slope, burn, (a, s, b) => QaPixel(a, s, b).product),
     Map3(annual, slope, burn, (a, s, b) => QaCode(a, s, b)))
  }

  /** `generateQA` on whole rasters with the rules applied in turn, so that
      the burn-scar write is kept (the corrected rule order). */
  function GenerateQa(annual: Grid, slope: Grid, burn: Grid): (r: (Grid, Grid))
    requires SameShape(annual, slope) && SameShape(annual, burn)
    ensures SameShape(annual, r.0) && SameShape(annual, r.1)
    ensures forall i, j :: InBounds(annual, i, j) ==>
      (r.0[i][j] == 0 <==> burn[i][j] == 1 || slope[i][j] > SlopeCutoff || annual[i][j] == 0)
      && (r.0[i][j] != 0 ==> r.0[i][j] == annual[i][j])
      && r.1[i][j] == QaCode(annual[i][j], slope[i][j], burn[i][j])
      && r.1[i][j] in {QaNone, QaSlope, QaBurnScar}
      && (r.1[i][j] != QaNone ==> r.0[i][j] == 0)
  {
    (Map3(annual, slope, burn, (a, s, b) => QaPixelIntended(a, s, b).product),
     Map3(annual, slope, burn, (a, s, b) => QaCode(a, s, b)))
  }

  /** `_getStaticDatasetPath`: the first of the glob matches, or a
      FileNotFoundError naming the searched path when there are none. */
  function GetStaticDatasetPath(inDir: string, searchTerm: string, matches: seq<string>): (r: Result<string>)
    ensures r.Ok? <==> |matches| > 0
    ensures r.Ok? ==> r.value == matches[0]
    ensures r.Err? ==> r.error == FileNotFound(Join(inDir, searchTerm))
  {
    if |matches| > 0 then Ok(matches[0])
    else Err(FileNotFound(Join(inDir, searchTerm)))
  }

  /** The slope raster's search term, `GMTED.<tile>.slope.tif`. */
  function DemSearchTerm(tile: string): string
  {
    "GMTED." + tile + ".slope.tif"
  }

  /** The names of the two outputs. */
  function AnnualProductName(year: int, tile: string, classifier: string, postStr: string): string
  {
    ProductName(year, tile, classifier, "AnnualWaterProduct", postStr)
  }

  function QaProductName(year: int, tile: string, classifier: string, postStr: string): string
  {
    ProductName(year, tile, classifier, "AnnualWaterProductQA", postStr)
  }

  /** The two outputs never overwrite each other: the QA name is always two
      characters longer. */
  lemma OutputNamesDiffer(year: int, tile: string, classifier: string, postStr: string)
    ensures |QaProductName(year, tile, classifier, postStr)| == |AnnualProductName(year, tile, classifier, postStr)| + 2
    ensures QaProductName(year, tile, classifier, postStr) != AnnualProductName(year, tile, classifier, postStr)
  {
  }
}
