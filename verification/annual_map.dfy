/** The annual water map: for every pixel, the number of days of the year
    the daily classifier called it water, land or bad; the percentage of
    water among the water and land days; and the majority mask. */
module AnnualMap {
  import opened Grids
  import opened Errors
  import opened Paths
  import opened Text
  import Utils

  const Water: int := 1
  const Land: int := 0
  const BadData: int := -999

  const DaysPerYear: nat := 365
  const MajorityPercent: int := 50

  /** The post-fixes of the five annual rasters. */
  const TotalNames: seq<string> := ["SumWater", "SumLand", "SumObs", "ProbWater", "Mask"]

  /** The daily image of `day`, `<dailyDir>/<year>-<ddd>-<tile>-<sensor>-<classifier>.tif`. */
  function DayImagePath(dailyDir: string, year: int, tile: string, sensor: string, classifier: string,
                        day: int): string
  {
    Join(dailyDir, Utils.GetImageName(year, tile, sensor, classifier, Some(day), None) + ".tif")
  }

  /** Two different days of the year read two different image names, so
      no daily image is counted twice. */
  lemma DayNamesDistinct(year: int, tile: string, sensor: string, classifier: string, d1: int, d2: int)
    requires year >= 0 && 1 <= d1 <= DaysPerYear && 1 <= d2 <= DaysPerYear
    requires '-' !in tile && '-' !in sensor && '-' !in classifier
    ensures (Utils.GetImageName(year, tile, sensor, classifier, Some(d1), None)
          == Utils.GetImageName(year, tile, sensor, classifier, Some(d2), None)) ==> d1 == d2
  {
    var n1 := Utils.GetImageName(year, tile, sensor, classifier, Some(d1), None);
    var n2 := Utils.GetImageName(year, tile, sensor, classifier, Some(d2), None);
    if n1 == n2 {
      Utils.ImageNameSplits(year, tile, sensor, classifier, Some(d1), None);
      Utils.ImageNameSplits(year, tile, sensor, classifier, Some(d2), None);
      assert Utils.ImageNameFields(year, tile, sensor, classifier, Some(d1), None)[1] == Utils.DayField(d1);
      assert Utils.ImageNameFields(year, tile, sensor, classifier, Some(d2), None)[1] == Utils.DayField(d2);
      Utils.DayFieldIsThreeDigits(d1);
      Utils.DayFieldIsThreeDigits(d2);
    }
  }

  /** `os.path.exists` then the read, with `files` standing for the daily
      directory: None when the day's image is missing. */
  function DayImage(files: map<string, Grid>, path: string): Option<Grid>
  {
    if path in files then Some(files[path]) else None
  }

  /** The image `accumulateDay` reads for `day`, if it exists. */
  function ImageOfDay(files: map<string, Grid>, dailyDir: string, year: int, tile: string, sensor: string,
                      classifier: string, day: int): Option<Grid>
  {
    DayImage(files, DayImagePath(dailyDir, year, tile, sensor, classifier, day))
  }

  /** The images of days 1 to 365, in order. */
  function YearImages(files: map<string, Grid>, dailyDir: string, year: int, tile: string, sensor: string,
                      classifier: string): (images: seq<Option<Grid>>)
    ensures |images| == DaysPerYear
    ensures forall k :: 0 <= k < DaysPerYear ==>
      images[k] == ImageOfDay(files, dailyDir, year, tile, sensor, classifier, k + 1)
  {
    seq(DaysPerYear, k => ImageOfDay(files, dailyDir, year, tile, sensor, classifier, k + 1))
  }

  /** A day's value at a pixel; None when the day's image is missing. */
  function PixelAt(image: Option<Grid>, i: int, j: int): Option<int>
  {
    if image.Some? && InBounds(image.value, i, j) then Some(image.value[i][j]) else None
  }

  /** The values of pixel (i, j) over the first `n` days. */
  function Series(images: seq<Option<Grid>>, n: nat, i: int, j: int): (s: seq<Option<int>>)
    requires n <= |images|
    ensures |s| == n
    ensures forall k :: 0 <= k < n ==> s[k] == PixelAt(images[k], i, j)
  {
    seq(n, k requires 0 <= k < n => PixelAt(images[k], i, j))
  }

  /** `np.where(image == v, 1, 0)` at one pixel of one day. */
  function Hit(x: Option<int>, v: int): int
  {
    if x == Some(v) then 1 else 0
  }

  /** A day moves at most one counter by one; a missing image, and any
      value other than water, land and bad data (no-data -9999 among them),
      moves none. */
  lemma AtMostOneCounter(x: Option<int>)
    ensures Hit(x, Water) + Hit(x, Land) + Hit(x, BadData) <= 1
    ensures x.None? || x.value !in {Water, Land, BadData} ==>
      Hit(x, Water) == 0 && Hit(x, Land) == 0 && Hit(x, BadData) == 0
  {
  }

  /** The counter of value `v` as the days add to it, one after another. */
  function Count(s: seq<Option<int>>, v: int): nat
  {
    if |s| == 0 then 0 else Count(s[..|s| - 1], v) + Hit(s[|s| - 1], v)
  }

  /** The days whose value is `v`. */
  function DaysWith(s: seq<Option<int>>, v: int): set<int>
  {
    set k | 0 <= k < |s| && s[k] == Some(v)
  }

  /** The counter is the number of days holding the value. */
  lemma {:induction false} CountIsDaysWith(s: seq<Option<int>>, v: int)
    ensures Count(s, v) == |DaysWith(s, v)|
    decreases |s|
  {
    if |s| > 0 {
      var p := s[..|s| - 1];
      CountIsDaysWith(p, v);
      if s[|s| - 1] == Some(v) {
        assert DaysWith(s, v) == DaysWith(p, v) + {|s| - 1};
      } else {
        assert DaysWith(s, v) == DaysWith(p, v);
      }
    }
  }

  /** The three counters together never exceed the number of days. */
  lemma {:induction false} CountsBounded(s: seq<Option<int>>)
    ensures Count(s, Water) + Count(s, Land) + Count(s, BadData) <= |s|
    decreases |s|
  {
    if |s| > 0 {
      CountsBounded(s[..|s| - 1]);
      AtMostOneCounter(s[|s| - 1]);
    }
  }

  /** The days holding water, land or bad data together never exceed the
      number of days. */
  lemma DaysBounded(s: seq<Option<int>>)
    ensures |DaysWith(s, Water)| + |DaysWith(s, Land)| + |DaysWith(s, BadData)| <= |s|
  {
    CountsBounded(s);
    CountIsDaysWith(s, Water);
    CountIsDaysWith(s, Land);
    CountIsDaysWith(s, BadData);
  }

  /** What `accumulateDays` promises at one pixel, whose daily values over
      the year are `s`: the water and land counters count the days with
      those values, the observations add the bad days and stay within the
      year, the percentage is the whole share of water among water and land
      days (0 when there are none), and the mask marks a majority of water. */
  predicate DescribesPixel(s: seq<Option<int>>, sumWater: int, sumLand: int, sumObs: int, probWater: int,
                           mask: int)
  {
    var w := |DaysWith(s, Water)|;
    var l := |DaysWith(s, Land)|;
    && sumWater == w && sumLand == l
    && sumObs == w + l + |DaysWith(s, BadData)| <= DaysPerYear
    && 0 <= probWater <= 100
    && (w + l == 0 ==> probWater == 0)
    && (w + l > 0 ==> probWater * (w + l) <= 100 * w < (probWater + 1) * (w + l))
    && (mask == Water <==> w + l > 0 && w >= l)
    && (mask == Land <==> w + l == 0 || w < l)
  }

  /** The counters of a year's pixel, and the total, percentage and mask
      `accumulateDays` derives from them, describe that pixel's days. */
  lemma PixelSummary(s: seq<Option<int>>, sumWater: int, sumLand: int, sumBad: int)
    requires |s| == DaysPerYear
    requires sumWater == |DaysWith(s, Water)| && sumLand == |DaysWith(s, Land)| && sumBad == |DaysWith(s, BadData)|
    ensures var p := ProbWater(sumWater, sumLand);
      DescribesPixel(s, sumWater, sumLand, sumWater + sumLand + sumBad, p, MaskPixel(p))
  {
    DaysBounded(s);
    MajorityMask(sumWater, sumLand);
  }

  /** One more day adds that day's hit to the counter. */
  lemma SeriesStep(images: seq<Option<Grid>>, n: nat, i: int, j: int, v: int)
    requires n < |images|
    ensures Count(Series(images, n + 1, i, j), v) == Count(Series(images, n, i, j), v) + Hit(PixelAt(images[n], i, j), v)
  {
    assert Series(images, n + 1, i, j)[..n] == Series(images, n, i, j);
  }

  /** `accumulateDay` on one counter: `sum += np.where(image == v, 1, 0)`
      when the image exists, nothing otherwise. */
  function AddDay(sum: Grid, image: Option<Grid>, v: int): (r: Grid)
    requires image.Some? ==> SameShape(sum, image.value)
    ensures SameShape(sum, r)
    ensures forall i, j :: InBounds(sum, i, j) ==> r[i][j] == sum[i][j] + Hit(PixelAt(image, i, j), v)
  {
    match image
    case None => sum
    case Some(img) => Map2(sum, img, (s, x) => s + (if x == v then 1 else 0))
  }

  /** The counting loop of `accumulateDays`: three zero rasters of the tile
      shape, and each of the 365 days added in turn.  Each pixel of a
      counter ends as the number of days its image held that value. */
  method AccumulateDays(images: seq<Option<Grid>>) returns (sumWater: Grid, sumLand: Grid, sumBad: Grid)
    requires |images| == DaysPerYear
    requires forall k :: 0 <= k < |images| && images[k].Some? ==> HasShape(images[k].value, TileSize, TileSize)
    ensures HasShape(sumWater, TileSize, TileSize)
    ensures HasShape(sumLand, TileSize, TileSize)
    ensures HasShape(sumBad, TileSize, TileSize)
    ensures forall i, j :: InBounds(sumWater, i, j) ==>
      var s := Series(images, DaysPerYear, i, j);
      && sumWater[i][j] == |DaysWith(s, Water)|
      && sumLand[i][j] == |DaysWith(s, Land)|
      && sumBad[i][j] == |DaysWith(s, BadData)|
  {
    sumWater := Fill(TileSize, TileSize, 0);
    sumLand := Fill(TileSize, TileSize, 0);
    sumBad := Fill(TileSize, TileSize, 0);
    var n := 0;
    while n < DaysPerYear
      invariant 0 <= n <= DaysPerYear
      invariant HasShape(sumWater, TileSize, TileSize)
      invariant HasShape(sumLand, TileSize, TileSize)
      invariant HasShape(sumBad, TileSize, TileSize)
      invariant forall i, j :: InBounds(sumWater, i, j) ==>
        var s := Series(images, n, i, j);
        && sumWater[i][j] == Count(s, Water)
        && sumLand[i][j] == Count(s, Land)
        && sumBad[i][j] == Count(s, BadData)
    {
      var w := AddDay(sumWater, images[n], Water);
      var l := AddDay(sumLand, images[n], Land);
      var b := AddDay(sumBad, images[n], BadData);
      DayStep(images, n, sumWater, Water);
      DayStep(images, n, sumLand, Land);
      DayStep(images, n, sumBad, BadData);
      sumWater, sumLand, sumBad := w, l, b;
      n := n + 1;
    }
    forall i, j | InBounds(sumWater, i, j)
      ensures var s := Series(images, DaysPerYear, i, j);
        && sumWater[i][j] == |DaysWith(s, Water)|
        && sumLand[i][j] == |DaysWith(s, Land)|
        && sumBad[i][j] == |DaysWith(s, BadData)|
    {
      var s := Series(images, DaysPerYear, i, j);
      CountIsDaysWith(s, Water);
      CountIsDaysWith(s, Land);
      CountIsDaysWith(s, BadData);
    }
  }

  /** Adding day `n` to a counter of the first `n` days gives the counter
      of the first `n + 1` days. */
  lemma DayStep(images: seq<Option<Grid>>, n: nat, sum: Grid, v: int)
    requires n < |images|
    requires images[n].Some? ==> SameShape(sum, images[n].value)
    requires forall i, j :: InBounds(sum, i, j) ==> sum[i][j] == Count(Series(images, n, i, j), v)
    ensures var r := AddDay(sum, images[n], v);
      forall i, j :: InBounds(r, i, j) ==> r[i][j] == Count(Series(images, n + 1, i, j), v)
  {
    var r := AddDay(sum, images[n], v);
    forall i, j | InBounds(r, i, j)
      ensures r[i][j] == Count(Series(images, n + 1, i, j), v)
    {
      SeriesStep(images, n, i, j, v);
    }
  }

  /** `probWater` at one pixel: the whole percentage of water among the
      water and land days, 0 when there are none. */
  function ProbWater(w: int, l: int): (p: int)
    ensures w + l <= 0 ==> p == 0
    ensures w >= 0 && l >= 0 ==> 0 <= p <= 100
    ensures w + l > 0 ==> p * (w + l) <= 100 * w < (p + 1) * (w + l)
  {
    if w + l > 0 then (100 * w) / (w + l) else 0
  }

  /** `mask` at one pixel. */
  function MaskPixel(p: int): int
  {
    if p >= MajorityPercent then Water else Land
  }

  /** The mask is water exactly where the pixel was seen as water at least
      as often as land, and was seen at all. */
  lemma MajorityMask(w: int, l: int)
    requires w >= 0 && l >= 0
    ensures MaskPixel(ProbWater(w, l)) == Water <==> w + l > 0 && w >= l
    ensures MaskPixel(ProbWater(w, l)) == Land <==> w + l == 0 || w < l
  {
    var t := w + l;
    if t > 0 {
      var p := ProbWater(w, l);
      if p >= MajorityPercent {
        MulMonotone(MajorityPercent, p, t);
      } else if w >= l {
        MulMonotone(p + 1, MajorityPercent, t);
        assert false;
      }
    }
  }

  lemma MulMonotone(a: int, b: int, t: int)
    requires a <= b && t >= 0
    ensures a * t <= b * t
  {
    assert b * t - a * t == (b - a) * t;
  }

  /** `accumulateDays`: the three counters, the observations, the water
      percentage and the mask of the year's daily images in `files`. */
  method AccumulateYear(files: map<string, Grid>, dailyDir: string, year: int, tile: string, sensor: string,
                        classifier: string)
    returns (sumWater: Grid, sumLand: Grid, sumObs: Grid, probWater: Grid, mask: Grid)
    requires forall p :: p in files ==> HasShape(files[p], TileSize, TileSize)
    ensures HasShape(sumWater, TileSize, TileSize)
    ensures SameShape(sumWater, sumLand) && SameShape(sumWater, sumObs)
    ensures SameShape(sumWater, probWater) && SameShape(sumWater, mask)
    ensures forall i, j :: InBounds(sumWater, i, j) ==>
      DescribesPixel(Series(YearImages(files, dailyDir, year, tile, sensor, classifier), DaysPerYear, i, j),
                     sumWater[i][j], sumLand[i][j], sumObs[i][j], probWater[i][j], mask[i][j])
  {
    var images := YearImages(files, dailyDir, year, tile, sensor, classifier);
    YearImagesShaped(files, dailyDir, year, tile, sensor, classifier);
    var sumBad;
    sumWater, sumLand, sumBad := AccumulateDays(images);
    sumObs := Map3(sumWater, sumLand, sumBad, (w, l, b) => w + l + b);
    probWater := Map2(sumWater, sumLand, ProbWater);
    mask := Map(probWater, MaskPixel);
    YearStatistics(images, sumWater, sumLand, sumBad, sumObs, probWater, mask);
  }

  /** Every image found for the year has the tile shape of the files. */
  lemma YearImagesShaped(files: map<string, Grid>, dailyDir: string, year: int, tile: string, sensor: string,
                         classifier: string)
    requires forall p :: p in files ==> HasShape(files[p], TileSize, TileSize)
    ensures var images := YearImages(files, dailyDir, year, tile, sensor, classifier);
      forall k :: 0 <= k < |images| && images[k].Some? ==> HasShape(images[k].value, TileSize, TileSize)
  {
  }

  /** The counters of a year, and the totals, percentages and mask derived
      from them pixel by pixel, describe that year's days. */
  lemma YearStatistics(images: seq<Option<Grid>>, sumWater: Grid, sumLand: Grid, sumBad: Grid,
                       sumObs: Grid, probWater: Grid, mask: Grid)
    requires |images| == DaysPerYear
    requires SameShape(sumWater, sumLand) && SameShape(sumWater, sumBad) && SameShape(sumWater, sumObs)
    requires SameShape(sumWater, probWater) && SameShape(sumWater, mask)
    requires forall i, j :: InBounds(sumWater, i, j) ==>
      var s := Series(images, DaysPerYear, i, j);
      && sumWater[i][j] == |DaysWith(s, Water)|
      && sumLand[i][j] == |DaysWith(s, Land)|
      && sumBad[i][j] == |DaysWith(s, BadData)|
    requires forall i, j :: InBounds(sumWater, i, j) ==>
      && sumObs[i][j] == sumWater[i][j] + sumLand[i][j] + sumBad[i][j]
      && probWater[i][j] == ProbWater(sumWater[i][j], sumLand[i][j])
      && mask[i][j] == MaskPixel(probWater[i][j])
    ensures forall i, j :: InBounds(sumWater, i, j) ==>
      DescribesPixel(Series(images, DaysPerYear, i, j), sumWater[i][j], sumLand[i][j], sumObs[i][j],
                     probWater[i][j], mask[i][j])
  {
    forall i, j | InBounds(sumWater, i, j)
      ensures DescribesPixel(Series(images, DaysPerYear, i, j), sumWater[i][j], sumLand[i][j], sumObs[i][j],
                             probWater[i][j], mask[i][j])
    {
      PixelSummary(Series(images, DaysPerYear, i, j), sumWater[i][j], sumLand[i][j], sumBad[i][j]);
    }
  }

  /** `writeTotal`'s name: `<year>-<tile>-<sensor>-<classifier>-<postFix>`,
      written under the daily directory with a `.tif` suffix. */
  function TotalPath(dailyDir: string, year: int, tile: string, sensor: string, classifier: string,
                     postFix: string): string
  {
    Join(dailyDir, Utils.GetImageName(year, tile, sensor, classifier, None, Some(postFix)) + ".tif")
  }

  /** Different post-fixes give different annual names; an annual name
      has five fields and so no day field. */
  lemma TotalNamesDistinct(year: int, tile: string, sensor: string, classifier: string, p1: string, p2: string)
    requires year >= 0 && p1 != "" && p2 != "" && p1 != p2
    requires '-' !in tile && '-' !in sensor && '-' !in classifier && '-' !in p1 && '-' !in p2
    ensures Utils.GetImageName(year, tile, sensor, classifier, None, Some(p1))
         != Utils.GetImageName(year, tile, sensor, classifier, None, Some(p2))
    ensures |Split(Utils.GetImageName(year, tile, sensor, classifier, None, Some(p1)), '-')| == 5
  {
    var f1 := Utils.ImageNameFields(year, tile, sensor, classifier, None, Some(p1));
    var f2 := Utils.ImageNameFields(year, tile, sensor, classifier, None, Some(p2));
    Utils.ImageNameSplits(year, tile, sensor, classifier, None, Some(p1));
    Utils.ImageNameSplits(year, tile, sensor, classifier, None, Some(p2));
    assert f1[4] == p1 && f2[4] == p2;
  }

  /** The five post-fixes differ from one another and hold no '-'. */
  lemma TotalNamesValid()
    ensures forall a, b :: 0 <= a < b < |TotalNames| ==> TotalNames[a] != TotalNames[b]
    ensures forall a :: 0 <= a < |TotalNames| ==> TotalNames[a] != "" && '-' !in TotalNames[a]
  {
  }
}
