/** The daily classifier's shared part: argument validation, the band set
    it reads, and the masking of the predictions with the quality masks. */
module Classifier {
  import opened Grids
  import opened Errors
  import opened Tiles
  import BR = BandReader
  import MG = MaskGenerator

  const BadData: int := -999
  const NoData: int := -9999
  const Land: int := 0
  const Water: int := 1

  const FirstDay: int := 1
  const LastDay: int := 365

  /** numpy's `astype(np.int16)`: wrap into [-32768, 32767]. */
  function Int16(x: int): (r: int)
    ensures -0x8000 <= r < 0x8000
    ensures -0x8000 <= x < 0x8000 ==> r == x
    ensures (r - x) % 0x1_0000 == 0
  {
    (x + 0x8000) % 0x1_0000 - 0x8000
  }

  /** The constructor's arguments; `tile` is "" when none is given. */
  datatype Args = Args(
    year: int, tile: string, outDir: string, modDir: string,
    startDay: int, endDay: int, sensors: set<string>,
    inBands: Option<set<string>>, noData: Option<int>, badData: Option<int>)

  /** What the file system says about the two directories. */
  datatype Dirs = Dirs(outDirExists: bool, outDirIsDir: bool, modDirExists: bool, modDirIsDir: bool)

  /** A constructed classifier. */
  datatype Config = Config(
    year: int, tile: string, outDir: string, sensors: set<string>,
    reader: BR.Reader, days: seq<int>, noData: int, badData: int)

  /** The bands asked of the reader: the given ones (every band when none
      are given) together with the ones the mask generator needs. */
  function RequestedBands(inBands: Option<set<string>>): (r: set<string>)
    ensures MG.RequiredBands <= r
    ensures inBands.None? ==> r == BR.AllBands
    ensures inBands.Some? ==> forall b :: b in r <==> b in inBands.value || b in MG.RequiredBands
  {
    MG.RequiredAreAllBands();
    (if inBands.None? then BR.AllBands else inBands.value) + MG.RequiredBands
  }

  /** `range(startDay, endDay + 1)`. */
  function Days(startDay: int, endDay: int): (days: seq<int>)
    requires startDay <= endDay
    ensures |days| == endDay - startDay + 1
    ensures forall d :: d in days <==> startDay <= d <= endDay
    ensures forall k :: 0 < k < |days| ==> days[k] == days[k - 1] + 1
  {
    var days := seq(endDay - startDay + 1, k => startDay + k);
    assert forall d :: startDay <= d <= endDay ==> d in days by {
      forall d | startDay <= d <= endDay
        ensures d in days
      {
        assert days[d - startDay] == d;
      }
    }
    days
  }

  /** `value or default`: None and 0 both take the default. */
  function OrDefault(given: Option<int>, default: int): (r: int)
    ensures given.Some? && given.value != 0 ==> r == given.value
    ensures given.None? || given.value == 0 ==> r == default
  {
    if given.Some? && given.value != 0 then given.value else default
  }

  /** The checks made before the band reader is built, in order: the output
      directory, the sensors, the tile (only when one is given), the year. */
  function ValidateArgs(a: Args, d: Dirs): (r: Result<()>)
    ensures r.Ok? <==>
      d.outDirExists && d.outDirIsDir && a.sensors <= BR.Sensors
      && (a.tile == "" || HasTilePrefix(a.tile)) && a.year >= BR.FirstYear
    ensures !d.outDirExists ==> r == Err(RuntimeError(OutputDirMissing))
    ensures d.outDirExists && !d.outDirIsDir ==> r == Err(RuntimeError(OutputDirNotADirectory))
    ensures d.outDirExists && d.outDirIsDir && !(a.sensors <= BR.Sensors) ==>
      r == Err(RuntimeError(InvalidSensors(a.sensors - BR.Sensors)))
    ensures d.outDirExists && d.outDirIsDir && a.sensors <= BR.Sensors && a.tile != "" && !HasTilePrefix(a.tile) ==>
      r == Err(RuntimeError(BadTileName(a.tile)))
    ensures d.outDirExists && d.outDirIsDir && a.sensors <= BR.Sensors && (a.tile == "" || HasTilePrefix(a.tile))
            && a.year < BR.FirstYear ==>
      r == Err(RuntimeError(InvalidYear(a.year)))
    ensures r.Err? ==> r.error.RuntimeError?
  {
    if !d.outDirExists then Err(RuntimeError(OutputDirMissing))
    else if !d.outDirIsDir then Err(RuntimeError(OutputDirNotADirectory))
    else if a.sensors - BR.Sensors != {} then Err(RuntimeError(InvalidSensors(a.sensors - BR.Sensors)))
    else if a.tile != "" && !HasTilePrefix(a.tile) then Err(RuntimeError(BadTileName(a.tile)))
    else if a.year < BR.FirstYear then Err(RuntimeError(InvalidYear(a.year)))
    else Ok(())
  }

  /** `BandReader(modDir, bands)` as the constructor calls it: the two
      arguments land in the reader's `bands` and `baseDir` parameters the
      other way round, so the base-directory test gets the band set, and
      `os.path.exists` on a set raises TypeError. */
  function ReaderFromSwappedArguments(bandsParam: string, baseDirParam: set<string>): (r: Result<BR.Reader>)
    ensures baseDirParam != {} ==> r == Err(TypeError)
  {
    if baseDirParam == {} then Err(RuntimeError(BaseDirMissing("set()")))
    else Err(TypeError)
  }

  /** `__init__` as written. */
  function NewAsWritten(a: Args, d: Dirs): (r: Result<Config>)
    ensures ValidateArgs(a, d).Err? ==> r == Err(ValidateArgs(a, d).error)
    ensures ValidateArgs(a, d).Ok? ==> r == Err(TypeError)
  {
    var _ :- ValidateArgs(a, d);
    match ReaderFromSwappedArguments(a.modDir, RequestedBands(a.inBands))
    case Err(e) => Err(e)
    case Ok(reader) => Finish(a, reader)
  }

  /** The rest of `__init__` once the reader is built: the day range, then
      the no-data and bad-data defaults. */
  function Finish(a: Args, reader: BR.Reader): (r: Result<Config>)
    ensures r.Ok? <==> a.startDay <= a.endDay
    ensures r.Err? ==> r.error == ValueError(StartDayAfterEndDay)
    ensures r.Ok? ==>
      && r.value.reader == reader
      && r.value.days == Days(a.startDay, a.endDay)
      && (forall day :: day in r.value.days <==> a.startDay <= day <= a.endDay)
      && r.value.noData != 0 && r.value.badData != 0
      && (a.noData.Some? && a.noData.value != 0 ==> r.value.noData == a.noData.value)
      && (a.noData.None? || a.noData.value == 0 ==> r.value.noData == NoData)
      && (a.badData.Some? && a.badData.value != 0 ==> r.value.badData == a.badData.value)
      && (a.badData.None? || a.badData.value == 0 ==> r.value.badData == BadData)
  {
    if a.startDay > a.endDay then Err(ValueError(StartDayAfterEndDay))
    else Ok(Config(a.year, a.tile, a.outDir, a.sensors, reader, Days(a.startDay, a.endDay),
                   OrDefault(a.noData, NoData), OrDefault(a.badData, BadData)))
  }

  /** As written, no classifier can be built: every argument list ends in
      an exception, valid ones included. */
  lemma AsWrittenNeverConstructs(a: Args, d: Dirs)
    ensures NewAsWritten(a, d).Err?
    ensures NewAsWritten(Args(2020, "h09v05", "/out", "/mod", 1, 365, BR.Sensors, None, None, None),
                         Dirs(true, true, true, true)) == Err(TypeError)
  {
    var a0 := Args(2020, "h09v05", "/out", "/mod", 1, 365, BR.Sensors, None, None, None);
    assert HasTilePrefix(a0.tile);
  }

  /** `__init__` with the band reader given its arguments in its own order,
      `BandReader(bands, modDir)`. */
  function New(a: Args, d: Dirs): (r: Result<Config>)
    ensures r.Ok? <==>
      ValidateArgs(a, d).Ok? && a.modDir != "" && d.modDirExists && d.modDirIsDir && a.startDay <= a.endDay
    ensures ValidateArgs(a, d).Err? ==> r == Err(ValidateArgs(a, d).error)
    ensures ValidateArgs(a, d).Ok? && !(a.modDir != "" && d.modDirExists && d.modDirIsDir) ==>
      r == Err(RuntimeError(BaseDirMissing(a.modDir)))
    ensures ValidateArgs(a, d).Ok? && a.modDir != "" && d.modDirExists && d.modDirIsDir && a.startDay > a.endDay ==>
      r == Err(ValueError(StartDayAfterEndDay))
    ensures r.Ok? ==>
      && MG.RequiredBands <= r.value.reader.bands
      && r.value.reader.baseDir == a.modDir
      && r.value.days == Days(a.startDay, a.endDay)
      && (forall day :: day in r.value.days <==> a.startDay <= day <= a.endDay)
      && r.value.noData != 0 && r.value.badData != 0
      && (a.noData.Some? && a.noData.value != 0 ==> r.value.noData == a.noData.value)
      && (a.noData.None? || a.noData.value == 0 ==> r.value.noData == NoData)
      && (a.badData.Some? && a.badData.value != 0 ==> r.value.badData == a.badData.value)
      && (a.badData.None? || a.badData.value == 0 ==> r.value.badData == BadData)
  {
    var _ :- ValidateArgs(a, d);
    var bands := RequestedBands(a.inBands);
    var reader :- BR.NewReader(Some(bands), a.modDir, d.modDirExists, d.modDirIsDir);
    MG.RequiredAreAllBands();
    Finish(a, reader)
  }

  /** The default arguments give the days of a whole year, every band, and
      the default no-data and bad-data values. */
  lemma DefaultsCoverTheYear(year: int, tile: string, outDir: string, modDir: string)
    requires year >= BR.FirstYear && (tile == "" || HasTilePrefix(tile)) && modDir != ""
    ensures var r := New(Args(year, tile, outDir, modDir, FirstDay, LastDay, BR.Sensors, None, None, None),
                         Dirs(true, true, true, true));
      && r.Ok? && |r.value.days| == 365 && r.value.reader.bands == BR.AllBands
      && r.value.noData == NoData && r.value.badData == BadData
  {
    MG.RequiredAreAllBands();
  }

  /** `_maskClassifyWrite`, one pixel: the prediction where the general
      mask is good and -999 elsewhere; then the bad-data value where that
      is land and the land mask is bad. */
  function FinalPixel(general: int, land: int, predicted: int, badData: int): (r: int)
    ensures general != MG.GoodData ==> r == BadData
    ensures general == MG.GoodData && Int16(predicted) == Land && land == MG.BadData ==> r == Int16(badData)
    ensures general == MG.GoodData && !(Int16(predicted) == Land && land == MG.BadData) ==> r == Int16(predicted)
  {
    var masked := Int16(if general == MG.GoodData then predicted else BadData);
    Int16(if masked == Land && land == MG.BadData then badData else masked)
  }

  /** The land mask only ever touches land predictions: a water prediction
      on good data survives, and the land mask changes a pixel only where
      the general mask is good and the prediction is land. */
  lemma LandMaskOnlyTouchesLand(general: int, land: int, predicted: int, badData: int)
    ensures general == MG.GoodData && predicted == Water ==> FinalPixel(general, land, predicted, badData) == Water
    ensures FinalPixel(general, land, predicted, badData) != FinalPixel(general, MG.GoodData, predicted, badData) ==>
      general == MG.GoodData && Int16(predicted) == Land && land == MG.BadData
  {
  }

  /** `_maskClassifyWrite` up to the write: the mask generator is built from
      the bands (which can fail), and each pixel is `FinalPixel` of the two
      masks and the prediction. */
  function MaskPredictions(bandDict: map<string, Grid>, predicted: Grid, badData: int): (r: Result<Grid>)
    requires forall b :: b in bandDict ==> SameShape(predicted, bandDict[b])
    ensures r.Ok? <==> MG.RequiredBands <= bandDict.Keys
    ensures r.Err? ==> r == Err(MG.New(bandDict).error)
    ensures r.Ok? ==> SameShape(predicted, r.value)
    ensures r.Ok? ==> BR.State in bandDict && BR.Sr1 in bandDict && BR.Sr2 in bandDict && BR.Solz in bandDict
    ensures r.Ok? ==>
      && SameShape(predicted, bandDict[BR.State]) && SameShape(predicted, bandDict[BR.Sr1])
      && SameShape(predicted, bandDict[BR.Sr2]) && SameShape(predicted, bandDict[BR.Solz])
    ensures r.Ok? ==> forall i, j :: InBounds(predicted, i, j) ==>
      var state := MG.StateWord(bandDict[BR.State][i][j]);
      r.value[i][j] == FinalPixel(
        MG.GeneralPixel(bandDict[BR.Sr1][i][j], bandDict[BR.Sr2][i][j], bandDict[BR.Solz][i][j], state),
        MG.LandPixel(state), predicted[i][j], badData)
  {
    var gen :- MG.New(bandDict);
    SameShapeVia(predicted, bandDict[BR.State], bandDict[BR.Sr1]);
    SameShapeVia(predicted, bandDict[BR.State], bandDict[BR.Sr2]);
    SameShapeVia(predicted, bandDict[BR.State], bandDict[BR.Solz]);
    var general := MG.GeneralMask(gen);
    var land := MG.LandMask(gen);
    Ok(Map3(predicted, general, land, (p, g, l) => FinalPixel(g, l, p, badData)))
  }
}
