/** The MOD09/MYD09 band reader: which bands exist, which of them a reader
    selects, how a read is validated, and which HDF files it searches for.
    The HDF reads themselves are not part of this model. */
module BandReader {
  import opened Errors
  import opened Text
  import opened Paths
  import opened Tiles
  import Utils

  const BaseDir: string := "/css/modis/Collection6.1/L2G"

  // Band names.
  const Senz: string := "SensorZenith_1"
  const Solz: string := "SolarZenith_1"
  const Sr1: string := "sur_refl_b01_1"
  const Sr2: string := "sur_refl_b02_1"
  const Sr3: string := "sur_refl_b03_1"
  const Sr4: string := "sur_refl_b04_1"
  const Sr5: string := "sur_refl_b05_1"
  const Sr6: string := "sur_refl_b06_1"
  const Sr7: string := "sur_refl_b07_1"
  const State: string := "state_1km_1"

  /** Bands of the 500 m / 1 km GA product and of the 250 m GQ product. */
  const GaBands: set<string> := {Senz, Solz, Sr3, Sr4, Sr5, Sr6, Sr7, State}
  const GqBands: set<string> := {Sr1, Sr2}
  const AllBands: set<string> := GaBands + GqBands

  const Mod: string := "MOD"
  const Myd: string := "MYD"
  const Sensors: set<string> := {Mod, Myd}

  const FirstYear: int := 1999

  /** The two products share no band, and together hold the ten bands. */
  lemma BandGroups()
    ensures GaBands !! GqBands
    ensures AllBands == GaBands + GqBands
    ensures |AllBands| == 10
  {
  }

  /** A reader: its base directory and the bands it reads. */
  datatype Reader = Reader(baseDir: string, bands: set<string>)

  /** The band selection of `__init__`: every band when none is given, and
      otherwise the given bands that exist (the others are dropped). */
  function SelectBands(bands: Option<set<string>>): (r: set<string>)
    ensures r <= AllBands
    ensures bands.None? ==> r == AllBands
    ensures bands.Some? ==> forall b :: b in r <==> b in bands.value && b in AllBands
  {
    match bands
    case None => AllBands
    case Some(given) => given * AllBands
  }

  /** Selecting again from a selection changes nothing. */
  lemma SelectBandsIdempotent(bands: Option<set<string>>)
    ensures SelectBands(Some(SelectBands(bands))) == SelectBands(bands)
  {
  }

  /** `__init__`: the base directory must be non-empty, exist and be a
      directory.  Existence is a parameter. */
  function NewReader(bands: Option<set<string>>, baseDir: string, dirExists: bool, isDir: bool)
    : (r: Result<Reader>)
    ensures r.Ok? <==> baseDir != "" && dirExists && isDir
    ensures r.Ok? ==> r.value.baseDir == baseDir && r.value.bands == SelectBands(bands)
    ensures r.Err? ==> r.error == RuntimeError(BaseDirMissing(baseDir))
  {
    if baseDir == "" || !dirExists || !isDir then Err(RuntimeError(BaseDirMissing(baseDir)))
    else Ok(Reader(baseDir, SelectBands(bands)))
  }

  /** `_validate`: the sensor, then the tile (only when one is given), then
      the year, each failure a RuntimeError. */
  function Validate(sensor: string, year: int, tile: string): (r: Result<()>)
    ensures r.Ok? <==> sensor in Sensors && (tile == "" || HasTilePrefix(tile)) && year >= FirstYear
    ensures sensor !in Sensors ==> r == Err(RuntimeError(InvalidSensor(sensor)))
    ensures sensor in Sensors && tile != "" && !HasTilePrefix(tile) ==> r == Err(RuntimeError(BadTileName(tile)))
    ensures sensor in Sensors && (tile == "" || HasTilePrefix(tile)) && year < FirstYear ==>
      r == Err(RuntimeError(InvalidYear(year)))
  {
    if sensor !in Sensors then Err(RuntimeError(InvalidSensor(sensor)))
    else if tile != "" && !HasTilePrefix(tile) then Err(RuntimeError(BadTileName(tile)))
    else if year < FirstYear then Err(RuntimeError(InvalidYear(year)))
    else Ok(())
  }

  /** The day part of the glob: the zero-padded day, or `*` for any day. */
  function DayPattern(day: Option<int>): string
  {
    if Utils.DayGiven(day) then Utils.DayField(day.value) else "*"
  }

  /** The base glob pattern of `read`: `<year><ddd or *>.<tile>*.hdf`. */
  function Pattern(year: int, tile: string, day: Option<int>): string
  {
    IntToStr(year) + DayPattern(day) + "." + tile + "*.hdf"
  }

  /** The pattern starts with the year and ends with the tile and the HDF
      suffix; a day from 1 to 999 sits between them as three digits that
      read back as the day. */
  lemma PatternFields(year: int, tile: string, day: Option<int>)
    requires year >= FirstYear
    ensures var p := Pattern(year, tile, day);
      var y := IntToStr(year);
      && StartsWith(p, y)
      && p[|p| - |tile| - 6..] == "." + tile + "*.hdf"
      && (!Utils.DayGiven(day) ==> p[|y|] == '*')
      && (Utils.DayGiven(day) && 1 <= day.value <= 999 ==>
            |p| >= |y| + 3 && AllDigits(p[|y|..|y| + 3]) && DigitsValue(p[|y|..|y| + 3]) == day.value)
  {
    var y := IntToStr(year);
    var p := Pattern(year, tile, day);
    Regroup(y, DayPattern(day), ".", tile, "*.hdf");
    if Utils.DayGiven(day) && 1 <= day.value <= 999 {
      Utils.DayFieldIsThreeDigits(day.value);
      assert p[|y|..|y| + 3] == DayPattern(day);
    }
  }

  /** A concatenation of five strings, with its last three grouped. */
  lemma Regroup(a: string, b: string, c: string, d: string, e: string)
    ensures a + b + c + d + e == a + b + (c + d + e)
  {
  }

  /** One glob search `read` makes, and the bands read from its matches. */
  datatype Search = Search(glob: string, bands: set<string>, setsXform: bool)

  /** The GA search: `*GA.A<pattern>` under `<base>`, `<sensor>09GA` and the year. */
  function GaGlob(reader: Reader, sensor: string, year: int, pattern: string): string
  {
    Join(Join(Join(reader.baseDir, sensor + "09GA"), IntToStr(year)), "*GA.A" + pattern)
  }

  function GqGlob(reader: Reader, sensor: string, year: int, pattern: string): string
  {
    Join(Join(Join(reader.baseDir, sensor + "09GQ"), IntToStr(year)), "*GQ.A" + pattern)
  }

  /** The searches for a selection split over two disjoint band groups: one
      per group the selection meets, the second group's search being the
      one that sets the geo transform. */
  function SearchPair(bands: set<string>, gaGroup: set<string>, gqGroup: set<string>, gaGlob: string,
                      gqGlob: string): (r: seq<Search>)
    requires gaGroup !! gqGroup
    ensures |r| <= 2
    ensures forall k :: 0 <= k < |r| ==>
      r[k].bands != {} && r[k].bands <= bands && (r[k].setsXform <==> r[k].bands <= gqGroup)
    ensures (exists k :: 0 <= k < |r| && r[k] == Search(gaGlob, bands * gaGroup, false)) <==> bands * gaGroup != {}
    ensures (exists k :: 0 <= k < |r| && r[k] == Search(gqGlob, bands * gqGroup, true)) <==> bands * gqGroup != {}
  {
    var gaBands := bands * gaGroup;
    var gqBands := bands * gqGroup;
    var ga := Search(gaGlob, gaBands, false);
    var gq := Search(gqGlob, gqBands, true);
    assert gaBands != {} ==> !(gaBands <= gqGroup) by {
      if gaBands != {} {
        var b :| b in gaBands;
        assert b !in gqGroup;
      }
    }
    if gaBands != {} && gqBands != {} then
      assert [ga, gq][0] == ga && [ga, gq][1] == gq;
      [ga, gq]
    else if gaBands != {} then
      assert [ga][0] == ga;
      [ga]
    else if gqBands != {} then
      assert [gq][0] == gq;
      [gq]
    else []
  }

  /** The searches of `read` for a valid request: a GA search for the
      selected GA bands and a GQ search for the selected GQ bands, each made
      only when that selection is non-empty; only the GQ read sets the geo
      transform. */
  function Searches(reader: Reader, sensor: string, year: int, pattern: string): (r: seq<Search>)
    ensures |r| <= 2
    ensures forall k :: 0 <= k < |r| ==>
      r[k].bands != {} && r[k].bands <= reader.bands && (r[k].setsXform <==> r[k].bands <= GqBands)
    ensures (exists k :: 0 <= k < |r| && r[k] == Search(GaGlob(reader, sensor, year, pattern), reader.bands * GaBands, false))
        <==> reader.bands * GaBands != {}
    ensures (exists k :: 0 <= k < |r| && r[k] == Search(GqGlob(reader, sensor, year, pattern), reader.bands * GqBands, true))
        <==> reader.bands * GqBands != {}
  {
    BandGroups();
    SearchPair(reader.bands, GaBands, GqBands, GaGlob(reader, sensor, year, pattern), GqGlob(reader, sensor, year, pattern))
  }

  /** `read` up to the HDF reads: validation, then the searches. */
  function Read(reader: Reader, sensor: string, year: int, tile: string, day: Option<int>)
    : (r: Result<seq<Search>>)
    ensures r.Ok? <==> Validate(sensor, year, tile).Ok?
    ensures r.Err? ==> r.error == Validate(sensor, year, tile).error
    ensures r.Ok? ==> r.value == Searches(reader, sensor, year, Pattern(year, tile, day))
  {
    var _ :- Validate(sensor, year, tile);
    Ok(Searches(reader, sensor, year, Pattern(year, tile, day)))
  }

  /** `getBandName`: the second '-'-separated field of the file's base name
      without its extension; an IndexError when there is no second field. */
  function GetBandName(bandFile: string): (r: Result<string>)
    ensures var fields := Split(SplitextRoot(Basename(bandFile)), '-');
      && (r.Ok? <==> |fields| >= 2)
      && (r.Ok? ==> r.value == fields[1] && '-' !in r.value)
      && (r.Err? ==> r.error == IndexError)
  {
    var fields := Split(SplitextRoot(Basename(bandFile)), '-');
    if |fields| < 2 then Err(IndexError) else Ok(fields[1])
  }

  /** A band file named by its '-'-separated fields and an extension gives
      back its second field. */
  lemma BandNameOfFile(fields: seq<string>, ext: string)
    requires |fields| >= 2
    requires forall k :: 0 <= k < |fields| ==> '-' !in fields[k] && '/' !in fields[k] && '.' !in fields[k]
    requires |fields[0]| > 0
    requires '/' !in ext && '.' !in ext
    ensures GetBandName(JoinWith(fields, '-') + "." + ext) == Ok(fields[1])
  {
    var name := JoinWith(fields, '-');
    var file := name + "." + ext;
    NoCharInJoin(fields, '-', '/');
    NoCharInJoin(fields, '-', '.');
    assert '/' !in file;
    assert Basename(file) == file;
    var d := LastIndexOf(file, '.');
    assert file[|name|] == '.';
    assert d == |name|;
    assert name[0] == fields[0][0] by {
      if |fields| > 1 {
        assert name == fields[0] + ['-'] + JoinWith(fields[1..], '-');
      }
    }
    assert 0 < d && file[0] != '.';
    assert SplitextRoot(file) == name;
    SplitJoin(fields, '-');
  }

  /** A character that is neither the separator nor in any field is not in
      their join. */
  lemma {:induction false} NoCharInJoin(fields: seq<string>, sep: char, c: char)
    requires c != sep
    requires forall k :: 0 <= k < |fields| ==> c !in fields[k]
    ensures c !in JoinWith(fields, sep)
    decreases |fields|
  {
    if |fields| > 1 {
      NoCharInJoin(fields[1..], sep, c);
    }
  }
}
