/** The daily quality masks: a general mask (bad reflectance, high sun
    angle, high aerosol) and a land mask (cloud flags of the state band). */
module MaskGenerator {
  import opened Grids
  import opened Errors
  import BR = BandReader

  /** State-band flags: both aerosol bits, and the four cloud flags. */
  const AeroMask: bv16 := 192
  const Cloudy: bv16 := 1
  const CloudMixed: bv16 := 2
  const CloudShadow: bv16 := 4
  const CloudInt: bv16 := 1024

  const BadData: int := 0
  const GoodData: int := 1

  const ReflectanceFloor: int := -100
  const SolarZenithCeil: int := 6500

  const RequiredBands: set<string> :=
    {BR.Sr1, BR.Sr2, BR.Sr3, BR.Sr4, BR.Sr5, BR.Sr6, BR.Sr7, BR.Senz, BR.Solz, BR.State}

  /** The mask generator needs exactly the bands a reader can provide. */
  lemma RequiredAreAllBands()
    ensures RequiredBands == BR.AllBands
  {
  }

  /** The int16 state value as its sixteen bits, two's complement. */
  function StateWord(state: int): bv16
  {
    (state % 0x1_0000) as bv16
  }

  /** `state & flag == flag`. */
  predicate HasFlag(w: bv16, flag: bv16)
  {
    w & flag == flag
  }

  /** Bit `k` of the word. */
  predicate Bit(w: bv16, k: nat)
    requires k < 16
  {
    (w >> k) & 1 == 1
  }

  /** The aerosol test holds exactly when bits 6 and 7 are both set. */
  lemma AeroBits(w: bv16)
    ensures HasFlag(w, AeroMask) <==> Bit(w, 6) && Bit(w, 7)
  {
  }

  /** The cloud tests hold exactly when bit 0, 1, 2 or 10 is set. */
  lemma CloudBits(w: bv16)
    ensures (HasFlag(w, Cloudy) || HasFlag(w, CloudMixed) || HasFlag(w, CloudShadow) || HasFlag(w, CloudInt))
        <==> Bit(w, 0) || Bit(w, 1) || Bit(w, 2) || Bit(w, 10)
  {
  }

  /** `generateGeneralMask`, one pixel. */
  function GeneralPixel(sr1: int, sr2: int, solz: int, state: bv16): (m: int)
    ensures m == BadData || m == GoodData
    ensures m == BadData <==>
      sr1 < ReflectanceFloor || sr2 < ReflectanceFloor || solz > SolarZenithCeil || (Bit(state, 6) && Bit(state, 7))
  {
    AeroBits(state);
    if sr1 < ReflectanceFloor || sr2 < ReflectanceFloor || solz > SolarZenithCeil || HasFlag(state, AeroMask)
    then BadData
    else GoodData
  }

  /** `generateLandMask`, one pixel. */
  function LandPixel(state: bv16): (m: int)
    ensures m == BadData || m == GoodData
    ensures m == BadData <==> Bit(state, 0) || Bit(state, 1) || Bit(state, 2) || Bit(state, 10)
  {
    CloudBits(state);
    if HasFlag(state, Cloudy) || HasFlag(state, CloudMixed) || HasFlag(state, CloudShadow) || HasFlag(state, CloudInt)
    then BadData
    else GoodData
  }

  /** Only both aerosol bits together make a pixel bad; either one alone
      does not. */
  lemma AeroNeedsBothBits()
    ensures GeneralPixel(0, 0, 0, 64) == GoodData
    ensures GeneralPixel(0, 0, 0, 128) == GoodData
    ensures GeneralPixel(0, 0, 0, 192) == BadData
  {
  }

  /** The masks read no other state bits: two words that agree on the
      bits the masks read give the same masks. */
  lemma MasksIgnoreOtherBits(a: bv16, b: bv16, sr1: int, sr2: int, solz: int)
    ensures a & 0x00C0 == b & 0x00C0 ==> GeneralPixel(sr1, sr2, solz, a) == GeneralPixel(sr1, sr2, solz, b)
    ensures a & 0x0407 == b & 0x0407 ==> LandPixel(a) == LandPixel(b)
  {
  }

  /** A mask generator holds the bands it was given. */
  datatype Generator = Generator(bands: map<string, Grid>)

  /** `__init__`: an empty dictionary, then any missing required band, is a
      RuntimeError. */
  function New(bandDict: map<string, Grid>): (r: Result<Generator>)
    ensures r.Ok? <==> RequiredBands <= bandDict.Keys
    ensures r.Ok? ==> r.value.bands == bandDict
    ensures |bandDict| == 0 ==> r == Err(RuntimeError(EmptyBandDict))
    ensures |bandDict| > 0 && !(RequiredBands <= bandDict.Keys) ==>
      r == Err(RuntimeError(MissingBands(RequiredBands - bandDict.Keys)))
  {
    if |bandDict| == 0 then
      assert BR.State !in bandDict;
      Err(RuntimeError(EmptyBandDict))
    else
      var missing := RequiredBands - bandDict.Keys;
      if missing != {} then Err(RuntimeError(MissingBands(missing)))
      else Ok(Generator(bandDict))
  }

  predicate Valid(g: Generator)
  {
    RequiredBands <= g.bands.Keys
  }

  /** The bands the masks read all have the state band's shape. */
  predicate ShapesAgree(g: Generator)
    requires Valid(g)
  {
    var state := g.bands[BR.State];
    SameShape(state, g.bands[BR.Sr1]) && SameShape(state, g.bands[BR.Sr2]) && SameShape(state, g.bands[BR.Solz])
  }

  /** `generateGeneralMask`: 0 where the pixel is bad, 1 elsewhere. */
  function GeneralMask(g: Generator): (r: Grid)
    requires Valid(g) && ShapesAgree(g)
    ensures SameShape(g.bands[BR.State], r)
    ensures forall i, j :: InBounds(g.bands[BR.State], i, j) ==>
      r[i][j] == GeneralPixel(g.bands[BR.Sr1][i][j], g.bands[BR.Sr2][i][j], g.bands[BR.Solz][i][j],
                              StateWord(g.bands[BR.State][i][j]))
  {
    var state := g.bands[BR.State];
    var sr1 := g.bands[BR.Sr1];
    var sr2 := g.bands[BR.Sr2];
    var solz := g.bands[BR.Solz];
    seq(|state|, i requires 0 <= i < |state| =>
      seq(|state[i]|, j requires 0 <= j < |state[i]| =>
        GeneralPixel(sr1[i][j], sr2[i][j], solz[i][j], StateWord(state[i][j]))))
  }

  /** `generateLandMask`: 0 where a cloud flag is set, 1 elsewhere. */
  function LandMask(g: Generator): (r: Grid)
    requires Valid(g)
    ensures SameShape(g.bands[BR.State], r)
    ensures forall i, j :: InBounds(g.bands[BR.State], i, j) ==>
      r[i][j] == LandPixel(StateWord(g.bands[BR.State][i][j]))
  {
    Map(g.bands[BR.State], s => LandPixel(StateWord(s)))
  }
}
