/** The threshold classifier: a decision tree on the seven surface
    reflectances, the cloud flags that turn its land answers into water,
    and the bad-data test that runs before it. */
module SimpleClassifier {
  import opened Errors
  import MG = MaskGenerator
  import C = Classifier

  /** Output values. */
  const OutBad: int := 0
  const OutLand: int := 1
  const OutUnclassified: int := 2
  const OutWater: int := 3

  /** State-band flags: bits 5-6 (aerosol), bit 2 (cloud shadow) and bit 9
      (internal cloud). */
  const MaskAero: bv16 := 0x60
  const MaskCloudShadow: bv16 := 0x04
  const MaskIntCloud: bv16 := 0x200

  /** `float(nir - red) / float(nir + red)` on int16 reflectances: the sum
      and the difference are taken in int16 and wrap before the division. */
  function Ndvi(red: int, nir: int): real
    requires C.Int16(nir + red) != 0
  {
    C.Int16(nir - red) as real / C.Int16(nir + red) as real
  }

  /** Valid reflectances (-100 to 16000) never wrap, so there the ndvi is
      the exact quotient. */
  lemma NdviExactOnValidReflectance(red: int, nir: int)
    requires -100 <= red <= 16000 && -100 <= nir <= 16000 && nir + red != 0
    ensures C.Int16(nir + red) == nir + red
    ensures Ndvi(red, nir) == (nir - red) as real / (nir + red) as real
  {
  }

  /** Out of that range the int16 sum wraps and can change the answer: red
      32000 and near-infrared 1500 have an exact ndvi near -0.91, which
      would give water (3) for a dark blue band, but the wrapped sum
      -32036 makes it about 0.95 and the answer land (1). */
  lemma WrappedSumChangesAnswer()
    ensures C.Int16(1500 + 32000) == -32036
    ensures (1500 - 32000) as real / (1500 + 32000) as real < 0.0825
    ensures WaterChange(32000, 1500, 600, 0, 2000, 0, 0) == Ok(1)
  {
  }

  /** `_waterChange(red, nir, blue, green, swir5, swir6, swir7)`.  The ndvi
      is computed on every branch with `swir5 >= 1017`, before `nir` is
      looked at, so a zero `nir + red` there raises ZeroDivisionError. */
  function WaterChange(red: int, nir: int, blue: int, green: int, swir5: int, swir6: int, swir7: int)
    : (r: Result<int>)
    ensures r.Err? <==> swir5 >= 1017 && C.Int16(nir + red) == 0
    ensures r.Err? ==> r.error == ZeroDivision
    ensures r.Ok? ==> r.value == 0 || r.value == 1 || r.value == 3
  {
    if swir5 < 1017 then
      if swir7 < 773 then
        if swir5 >= 453 && blue < 675 && nir > 1000 then Ok(1) else Ok(3)
      else Ok(0)
    else if C.Int16(nir + red) == 0 then Err(ZeroDivision)
    else
      var ndvi := Ndvi(red, nir);
      if nir < 1777 then
        if ndvi < 0.0825 then
          if blue < 651 then Ok(3) else Ok(1)
        else if ndvi < 0.4125 then
          if nir >= 1329 && swir7 < 1950 then Ok(1) else Ok(0)
        else Ok(1)
      else Ok(1)
  }

  /** The regions of the tree, one per answer: where the result is 1, where
      it is 3 and where it is 0. */
  predicate AnswerOne(red: int, nir: int, blue: int, swir5: int, swir7: int)
  {
    || (swir5 < 1017 && swir7 < 773 && swir5 >= 453 && blue < 675 && nir > 1000)
    || (swir5 >= 1017 && C.Int16(nir + red) != 0 &&
        (|| nir >= 1777
         || (Ndvi(red, nir) < 0.0825 && blue >= 651)
         || (0.0825 <= Ndvi(red, nir) < 0.4125 && nir >= 1329 && swir7 < 1950)
         || Ndvi(red, nir) >= 0.4125))
  }

  predicate AnswerThree(red: int, nir: int, blue: int, swir5: int, swir7: int)
  {
    || (swir5 < 1017 && swir7 < 773 && !(swir5 >= 453 && blue < 675 && nir > 1000))
    || (swir5 >= 1017 && C.Int16(nir + red) != 0 && nir < 1777 && Ndvi(red, nir) < 0.0825 && blue < 651)
  }

  predicate AnswerZero(red: int, nir: int, blue: int, swir5: int, swir7: int)
  {
    || (swir5 < 1017 && swir7 >= 773)
    || (swir5 >= 1017 && C.Int16(nir + red) != 0 && nir < 1777 && 0.0825 <= Ndvi(red, nir) < 0.4125
        && !(nir >= 1329 && swir7 < 1950))
  }

  /** Each answer comes out exactly on its region; green and the 1.6 um
      band are never consulted. */
  lemma WaterChangeRegions(red: int, nir: int, blue: int, green: int, swir5: int, swir6: int, swir7: int)
    ensures var r := WaterChange(red, nir, blue, green, swir5, swir6, swir7);
      && (r == Ok(1) <==> AnswerOne(red, nir, blue, swir5, swir7))
      && (r == Ok(3) <==> AnswerThree(red, nir, blue, swir5, swir7))
      && (r == Ok(0) <==> AnswerZero(red, nir, blue, swir5, swir7))
    ensures forall g, s6 :: WaterChange(red, nir, blue, g, swir5, s6, swir7)
                         == WaterChange(red, nir, blue, green, swir5, swir6, swir7)
  {
  }

  /** `detectWater`: 0 is unclassified and 3 is water; 1 is land only when
      neither cloud flag is set, and water otherwise. */
  function DetectWater(sr1: int, sr2: int, sr3: int, sr4: int, sr5: int, sr6: int, sr7: int, state: bv16)
    : (r: Result<int>)
    ensures var wc := WaterChange(sr1, sr2, sr3, sr4, sr5, sr6, sr7);
      && (r.Err? <==> wc.Err?)
      && (r.Err? ==> r.error == ZeroDivision)
      && (r.Ok? ==>
            && (r.value == OutUnclassified <==> wc.value == 0)
            && (r.value == OutLand <==> wc.value == 1 && !MG.Bit(state, 9) && !MG.Bit(state, 2))
            && (r.value == OutWater <==> wc.value == 3 || (wc.value == 1 && (MG.Bit(state, 9) || MG.Bit(state, 2)))))
  {
    var wc :- WaterChange(sr1, sr2, sr3, sr4, sr5, sr6, sr7);
    ShiftedFlags(state);
    if wc == 0 then Ok(OutUnclassified)
    else if wc == 3 then Ok(OutWater)
    else if (state & MaskIntCloud) >> 9 == 0 && (state & MaskCloudShadow) >> 2 == 0 then Ok(OutLand)
    else Ok(OutWater)
  }

  /** The shifted flag tests read single bits, and the aerosol test reads
      bits 5 and 6. */
  lemma ShiftedFlags(w: bv16)
    ensures (w & MaskIntCloud) >> 9 == 0 <==> !MG.Bit(w, 9)
    ensures (w & MaskCloudShadow) >> 2 == 0 <==> !MG.Bit(w, 2)
    ensures (w & MaskAero) >> 5 == 3 <==> MG.Bit(w, 5) && MG.Bit(w, 6)
  {
  }

  /** The bad-data test of `classify` as written: the solar zenith is
      divided by 1000 before it is compared with 65 degrees. */
  predicate BadPixelAsWritten(sr1: int, sr2: int, solz: int, state: bv16)
  {
    sr1 < -100 || sr2 < -100 || solz as real / 1000.0 >= 65.0 || (state & MaskAero) >> 5 == 3
  }

  predicate IsInt16(x: int) { -0x8000 <= x < 0x8000 }

  /** On the int16 solar-zenith band the divided angle never reaches 65, so
      the sun-angle test never marks a pixel bad, even at 70 degrees. */
  lemma SunAngleNeverBad(sr1: int, sr2: int, solz: int, state: bv16)
    requires IsInt16(solz)
    ensures BadPixelAsWritten(sr1, sr2, solz, state) == BadPixelAsWritten(sr1, sr2, 0, state)
    ensures !BadPixelAsWritten(0, 0, 7000, 0)
  {
  }

  /** The bad-data test with the band's 0.01-degree scale: a sun more than
      65 degrees from the zenith makes the pixel bad. */
  predicate BadPixel(sr1: int, sr2: int, solz: int, state: bv16)
  {
    sr1 < -100 || sr2 < -100 || solz as real / 100.0 >= 65.0 || (state & MaskAero) >> 5 == 3
  }

  /** The scaled test reads the angle in hundredths of a degree, and agrees
      with the general mask's sun-angle rule except at exactly 65 degrees. */
  lemma BadPixelSunAngle(sr1: int, sr2: int, solz: int, state: bv16)
    ensures BadPixel(sr1, sr2, solz, state) <==>
      sr1 < -100 || sr2 < -100 || solz >= 6500 || (MG.Bit(state, 5) && MG.Bit(state, 6))
    ensures BadPixel(0, 0, 7000, 0)
    ensures solz != 6500 ==> (solz >= 6500 <==> solz > MG.SolarZenithCeil)
  {
    ShiftedFlags(state);
  }

  /** One pixel of `classify` as written: bad data by the divided-by-1000
      sun-angle test, or the answer of `detectWater`.  On an int16 solar
      zenith only the reflectance and aerosol tests can mark a pixel bad. */
  function ClassifyPixel(sr1: int, sr2: int, sr3: int, sr4: int, sr5: int, sr6: int, sr7: int,
                         solz: int, state: bv16): (r: Result<int>)
    ensures r.Ok? ==> r.value in {OutBad, OutLand, OutUnclassified, OutWater}
    ensures r == Ok(OutBad) <==> BadPixelAsWritten(sr1, sr2, solz, state)
    ensures IsInt16(solz) ==>
      (r == Ok(OutBad) <==> sr1 < -100 || sr2 < -100 || (MG.Bit(state, 5) && MG.Bit(state, 6)))
    ensures r.Err? <==> !BadPixelAsWritten(sr1, sr2, solz, state) && sr5 >= 1017 && C.Int16(sr1 + sr2) == 0
    ensures !BadPixelAsWritten(sr1, sr2, solz, state) ==> r == DetectWater(sr1, sr2, sr3, sr4, sr5, sr6, sr7, state)
  {
    ShiftedFlags(state);
    if BadPixelAsWritten(sr1, sr2, solz, state) then Ok(OutBad)
    else DetectWater(sr1, sr2, sr3, sr4, sr5, sr6, sr7, state)
  }

  /** One pixel of `classify` with the sun-angle test read in hundredths of
      a degree: a sun 65 degrees or more from the zenith makes the pixel
      bad, as it does (above 6500) in the general mask. */
  function ClassifyPixelIntended(sr1: int, sr2: int, sr3: int, sr4: int, sr5: int, sr6: int, sr7: int,
                                 solz: int, state: bv16): (r: Result<int>)
    ensures r.Ok? ==> r.value in {OutBad, OutLand, OutUnclassified, OutWater}
    ensures r == Ok(OutBad) <==>
      sr1 < -100 || sr2 < -100 || solz >= 6500 || (MG.Bit(state, 5) && MG.Bit(state, 6))
    ensures r.Err? <==> !BadPixel(sr1, sr2, solz, state) && sr5 >= 1017 && C.Int16(sr1 + sr2) == 0
    ensures !BadPixel(sr1, sr2, solz, state) ==> r == DetectWater(sr1, sr2, sr3, sr4, sr5, sr6, sr7, state)
    ensures IsInt16(solz) && solz >= 6500 && sr1 >= -100 && sr2 >= -100 && !(MG.Bit(state, 5) && MG.Bit(state, 6)) ==>
      r == Ok(OutBad) && ClassifyPixel(sr1, sr2, sr3, sr4, sr5, sr6, sr7, solz, state) != Ok(OutBad)
  {
    BadPixelSunAngle(sr1, sr2, solz, state);
    if BadPixel(sr1, sr2, solz, state) then Ok(OutBad)
    else DetectWater(sr1, sr2, sr3, sr4, sr5, sr6, sr7, state)
  }
}
