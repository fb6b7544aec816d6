# MODIS water (MOD44W) — a Dafny model of the classification core

This project models the pixel logic of the MOD44W surface-water pipeline, as
implemented in the `model/` package of the repository. Every rule is a pure
function on small integers, lifted pixel by pixel over rasters held as
`seq<seq<int>>` (module `Grids`). The modelled stages are:

- the daily quality masks (`MaskGenerator`), the threshold decision tree and
  the bad-data test (`SimpleClassifier`), and the classifier's argument checks
  and final masking (`Classifier`, `BandReader`);
- the annual accumulation of the daily maps into water, land and bad-data
  counters, a water percentage and a majority mask (`AnnualMap`);
- the QA pass, where a burn-scar rule and a slope rule produce a corrected
  annual product and a QA band (`QAMap`);
- the seven-class map, its shoreline, and the global seven-class corrections:
  shoreline revert and add, the 8-bit corrective mask, and the simultaneous
  4-neighbour rule "inland water next to ocean becomes 0"
  (`SevenClassMap`, `GlobalSevenClassMap`);
- the packed 16-bit post-processing word and its Antarctic default ancillary
  raster (`PostProcessingMap`);
- the impervious-surface mask (`ImperviousMap`) and the annual burn-scar
  mask (`BurnScarMap`);
- the file-name and glob builders and the tile, sensor and year checks
  (`Utils`, `Products`, `Paths`, `Tiles`, `Text`).

Reads, writes, globbing and existence checks are not modelled as effects.
The rasters read and the file listings found come in as parameters (maps from
path to `Result`, lists of matches, existence predicates). Errors the source
raises (`RuntimeError`, `FileNotFoundError`, `ValueError`, `TypeError`,
`IndexError`, `ZeroDivisionError`) are values of `Errors.Error`, returned in a
`Result`.

`generateQA` applies two rules, burn scar then slope. The post-processing
module only encodes the packed word; nothing in the code decodes it, so the
model states what each layer's bit range holds instead.

## Model

| member | source | states |
|---|---|---|
| SevenClassMap.SevenClassPixel | model/SevenClass.py:43-82 | a no-water pixel becomes land; a water pixel keeps a deep-inland or ocean class of the static map and is inland water otherwise; any other annual value leaves the initial 0 |
| SevenClassMap.SevenClassValues | model/SevenClass.py:48-82 | before the shoreline only classes 0, 1, 3, 5, 6 and 7 occur, and land occurs exactly where the annual product has no water |
| SevenClassMap.ShorelineBinary | model/SevenClass.py:141-143 | the boundary detector sees a pixel as foreground exactly when its value is 1 or above 100 |
| SevenClassMap.ShorelinePixel | model/SevenClass.py:132-134 | a pixel is shoreline exactly when it lies on either boundary and is land |
| SevenClassMap.GenerateShoreline | model/SevenClass.py:126-135 | the shoreline raster has the seven-class shape and is 1 exactly on the land pixels that lie on the boundary of the inland-water layer or of the shallow-ocean layer, 0 elsewhere |
| SevenClassMap.AddShoreline | model/SevenClass.py:86-87 | class 2 is written exactly where the shoreline raster is 1; every other pixel keeps its class |
| SevenClassMap.GenerateSevenClass | model/SevenClass.py:43-87 | each output pixel is its mapped class, or shoreline where that class was land; shoreline appears exactly on the mapped land pixels on either boundary |
| SevenClassMap.ShorelineOnlyRelabelsLand | model/SevenClass.py:81-87 | the shoreline step changes only land pixels, only into shoreline, and the map holds only the seven classes |
| SevenClassMap.StaticSevenClassPath | model/SevenClass.py:110-120 | the static map's path is `<dir>/Master_7class_maxextent_<tile>.tif` when it exists, and a FileNotFoundError naming that path otherwise |
| GlobalSevenClassMap.RevertShoreline | model/GlobalSevenClass.py:415-430 | no shoreline is left; shoreline pixels become land and all other pixels are unchanged |
| GlobalSevenClassMap.RevertIdempotent | model/GlobalSevenClass.py:415-430 | reverting the shoreline a second time changes nothing |
| GlobalSevenClassMap.ExtractValue | model/GlobalSevenClass.py:850-868 | the 0/1 layer is 1 exactly where the class equals the requested value |
| GlobalSevenClassMap.OceanLayer | model/GlobalSevenClass.py:816-828 | the ocean layer is 1 exactly on the classes 0, 6 and 7 |
| GlobalSevenClassMap.PostProcessShoreline | model/GlobalSevenClass.py:901-928 | a pixel is shoreline exactly when it is on the inland or the ocean boundary and is land |
| GlobalSevenClassMap.AddShorelineToSevenClass | model/GlobalSevenClass.py:934-954 | the given value is written exactly where the shoreline is 1; every other pixel is kept |
| GlobalSevenClassMap.GenerateSevenClassShoreline | model/GlobalSevenClass.py:803-844 | a pixel changes exactly when it is land on the boundary of the inland-water layer or of the ocean layer, and then it becomes shoreline; every other pixel is kept |
| GlobalSevenClassMap.ShorelineRoundTrip | model/GlobalSevenClass.py:415-430 | on a mosaic without shoreline, adding the shoreline and then reverting it gives back the mosaic |
| GlobalSevenClassMap.ToUint8 | model/GlobalSevenClass.py:647-663 | the uint8 cast gives a value in 0..255, and values already in that range are kept |
| GlobalSevenClassMap.MaskFields | model/GlobalSevenClass.py:666-703 | the corrective mask's fields are the mask value mod 16 (ocean fill), bits 4-6 (corrective class) and bit 7 (Siberian box) |
| GlobalSevenClassMap.CorrectPixelPriority | model/GlobalSevenClass.py:666-723 | later passes win: the Siberian flip of an original 0 to inland water, then a non-zero corrective class, then the ocean fill of a no-data (250) pixel; otherwise the pixel is kept |
| GlobalSevenClassMap.ReplaceAdjacentThrees | model/GlobalSevenClass.py:1028-1048 | one pass keeps the shape and changes a pixel exactly when it is inland water with an ocean (0, 6 or 7) 4-neighbour in the input, and then to 0; all other pixels are unchanged |
| GlobalSevenClassMap.ReplaceAdjacentThreesShifted | model/GlobalSevenClass.py:1028-1048 | the four shifted ocean masks ORed together give exactly the simultaneous 4-neighbour rule: inland water next to ocean becomes 0 |
| GlobalSevenClassMap.IterateReplace | model/GlobalSevenClass.py:726-730 | any number of passes keeps the mosaic's shape |
| GlobalSevenClassMap.IterateOnlyClearsThrees | model/GlobalSevenClass.py:726-730 | any number of passes changes only inland-water pixels, and only into 0 |
| GlobalSevenClassMap.IterateFixedPoint | model/GlobalSevenClass.py:1028-1048 | a mosaic with no inland water next to ocean is left unchanged by any number of passes |
| GlobalSevenClassMap.FirstPassClears | model/GlobalSevenClass.py:726-730 | an inland-water pixel next to ocean is 0 after any positive number of passes |
| GlobalSevenClassMap.StripStep | model/GlobalSevenClass.py:1028-1048 | on a one-row strip of inland water starting at the ocean, one pass clears exactly the next inland-water pixel and no other |
| GlobalSevenClassMap.IterateStrip | model/GlobalSevenClass.py:726-730 | along a strip of inland water running from the ocean, each pass clears exactly one more pixel |
| GlobalSevenClassMap.TenPassesReachTenPixels | model/GlobalSevenClass.py:726-730 | with nothing for the corrective mask to do, the pixels 1 to 10 steps inland of the ocean are cleared and every pixel further in stays inland water: the loop runs exactly ten times |
| GlobalSevenClassMap.ApplyCorrectingMask | model/GlobalSevenClass.py:629-733 | after the corrective passes and the ten stencil passes each pixel is its corrected value or a corrected inland-water pixel turned 0, and every corrected inland-water pixel with an ocean neighbour is 0 |
| GlobalSevenClassMap.ValidateNumberOfNoShorelineProducts | model/GlobalSevenClass.py:487-507 | fewer than 318 products is a RuntimeError carrying the count; otherwise the result is true |
| GlobalSevenClassMap.DropThirdField | model/GlobalSevenClass.py:521-522 | the result is every field except the third, in order |
| GlobalSevenClassMap.NameWithoutTileFields | model/GlobalSevenClass.py:521-524 | the name rejoined without the tile splits back into exactly the remaining fields |
| GlobalSevenClassMap.OutputGlobalNameShape | model/GlobalSevenClass.py:511-536 | the global path ends in `.tif`; a name without the `NoShoreline` tag is only stripped of its tile field |
| GlobalSevenClassMap.TaggedGlobalName | model/GlobalSevenClass.py:511-536 | for a sample name ending in the `NoShoreline` tag, that tag is replaced by `AnnualSevenClass.NoShoreline.global.sinu` or `.wgs84`, and the sinusoidal and WGS84 paths differ |
| ImperviousMap.Threshold | model/ImperviousMap.py:40-44 | a percentage is impervious (1) exactly when it lies in 75..100, and permeable (0) otherwise |
| ImperviousMap.NodataIsPermeable | model/ImperviousMap.py:18-20 | the nodata value 255 and every percentage below 75 are permeable |
| ImperviousMap.Dilate | model/ImperviousMap.py:55-64 | the dilation by the cross kernel keeps the raster's shape |
| ImperviousMap.FlippedNeighbours | model/ImperviousMap.py:45-47 | after flipping, a pixel has a set neighbour exactly when not all of its in-bounds 4-neighbours are impervious |
| ImperviousMap.BinaryMask | model/ImperviousMap.py:30-49 | threshold, flip, dilate, flip: the mask is 1 exactly where every in-bounds 4-neighbour is impervious, and 0 elsewhere |
| ImperviousMap.ErosionIgnoresCentre | model/ImperviousMap.py:60-62 | the kernel's centre is 0: a permeable pixel ringed by impervious ones comes out impervious, and an impervious pixel beside a permeable one comes out permeable |
| ImperviousMap.PercentageArray | model/ImperviousMap.py:70-93 | a missing raster on an exclusion tile becomes a 4800 x 4800 raster of zeros; any other failure is re-raised and a read raster is passed through |
| ImperviousMap.ExclusionFallbackMaskIsZero | model/ImperviousMap.py:86-90 | on an exclusion tile without a raster the binary mask is 0 everywhere |
| Tiles.VerticalPart | model/ImperviousMap.py:77 | `tile[3:]` is the tile name without its first three characters, and empty for shorter names |
| Tiles.WithExclusionDefault | model/ImperviousMap.py:78-92 | a FileNotFoundError becomes the fallback on an exclusion tile and is re-raised elsewhere; every other outcome passes through |
| Tiles.TilePrefixExamples | model/BandReader.py:211 | the tile pattern accepts `h09v05` and names that start with it, and rejects an upper-case `H` or a one-digit field |
| Utils.ExclusionsMirrorInclusions | model/Utils.py:15-23 | the four southern exclusion rows v17..v14 carry the day ranges of the northern rows v00..v03, each range ordered |
| Utils.ImageNameIsJoin | model/Utils.py:29-43 | the image name is its fields joined by '-', the day appearing only when truthy and the post-fix only when truthy |
| Utils.ImageNameSplits | model/Utils.py:29-43 | with '-'-free parts and non-negative numbers, splitting the name on '-' gives back exactly its fields |
| Utils.DayFieldIsThreeDigits | model/Utils.py:33-34 | a day in 1..999 becomes a three-digit field that reads back as the day |
| Products.ProductNameIsJoin | model/QAMap.py:59-63 | the product name `MOD.A<year>.<tile>.<classifier>.<product>.<postStr>` is its six fields joined by dots |
| Products.ProductNameSplits | model/SevenClass.py:90-94 | with dot-free tile, classifier, product and post-fix, splitting the product name on dots gives back its six fields |
| BandReader.BandGroups | model/BandReader.py:37-39 | the GA and GQ products share no band and together hold the ten bands |
| BandReader.SelectBands | model/BandReader.py:67-74 | with no bands given every band is read; otherwise exactly the given bands that exist, the others dropped |
| BandReader.SelectBandsIdempotent | model/BandReader.py:73-74 | selecting from a selection changes nothing |
| BandReader.NewReader | model/BandReader.py:49-74 | a reader is made exactly when the base directory is non-empty, exists and is a directory, else a RuntimeError naming it |
| BandReader.Validate | model/BandReader.py:203-221 | the request is accepted exactly for a known sensor, an absent or `h##v##`-prefixed tile and a year from 1999; the first failing test picks the RuntimeError |
| BandReader.PatternFields | model/BandReader.py:116-125 | the glob starts with the year, ends with `.<tile>*.hdf`, and holds `*` or the day as three digits that read back as the day |
| BandReader.SearchPair | model/BandReader.py:128-150 | one search per band group the selection meets, carrying exactly the selected bands of that group; only the second group's search sets the geo transform |
| BandReader.Searches | model/BandReader.py:128-150 | a GA search exactly when GA bands are selected and a GQ search exactly when GQ bands are, each with its glob under `<sensor>09GA` or `<sensor>09GQ`; only the GQ read sets the geo transform |
| BandReader.Read | model/BandReader.py:111-152 | a failed validation is returned unchanged; otherwise the read makes the searches for its glob pattern |
| BandReader.GetBandName | model/BandReader.py:84-89 | the band is the second '-'-field of the base name without extension, and an IndexError when there is none |
| BandReader.BandNameOfFile | model/BandReader.py:84-89 | a file named by '-'-joined fields and an extension gives back its second field |
| MaskGenerator.RequiredAreAllBands | model/MaskGenerator.py:21-22 | the mask generator requires exactly the ten bands a reader provides |
| MaskGenerator.AeroBits | model/MaskGenerator.py:53-54 | the aerosol test holds exactly when state bits 6 and 7 are both set |
| MaskGenerator.CloudBits | model/MaskGenerator.py:70-77 | the cloud tests hold exactly when state bit 0, 1, 2 or 10 is set |
| MaskGenerator.GeneralPixel | model/MaskGenerator.py:49-56 | a pixel is bad (0) exactly when band 1 or 2 is below -100, the solar zenith exceeds 6500, or both aerosol bits are set; good (1) otherwise |
| MaskGenerator.LandPixel | model/MaskGenerator.py:69-79 | a pixel is bad (0) exactly when one of the four cloud flags is set; good (1) otherwise |
| MaskGenerator.AeroNeedsBothBits | model/MaskGenerator.py:12 | either aerosol bit alone leaves a pixel good; both together make it bad |
| MaskGenerator.MasksIgnoreOtherBits | model/MaskGenerator.py:49-79 | the masks depend only on state bits 6-7 (general) and 0, 1, 2, 10 (land) |
| MaskGenerator.New | model/MaskGenerator.py:30-41 | an empty dictionary, then any missing required band, is a RuntimeError naming the missing set; otherwise the generator keeps the bands |
| MaskGenerator.GeneralMask | model/MaskGenerator.py:46-61 | the general mask has the state band's shape and is the pixel rule at every pixel of the int16 state word |
| MaskGenerator.LandMask | model/MaskGenerator.py:66-84 | the land mask has the state band's shape and is the cloud rule at every pixel |
| SimpleClassifier.WaterChange | model/SimpleClassifier.py:207-249 | the tree answers 0, 1 or 3, never 2; a ZeroDivisionError is raised exactly when the ndvi branch is taken (band 5 at least 1017) and the int16 sum of red and near-infrared is 0 |
| SimpleClassifier.WaterChangeRegions | model/SimpleClassifier.py:207-249 | each answer comes out exactly on its own region of the reflectance space, and the green and 1.6 um bands never change the answer |
| SimpleClassifier.NdviExactOnValidReflectance | model/SimpleClassifier.py:223 | on valid reflectances (-100 to 16000) the int16 sum does not wrap and the ndvi is the exact quotient |
| SimpleClassifier.WrappedSumChangesAnswer | model/SimpleClassifier.py:223 | beyond that range the int16 sum wraps: red 32000 and near-infrared 1500 are answered land although their exact ndvi would give water |
| SimpleClassifier.DetectWater | model/SimpleClassifier.py:182-200 | answer 0 is unclassified and 3 is water; answer 1 is land exactly when neither the internal-cloud nor the cloud-shadow bit is set, and water otherwise |
| SimpleClassifier.ShiftedFlags | model/SimpleClassifier.py:65-67 | the masked-and-shifted tests read state bit 9, bit 2, and bits 5 and 6 together |
| SimpleClassifier.SunAngleNeverBad | model/SimpleClassifier.py:120-137 | on an int16 solar zenith the test `solz / 1000 >= 65` never fires: the as-written bad-data test does not depend on the sun angle, and 70 degrees passes |
| SimpleClassifier.BadPixelSunAngle | model/SimpleClassifier.py:134-137 | with the band's hundredths of a degree the test marks a pixel bad exactly from 65 degrees, as the general mask does except at exactly 65 degrees |
| SimpleClassifier.ClassifyPixel | model/SimpleClassifier.py:133-165 | as written: a pixel is 0 exactly when the divided-by-1000 test fires, which on an int16 zenith means only the reflectance and aerosol tests; any other pixel gets the answer of `detectWater`, which fails exactly on its zero-division case |
| SimpleClassifier.ClassifyPixelIntended | model/SimpleClassifier.py:134-137 | corrected: a pixel is 0 exactly when band 1 or 2 is below -100, the sun is 65 degrees or more from the zenith, or both aerosol bits are set; such a high-sun pixel is one the as-written test lets through |
| Classifier.Int16 | model/Classifier.py:235 | the int16 cast gives a value in -32768..32767, congruent to its input mod 65536, and keeps values already in range |
| Classifier.RequestedBands | model/Classifier.py:105-106 | the reader is asked for the given bands (every band when none are given) plus every band the mask generator needs |
| Classifier.Days | model/Classifier.py:115 | the days are exactly `startDay..endDay`, in increasing order, one each |
| Classifier.OrDefault | model/Classifier.py:122-123 | a given non-zero value is kept; None or 0 takes the default |
| Classifier.ValidateArgs | model/Classifier.py:56-97 | the arguments pass exactly when the output directory exists and is a directory, the sensors are known, the tile is absent or `h##v##`-prefixed and the year is from 1999; each failure, in that order, is a RuntimeError naming the directory, the unknown sensors, the tile or the year |
| Classifier.ReaderFromSwappedArguments | model/Classifier.py:107 | handing the band set to the reader's base-directory parameter raises TypeError whenever the set is non-empty |
| Classifier.NewAsWritten | model/Classifier.py:37-123 | an argument error is returned as is; arguments that pass it end in TypeError at the reader construction |
| Classifier.AsWrittenNeverConstructs | model/Classifier.py:105-107 | as written, no argument list, the defaults included, yields a classifier |
| Classifier.Finish | model/Classifier.py:112-123 | a start day after the end day is a ValueError; otherwise the days are `startDay..endDay` in order, and a None or 0 no-data or bad-data value becomes -9999 or -999 while a non-zero one is kept |
| Classifier.New | model/Classifier.py:37-123 | with the reader's arguments in order, construction succeeds exactly when the arguments, the input directory and the day range are valid, each failure with its exception; the reader gets every needed band and the directory, and the days and defaults are as in `Finish` |
| Classifier.DefaultsCoverTheYear | model/Classifier.py:42-51 | the default arguments give the 365 days of the year, every band, and the -9999 / -999 defaults |
| Classifier.FinalPixel | model/Classifier.py:232-242 | a pixel the general mask rejects is -999; a land prediction under a bad land mask takes the bad-data value; every other pixel keeps its prediction, each cast to int16 |
| Classifier.LandMaskOnlyTouchesLand | model/Classifier.py:237-242 | a water prediction on good data survives, and the land mask changes a pixel only where the general mask is good and the prediction is land |
| Classifier.MaskPredictions | model/Classifier.py:182-242 | building the masks fails exactly when a required band is missing, with the generator's error; otherwise each pixel is the final-pixel rule of the two masks and the prediction |
| PostProcessingMap.PositionalBit | model/PostProcessingGenerator.py:219-224 | a binary layer contributes its bit exactly where the layer is 1, and nothing elsewhere |
| PostProcessingMap.DemSlopeBit | model/PostProcessingGenerator.py:202-214 | the slope bit is set exactly where the slope exceeds 5 on static land that the ancillary map calls water |
| PostProcessingMap.AddTableIsMatch | model/PostProcessingGenerator.py:236-240 | the loop over a value-to-mask dictionary ORs into the word exactly the masks of the entries whose key is the pixel's value |
| PostProcessingMap.MatchBitsLookup | model/PostProcessingGenerator.py:236-240 | with distinct keys, the matching masks are the one entry's mask, or nothing when no key matches |
| PostProcessingMap.AncillaryBits | model/PostProcessingGenerator.py:41-57 | the ancillary bit of each value lies within bits 3-6 |
| PostProcessingMap.SevenClassBits | model/PostProcessingGenerator.py:60-90 | the seven-class bit of each value lies within bits 7-14 |
| PostProcessingMap.AncillaryTableDistinct | model/PostProcessingGenerator.py:52-57 | the ancillary dictionary's keys are pairwise distinct |
| PostProcessingMap.AncillaryTableMatches | model/PostProcessingGenerator.py:52-57 | the ancillary dictionary maps land 0, water 1, ocean 2 and nodata 10 to bits 3, 4, 5 and 6, and the fill value 9 to nothing |
| PostProcessingMap.SevenClassTableDistinct | model/PostProcessingGenerator.py:80-90 | the seven-class dictionary's keys are pairwise distinct |
| PostProcessingMap.SevenClassTableMatches | model/PostProcessingGenerator.py:80-90 | the seven-class dictionary maps class v in 0..7 to bit 7 + v, nodata 253 to all eight bits, and any other value to nothing |
| PostProcessingMap.SevenClassEntry | model/PostProcessingGenerator.py:80-89 | entry v of the seven-class dictionary, for v in 0..7, holds class v and the single bit 7 + v |
| PostProcessingMap.AddAncillary | model/PostProcessingGenerator.py:229-242 | the ancillary pass ORs exactly the pixel's ancillary bit into the word |
| PostProcessingMap.AddSevenClass | model/PostProcessingGenerator.py:247-257 | the seven-class pass ORs exactly the pixel's seven-class bits into the word |
| PostProcessingMap.AddOutOfProjection | model/PostProcessingGenerator.py:262-272 | the top bit is ORed in exactly where the seven-class value is 250 |
| PostProcessingMap.PixelLayers | model/PostProcessingGenerator.py:149-194 | each of the six layers is non-zero exactly under its own rule, and lies within its own bit range |
| PostProcessingMap.PackPixel | model/PostProcessingGenerator.py:140-194 | the packed word is the six layers ORed together |
| PostProcessingMap.LayersDisjoint | model/PostProcessingGenerator.py:32-93 | the layers occupy disjoint bit ranges: the word fits 16 bits and masking each range gives back that layer |
| PostProcessingMap.PackPixelReadBack | model/PostProcessingGenerator.py:140-197 | every layer of a pixel can be read back from its bits of the packed word, which fits the unsigned 16-bit band |
| PostProcessingMap.SevenClassNodataCoversAll | model/PostProcessingGenerator.py:60-94 | the nodata mask 32640 is the eight class bits together, and the out-of-projection value 250 sets none of them |
| PostProcessingMap.AntarcticAncillary | model/PostProcessingGenerator.py:352-373 | the default ancillary value is ocean (2) over the three ocean classes, nodata (10) over seven-class nodata, and fill (9) elsewhere |
| PostProcessingMap.AntarcticAncillaryBits | model/PostProcessingGenerator.py:352-373 | the default ancillary raster packs the ocean bit over ocean, the nodata bit over seven-class nodata and no bit elsewhere |
| PostProcessingMap.AntarcticAncillaryMask | model/PostProcessingGenerator.py:352-373 | the default raster has the seven-class shape (4800 x 4800 on a tile), holds only 2, 10 and 9, is 2 exactly over the ocean classes and 10 exactly over seven-class nodata |
| PostProcessingMap.GetGmtedArray | model/PostProcessingGenerator.py:277-293 | a read raster passes through; a missing one becomes 4800 x 4800 zeros exactly on an exclusion tile, and is re-raised elsewhere |
| PostProcessingMap.GetAncillaryArray | model/PostProcessingGenerator.py:298-314 | a read raster passes through; a missing one becomes the Antarctic default exactly on an exclusion tile, and is re-raised elsewhere |
| PostProcessingMap.PackRasters | model/PostProcessingGenerator.py:128-194 | the packed raster has the seven-class shape and is the pixel packing at every pixel |
| PostProcessingMap.PackRastersReadBack | model/PostProcessingGenerator.py:128-197 | every pixel of the packed raster reads back that pixel's layers |
| AnnualMap.DayNamesDistinct | model/AnnualMap.py:64-67 | two days of the year read two different daily image names, so no daily image is counted twice |
| AnnualMap.YearImages | model/AnnualMap.py:29-41 | the year is read as 365 images, element k being the image of day k + 1 when it exists |
| AnnualMap.Series | model/AnnualMap.py:29-41 | the first n entries of a pixel's series are that pixel in the first n daily images |
| AnnualMap.AtMostOneCounter | model/AnnualMap.py:74-76 | a pixel of one day increments at most one counter, and none when the image is missing or the value is not 1, 0 or -999 |
| AnnualMap.CountIsDaysWith | model/AnnualMap.py:29-41 | the running count of a value is the number of days whose image holds it |
| AnnualMap.CountsBounded | model/AnnualMap.py:43 | water, land and bad-data days together number at most the days looked at |
| AnnualMap.SeriesStep | model/AnnualMap.py:74-76 | adding the next day raises a count by exactly that day's hit |
| AnnualMap.AddDay | model/AnnualMap.py:60-83 | one day adds 1 to a counter exactly where that day's image holds the counted value, and nothing when the image is missing |
| AnnualMap.AccumulateDays | model/AnnualMap.py:22-41 | the three counters have the 4800 x 4800 tile shape, and each pixel counts the days whose image held water, land or bad data there |
| AnnualMap.ProbWater | model/AnnualMap.py:45-48 | the water percentage is 0 without water or land days, lies in 0..100, and is the whole part of 100 * water / (water + land) |
| AnnualMap.MajorityMask | model/AnnualMap.py:50-52 | the mask is water exactly when some day was water or land and water days are at least as many as land days; land otherwise |
| AnnualMap.AccumulateYear | model/AnnualMap.py:22-54 | per pixel: the water and land counts; observations = water + land + bad days, at most 365; the percentage as above; the mask water exactly on a water majority |
| AnnualMap.TotalNamesDistinct | model/AnnualMap.py:118-128 | two different post-fixes give two different annual names, and an annual name has five fields and no day |
| AnnualMap.TotalNamesValid | model/AnnualMap.py:99-112 | the five post-fixes `SumWater`, `SumLand`, `SumObs`, `ProbWater`, `Mask` are distinct, non-empty and '-'-free, so the five writes never overwrite each other |
| BurnScarMap.GetAllFiles | model/BurnScarMap.py:66-83 | a missing `<path>/<year>` is a RuntimeError naming it; otherwise the result is the first match of each listed sub-directory, and a RuntimeError exactly when one of them has none |
| BurnScarMap.FirstMatches | model/BurnScarMap.py:76-81 | the first match of every directory, in order, and a RuntimeError exactly when some directory has no match |
| BurnScarMap.Binarise | model/BurnScarMap.py:58 | a layer is 1 exactly where the burn date is positive and 0 elsewhere |
| BurnScarMap.BinariseIdempotent | model/BurnScarMap.py:58 | binarising a binary layer changes nothing |
| BurnScarMap.SumPositiveIffSome | model/BurnScarMap.py:91-94 | a sum of non-negative layers is positive exactly where one of them is |
| BurnScarMap.SumAtBounded | model/BurnScarMap.py:91-94 | the sum of binarised layers at a pixel lies between 0 and the number of layers |
| BurnScarMap.AddLayers | model/BurnScarMap.py:91-93 | the running sum is the start raster plus every layer, pixel by pixel |
| BurnScarMap.LogicalOrMaskAsWritten | model/BurnScarMap.py:89-95 | an empty list is an IndexError; otherwise a pixel is 1 exactly when the uninitialised buffer plus the layers is positive there |
| BurnScarMap.StaleBufferDecides | model/BurnScarMap.py:90 | a leftover 1 in the buffer marks an unburned pixel as burned, and a leftover -5 hides a burned one |
| BurnScarMap.ZerosLike | model/BurnScarMap.py:90 | the corrected start raster is all zeros in the first layer's shape |
| BurnScarMap.LogicalOrMask | model/BurnScarMap.py:89-95 | an empty list is an IndexError; otherwise, for non-negative layers, a pixel is 1 exactly when some layer is positive there |
| BurnScarMap.AnnualMask | model/BurnScarMap.py:26-30 | corrected (sum started at zero): a pixel is 1 exactly when some month has a positive burn date there, and 0 exactly when none has |
| BurnScarMap.AnnualMaskAsWritten | model/BurnScarMap.py:26-30 | as written, through the uninitialised buffer: where the leftover value is 0 the mask is the corrected one, a positive leftover marks the pixel burned, and a leftover of minus the number of months or less hides every burn |
| BurnScarMap.BinarisedStack | model/BurnScarMap.py:28-29 | the binarised layers keep the stack's shape, are non-negative, and are positive exactly where the layer is |
| BurnScarMap.OutputPathFields | model/BurnScarMap.py:101-105 | the output file is `MOD.A<year>.<tile>.<classifier>.AnnualBurnScar.<postStr>.tif`, whose name splits back into its six fields |
| QAMap.QaCode | model/QAMap.py:46-54 | the QA code is 4 exactly on steep slope (above 5) over water, 6 exactly on a burn scar not so flagged, and 0 otherwise |
| QAMap.QaPixel | model/QAMap.py:45-56 | as written: the QA code as above, and the product is 0 on steep slope and the original annual value elsewhere, the burn scar ignored |
| QAMap.ProductIgnoresBurnScar | model/QAMap.py:49-56 | as written, the burn-scar raster has no effect on the corrected product |
| QAMap.BurnScarFlaggedButKept | model/QAMap.py:49-56 | a burnt water pixel on flat ground is flagged 6 in the QA band yet stays water in the product |
| QAMap.AsWrittenKeepsFlagged | model/QAMap.py:49-56 | as written, some pixel carries a non-zero QA code while its product value is not cleared |
| QAMap.QaPixelIntended | model/QAMap.py:49-56 | with both rules applied in turn, the product is 0 on a burn scar or steep slope and the annual value elsewhere; the QA code is unchanged |
| QAMap.IntendedClearsFlagged | model/QAMap.py:49-56 | with both rules applied in turn, every flagged pixel is cleared, the QA band is the as-written one, and pixels without a burn scar agree with the as-written product |
| QAMap.GenerateQaAsWritten | model/QAMap.py:45-56 | the as-written product and QA rasters have the annual raster's shape and follow the as-written pixel rule |
| QAMap.GenerateQa | model/QAMap.py:45-56 | corrected rule order: the product is 0 exactly on burn scars, steep slopes and land, and the annual value elsewhere; the QA band is the as-written QA code at every pixel, and every flagged pixel is cleared |
| QAMap.GetStaticDatasetPath | model/QAMap.py:82-91 | the first glob match, or a FileNotFoundError naming the searched path exactly when there is none |
| QAMap.OutputNamesDiffer | model/QAMap.py:59-63 | the QA output name and the product name always differ, so neither write overwrites the other |
| Paths.Join | model/QAMap.py:83-84 | `os.path.join`: an absolute second part wins; otherwise both parts are kept, in order, with at most one '/' inserted between them |
| Paths.Basename | model/BandReader.py:86 | `os.path.basename` is the whole path when it has no '/', and otherwise the longest '/'-free suffix, the one right after the last '/' |
| Text.IntToStr | model/Utils.py:31 | `str()` of an integer is its decimal digits, reading back as the value, with a leading '-' for a negative one |
| Text.ZFillNatKeepsValue | model/Utils.py:34 | `zfill` pads a number's digits with zeros up to the width and keeps the value they read as |
| Text.Split | model/BandReader.py:86-87 | `str.split` gives at least one field, none holding the separator, and joining them with it gives back the string |
| Text.SplitJoin | model/GlobalSevenClass.py:521-524 | splitting a join of separator-free fields gives back exactly those fields |
| Text.ReplaceAbsent | model/GlobalSevenClass.py:528-530 | `str.replace` leaves a string without the pattern unchanged |
| Text.ReplaceTail | model/GlobalSevenClass.py:528-530 | `str.replace` on a string that ends in a pattern occurring nowhere earlier rewrites just that ending |

## Left out

- Raster and HDF reads and writes, `glob`, `os.path.exists`/`isdir`, VRT building, `gdal.Warp` and temporary files are I/O. They are parameters: the rasters a path reads to, the matches a glob finds, the directories that exist.
- Logging and debug prints are left out. These include the message at model/MaskGenerator.py:92, which prints whether any band 1 value is below -100 under the label for band 2.
- skimage `find_boundaries` is a foreign library. It is a parameter `boundary: Grid -> Grid`, and its result is only assumed to be a raster.
- scipy `binary_dilation` appears only as the explicit rule it computes with the cross kernel: an OR over the in-bounds 4-neighbours.
- `apply_parallel` chunking, numba and tqdm only serve throughput. The model computes each pixel directly.
- `RandomForestClassifier`, `Classifier.computeNdvi`, `Classifier.run`, `_createOutputImage`, `_writeBands` and the abstract `getClassifierName`/`_runOneSensorOneDay` are left out. They involve a trained model, float features or file output.
- `SimpleClassifier.classify` is left out: its chunk loop, its directory discovery, and its ZeroDivisionError handler. The handler writes whatever `water` the last successful `detectWater` call of that `classify` call left, usually the pixel just before. If no call has succeeded yet, it raises UnboundLocalError instead. Only its per-pixel bad-data test and the tree are modelled, and `WaterChange` returns a ZeroDivisionError instead.
- `SimpleClassifierValidator`, `ImageStatistics` and the `view/` command-line front ends are left out.
- The ndvi of `_waterChange` is an exact rational. Python floats can fall on the other side of the 0.0825 and 0.4125 thresholds.
- AnnualMap.ProbWater: the percentage is the exact floor of 100 * water / (water + land). The source's float division and truncation can give one less when the exact value is whole (29 of 100 gives 28). The mask is unaffected: an exact 50 arises only when water equals land, where the float quotient is exact too.
- `Utils.getPostStr` reads the wall clock. The post-fix string is a parameter.
- `Utils.writeRaster` is I/O.
- `Utils.QA_ANTARCTIC_EXCLUSION` and `Utils.getStaticDatasetPath` are used but not defined in model/Utils.py. The exclusion set is a parameter of the operations that use it.
- The HDF subdataset pick in `BurnScarMap._getMatFromHDF` and in the global seven-class HDF extraction is left out. So are the `generateAnnualBurnScarMap` composite write and GlobalSevenClass's `_maskAntarcticTile`. Only the binarisation, the OR and the output names are modelled.
- The listing in `BurnScarMap._getAllFiles` is sorted by the source. The model receives it already sorted.
- Numpy's broadcasting of rasters of different shapes is left out. Operations that combine rasters require them to have one shape.
- AntarcticAncillaryMask: takes the seven-class raster's shape, where the source allocates a 4800 x 4800 raster and combines the seven-class raster with it. The two agree on tile-shaped rasters; other shapes, which numpy would broadcast or reject, are not modelled.
- The `astype(uint8)`/`astype(uint16)` casts are modelled only where values could fall outside the type. Elsewhere the values are proved to fit.
- NaN and the float contents of uninitialised buffers are left out. The `np.empty` buffer of `_logicalOrMask` is an arbitrary integer raster.

## Findings

| source | as written | input that shows it | evidently intended | confidence | as-written member | corrected member |
|---|---|---|---|---|---|---|
| model/QAMap.py:49-56 | the burn-scar rule writes 0 into `outArray`, then the slope rule rebuilds `outArray` from `annualProductArray`, so the burn write is lost | annual 1, slope 0, burn scar 1: QA is 6 but the product stays 1 | a burn-scar pixel is cleared in the product as well as flagged in QA | high, not executed | QAMap.AsWrittenKeepsFlagged | QAMap.IntendedClearsFlagged |
| model/BurnScarMap.py:89-95 | the sum starts from `np.empty`, whose contents are whatever memory held | buffer [[1]] with a single layer [[0]]: the mask says burned | the sum starts from zeros, so a pixel is burned exactly when some month is | high, not executed | BurnScarMap.StaleBufferDecides | BurnScarMap.LogicalOrMask |
| model/SimpleClassifier.py:134-137 | the solar zenith band, in hundredths of a degree on int16, is divided by 1000 before the test against 65 | solz 7000 (70 degrees): 7.0 < 65, the pixel is not marked bad | divide by 100, as the general mask's 6500 ceiling does | medium, not executed | SimpleClassifier.SunAngleNeverBad | SimpleClassifier.ClassifyPixelIntended |
| model/Classifier.py:107 | `BandReader(modDir, bands)` passes the directory as `bands` and the band set as `baseDir`, against `__init__(self, bands=None, baseDir=...)` at model/BandReader.py:49 | any valid arguments: `os.path.exists` on the band set raises TypeError | `BandReader(bands, modDir)` | high, not executed | Classifier.AsWrittenNeverConstructs | Classifier.New |
