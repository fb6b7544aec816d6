/** The MOD44W post-processing packed bit mask: six per-pixel layers
    (impervious, permanent water, slope, ancillary class, seven-class,
    out-of-projection) ORed into one 16-bit word.

    numpy promotes `uint16 | int64` to int64, so the word is modelled as a
    `bv64`; the contracts show it always fits the 16-bit output band. */
module PostProcessingMap {
  import opened Grids
  import opened Errors
  import opened Tiles

  type Word = bv64

  // Binary layers.
  const ImperviousBitMask: Word := 1
  const PermanentBitMask: Word := 2
  const GmtedBitMask: Word := 4

  const DemSlopeCutoff: int := 5

  // Ancillary class layer: values and their one-hot masks.
  const AncLandValue: int := 0
  const AncWaterValue: int := 1
  const AncOceanValue: int := 2
  const AncFillValue: int := 9
  const AncNodataValue: int := 10

  /** The ancillary dictionary, in its insertion (iteration) order. */
  const AncillaryTable: seq<(int, Word)> := [(0, 8), (1, 16), (2, 32), (10, 64)]

  // Seven-class layer.
  const ScShallowValue: int := 0
  const ScLandValue: int := 1
  const ScModerateOceanValue: int := 6
  const ScDeepOceanValue: int := 7
  const ScNodataValue: int := 253
  const ScNodataBitMask: Word := 32640

  /** The seven-class dictionary, in its insertion (iteration) order. */
  const SevenClassTable: seq<(int, Word)> :=
    [(0, 128), (1, 256), (2, 512), (3, 1024), (4, 2048), (5, 4096), (6, 8192), (7, 16384),
     (253, 32640)]

  // Out-of-projection layer.
  const OopBitMask: Word := 32768
  const OopValue: int := 250

  /** The bits each layer may occupy. */
  const AncillaryBitsRange: Word := 0x78
  const SevenClassBitsRange: Word := 0x7F80

  /** `_generatePositionalBinaryArray`, one pixel: the mask where the layer
      is exactly 1, nothing otherwise. */
  function PositionalBit(v: int, bitMask: Word): (r: Word)
    ensures v == 1 ==> r == bitMask
    ensures v != 1 ==> r == 0
  {
    if v == 1 then bitMask else 0
  }

  /** `_generateDEMPositionalBinaryArray`, one pixel: the thresholded slope,
      cleared wherever the static seven-class is not land or the ancillary
      class is not water. */
  function DemSlopeBit(dem: int, sevenClass: int, ancillary: int): (r: int)
    ensures r == 0 || r == 1
    ensures r == 1 <==> dem > DemSlopeCutoff && sevenClass == ScLandValue && ancillary == AncWaterValue
  {
    var demBinary := if dem > DemSlopeCutoff then 1 else 0;
    var notWaterOverLand := sevenClass != ScLandValue || ancillary != AncWaterValue;
    var oceanFlip := demBinary == 1 && notWaterOverLand;
    if oceanFlip then 0 else demBinary
  }

  /** Bitwise OR of two words, named so that the table folds below stay
      free of bit-vector operators. */
  function Or(a: Word, b: Word): Word
  {
    a | b
  }

  /** The mask an entry contributes at a pixel: its mask where the pixel
      equals its key, nothing otherwise. */
  function EntryBits(v: int, entry: (int, Word)): Word
  {
    if v == entry.0 then entry.1 else 0
  }

  /** The loop over a value-to-mask dictionary: for each entry in turn, OR
      in the entry's mask where the pixel equals the entry's key. */
  function AddTable(v: int, table: seq<(int, Word)>, word: Word): Word
    decreases |table|
  {
    if |table| == 0 then word
    else AddTable(v, table[1..], Or(word, EntryBits(v, table[0])))
  }

  /** Reference: the OR of the masks of every entry whose key is `v`. */
  function MatchBits(v: int, table: seq<(int, Word)>): Word
    decreases |table|
  {
    if |table| == 0 then 0
    else Or(EntryBits(v, table[0]), MatchBits(v, table[1..]))
  }

  lemma OrAssociates(a: Word, b: Word, c: Word)
    ensures Or(Or(a, b), c) == Or(a, Or(b, c))
  {
  }

  lemma OrZero(a: Word)
    ensures Or(a, 0) == a
  {
  }

  /** Folding a table over a word ORs in exactly the matching masks. */
  lemma {:induction false} AddTableIsMatch(v: int, table: seq<(int, Word)>, word: Word)
    ensures AddTable(v, table, word) == Or(word, MatchBits(v, table))
    decreases |table|
  {
    if |table| > 0 {
      var positional := EntryBits(v, table[0]);
      AddTableIsMatch(v, table[1..], Or(word, positional));
      OrAssociates(word, positional, MatchBits(v, table[1..]));
    } else {
      OrZero(word);
    }
  }

  /** Reference: the ancillary bit of each class value; the fill value 9
      and every unlisted value set nothing. */
  function AncillaryBits(a: int): (r: Word)
    ensures r & AncillaryBitsRange == r
  {
    if a == AncLandValue then 8
    else if a == AncWaterValue then 16
    else if a == AncOceanValue then 32
    else if a == AncNodataValue then 64
    else 0
  }

  /** Reference: value v in 0..7 sets the single bit 7 + v; the nodata
      value 253 sets all eight; every other value (250 included) none. */
  function SevenClassBits(s: int): (r: Word)
    ensures r & SevenClassBitsRange == r
  {
    if 0 <= s <= 7 then (128 as Word) << (s as bv6)
    else if s == ScNodataValue then ScNodataBitMask
    else 0
  }

  /** The keys of a dictionary are pairwise distinct. */
  predicate DistinctKeys(table: seq<(int, Word)>)
  {
    forall k, l :: 0 <= k < l < |table| ==> table[k].0 != table[l].0
  }

  lemma ZeroOr(a: Word)
    ensures Or(0, a) == a
  {
  }

  /** With distinct keys, the matching masks are the one mask of the entry
      whose key is `v`, or nothing when no key is `v`. */
  lemma {:induction false} MatchBitsLookup(v: int, table: seq<(int, Word)>)
    requires DistinctKeys(table)
    ensures (forall k :: 0 <= k < |table| ==> table[k].0 != v) ==> MatchBits(v, table) == 0
    ensures forall k :: 0 <= k < |table| && table[k].0 == v ==> MatchBits(v, table) == table[k].1
    decreases |table|
  {
    if |table| > 0 {
      var rest := table[1..];
      assert DistinctKeys(rest) by {
        forall k, l | 0 <= k < l < |rest|
          ensures rest[k].0 != rest[l].0
        {
          assert rest[k] == table[k + 1] && rest[l] == table[l + 1];
        }
      }
      MatchBitsLookup(v, rest);
      if table[0].0 == v {
        assert forall k :: 0 <= k < |rest| ==> rest[k].0 != v by {
          forall k | 0 <= k < |rest|
            ensures rest[k].0 != v
          {
            assert rest[k] == table[k + 1];
          }
        }
        OrZero(table[0].1);
      } else {
        ZeroOr(MatchBits(v, rest));
        forall k | 0 <= k < |table| && table[k].0 == v
          ensures MatchBits(v, table) == table[k].1
        {
          assert rest[k - 1] == table[k];
        }
      }
    }
  }

  lemma AncillaryTableDistinct()
    ensures DistinctKeys(AncillaryTable)
  {
  }

  /** The ancillary dictionary agrees with the reference definition. */
  lemma AncillaryTableMatches(a: int)
    ensures MatchBits(a, AncillaryTable) == AncillaryBits(a)
  {
    var t := AncillaryTable;
    AncillaryTableDistinct();
    if a == 0 {
      MatchBitsLookup(a, t);
      assert t[0].0 == a;
    } else if a == 1 {
      MatchBitsLookup(a, t);
      assert t[1].0 == a;
    } else if a == 2 {
      MatchBitsLookup(a, t);
      assert t[2].0 == a;
    } else if a == 10 {
      MatchBitsLookup(a, t);
      assert t[3].0 == a;
    } else {
      MatchBitsLookup(a, t);
      assert forall k :: 0 <= k < |t| ==> t[k].0 != a;
    }
  }

  lemma SevenClassTableDistinct()
    ensures DistinctKeys(SevenClassTable)
  {
  }

  /** The seven-class dictionary agrees with the reference definition. */
  lemma SevenClassTableMatches(s: int)
    ensures MatchBits(s, SevenClassTable) == SevenClassBits(s)
  {
    SevenClassTableDistinct();
    MatchBitsLookup(s, SevenClassTable);
    if 0 <= s <= 7 {
      SevenClassEntry(s);
      assert SevenClassTable[s].0 == s;
    } else if s == 253 {
      assert SevenClassTable[8].0 == s;
    } else {
      assert forall k :: 0 <= k < |SevenClassTable| ==> SevenClassTable[k].0 != s by {
        forall k | 0 <= k < |SevenClassTable|
          ensures SevenClassTable[k].0 != s
        {
          SevenClassKey(k);
        }
      }
    }
  }

  /** The dictionary's keys are the eight classes and the nodata value. */
  lemma SevenClassKey(k: int)
    requires 0 <= k < |SevenClassTable|
    ensures var key := SevenClassTable[k].0; (0 <= key <= 7 && key == k) || key == ScNodataValue
  {
  }

  /** Entry `s` of the dictionary holds class `s` and its shifted bit. */
  lemma SevenClassEntry(s: int)
    requires 0 <= s <= 7
    ensures SevenClassTable[s] == (s, SevenClassBits(s))
  {
    if s == 0 {
    } else if s == 1 {
    } else if s == 2 {
    } else if s == 3 {
    } else if s == 4 {
    } else if s == 5 {
    } else if s == 6 {
    } else {
    }
  }

  /** `_addAncillaryToPackedBits`, one pixel. */
  function AddAncillary(ancillary: int, word: Word): (r: Word)
    ensures r == Or(word, AncillaryBits(ancillary))
  {
    AncillaryTableMatches(ancillary);
    AddTableIsMatch(ancillary, AncillaryTable, word);
    AddTable(ancillary, AncillaryTable, word)
  }

  /** `_addSevenClassToPackedBits`, one pixel. */
  function AddSevenClass(sevenClass: int, word: Word): (r: Word)
    ensures r == Or(word, SevenClassBits(sevenClass))
  {
    SevenClassTableMatches(sevenClass);
    AddTableIsMatch(sevenClass, SevenClassTable, word);
    AddTable(sevenClass, SevenClassTable, word)
  }

  /** `_addOutOfProjectionPackedBits`, one pixel: the top bit marks the
      out-of-projection value 250 (not the nodata value 253). */
  function AddOutOfProjection(sevenClass: int, word: Word): (r: Word)
    ensures sevenClass == OopValue ==> r == Or(word, OopBitMask)
    ensures sevenClass != OopValue ==> r == word
  {
    OrZero(word);
    Or(word, if sevenClass == OopValue then OopBitMask else 0)
  }

  /** The six per-pixel layer contributions, before they are ORed together. */
  datatype Layers = Layers(imp: Word, perm: Word, slope: Word, anc: Word, sc: Word, oop: Word)

  /** The layer contributions of one pixel, as `generatePostProcessingMask`
      derives them from its inputs. */
  function PixelLayers(impervious: int, permanent: int, dem: int, ancillary: int, sevenClass: int): (l: Layers)
    ensures l.imp != 0 <==> impervious == 1
    ensures l.perm != 0 <==> permanent == 1
    ensures l.slope != 0 <==> dem > DemSlopeCutoff && sevenClass == ScLandValue && ancillary == AncWaterValue
    ensures l.anc == AncillaryBits(ancillary)
    ensures l.sc == SevenClassBits(sevenClass)
    ensures l.oop != 0 <==> sevenClass == OopValue
    ensures WellPlaced(l)
  {
    Layers(PositionalBit(impervious, ImperviousBitMask),
           PositionalBit(permanent, PermanentBitMask),
           PositionalBit(DemSlopeBit(dem, sevenClass, ancillary), GmtedBitMask),
           AncillaryBits(ancillary),
           SevenClassBits(sevenClass),
           if sevenClass == OopValue then OopBitMask else 0)
  }

  /** Each contribution lies inside its own layer's bit range. */
  predicate WellPlaced(l: Layers)
  {
    && (l.imp == 0 || l.imp == ImperviousBitMask)
    && (l.perm == 0 || l.perm == PermanentBitMask)
    && (l.slope == 0 || l.slope == GmtedBitMask)
    && l.anc & AncillaryBitsRange == l.anc
    && l.sc & SevenClassBitsRange == l.sc
    && (l.oop == 0 || l.oop == OopBitMask)
  }

  /** The layers ORed in the order of the source. */
  function Combine(l: Layers): Word
  {
    Or(Or(Or(Or(Or(Or(0, l.imp), l.perm), l.slope), l.anc), l.sc), l.oop)
  }

  /** The packing sequence of `generatePostProcessingMask`, one pixel: the
      binary layers, then the ancillary and seven-class dictionary loops,
      then the out-of-projection flag. */
  function PackPixel(impervious: int, permanent: int, dem: int, ancillary: int, sevenClass: int): (r: Word)
    ensures r == Combine(PixelLayers(impervious, permanent, dem, ancillary, sevenClass))
  {
    var w1 := Or(0, PositionalBit(impervious, ImperviousBitMask));
    var w2 := Or(w1, PositionalBit(permanent, PermanentBitMask));
    var w3 := Or(w2, PositionalBit(DemSlopeBit(dem, sevenClass, ancillary), GmtedBitMask));
    var w4 := AddAncillary(ancillary, w3);
    var w5 := AddSevenClass(sevenClass, w4);
    OrZero(w5);
    AddOutOfProjection(sevenClass, w5)
  }

  /** Every layer can be read back from its own bit range of the packed
      word `r`, and the word fits the 16-bit output band. */
  predicate ReadsBack(r: Word, impervious: int, permanent: int, dem: int, ancillary: int, sevenClass: int)
  {
    && r < 0x10000
    && (r & ImperviousBitMask != 0 <==> impervious == 1)
    && (r & PermanentBitMask != 0 <==> permanent == 1)
    && (r & GmtedBitMask != 0 <==> dem > DemSlopeCutoff && sevenClass == ScLandValue && ancillary == AncWaterValue)
    && r & AncillaryBitsRange == AncillaryBits(ancillary)
    && r & SevenClassBitsRange == SevenClassBits(sevenClass)
    && (r & OopBitMask != 0 <==> sevenClass == OopValue)
  }

  /** The packed word of every pixel reads back its layers. */
  lemma PackPixelReadBack(impervious: int, permanent: int, dem: int, ancillary: int, sevenClass: int)
    ensures ReadsBack(PackPixel(impervious, permanent, dem, ancillary, sevenClass),
                      impervious, permanent, dem, ancillary, sevenClass)
  {
    var l := PixelLayers(impervious, permanent, dem, ancillary, sevenClass);
    LayersReadBack(l, impervious, permanent, dem, ancillary, sevenClass);
  }

  /** Layers that encode the inputs, ORed together, read those inputs back. */
  lemma LayersReadBack(l: Layers, impervious: int, permanent: int, dem: int, ancillary: int, sevenClass: int)
    requires WellPlaced(l)
    requires l.imp != 0 <==> impervious == 1
    requires l.perm != 0 <==> permanent == 1
    requires l.slope != 0 <==> dem > DemSlopeCutoff && sevenClass == ScLandValue && ancillary == AncWaterValue
    requires l.anc == AncillaryBits(ancillary)
    requires l.sc == SevenClassBits(sevenClass)
    requires l.oop != 0 <==> sevenClass == OopValue
    ensures ReadsBack(Combine(l), impervious, permanent, dem, ancillary, sevenClass)
  {
    LayersDisjoint(l);
  }

  /** The layers occupy disjoint bit ranges, so ORing them in the order of
      the source keeps each one recoverable by masking. */
  lemma LayersDisjoint(l: Layers)
    requires WellPlaced(l)
    ensures Combine(l) < 0x10000
    ensures Combine(l) & ImperviousBitMask != 0 <==> l.imp != 0
    ensures Combine(l) & PermanentBitMask != 0 <==> l.perm != 0
    ensures Combine(l) & GmtedBitMask != 0 <==> l.slope != 0
    ensures Combine(l) & AncillaryBitsRange == l.anc
    ensures Combine(l) & SevenClassBitsRange == l.sc
    ensures Combine(l) & OopBitMask != 0 <==> l.oop != 0
  {
  }

  /** The nodata seven-class value sets the bits of all eight classes, and
      the out-of-projection value sets none of them. */
  lemma SevenClassNodataCoversAll()
    ensures SevenClassBits(ScNodataValue) == SevenClassBits(0) | SevenClassBits(1) | SevenClassBits(2)
      | SevenClassBits(3) | SevenClassBits(4) | SevenClassBits(5) | SevenClassBits(6) | SevenClassBits(7)
    ensures SevenClassBits(OopValue) == 0
    ensures forall s :: 0 <= s <= 7 ==> SevenClassBits(s) & SevenClassBits(ScNodataValue) == SevenClassBits(s)
  {
  }

  /** `_generateAntarcticAncillaryMask`, one pixel: fill value 9, nodata 10
      over seven-class nodata, ocean 2 over the three ocean classes. */
  function AntarcticAncillary(sevenClass: int): (r: int)
    ensures r == AncOceanValue <==> sevenClass in {ScShallowValue, ScModerateOceanValue, ScDeepOceanValue}
    ensures r == AncNodataValue <==> sevenClass == ScNodataValue
    ensures r == AncFillValue <==> sevenClass !in {ScShallowValue, ScModerateOceanValue, ScDeepOceanValue, ScNodataValue}
  {
    var mask := AncFillValue;
    var mask := if sevenClass == ScNodataValue then AncNodataValue else mask;
    var ocean := sevenClass == ScShallowValue || sevenClass == ScModerateOceanValue
              || sevenClass == ScDeepOceanValue;
    if ocean then AncOceanValue else mask
  }

  /** With the Antarctic default, the ancillary layer is the ocean bit over
      ocean, the nodata bit over seven-class nodata, and empty elsewhere
      (the fill value has no bit). */
  lemma AntarcticAncillaryBits(sevenClass: int)
    ensures AncillaryBits(AntarcticAncillary(sevenClass))
         == if sevenClass in {0, 6, 7} then 32 else if sevenClass == 253 then 64 else 0
  {
  }

  /** The Antarctic default ancillary raster of a static seven-class raster.
      The source fills a 4800 x 4800 raster and combines it with the
      seven-class raster pixel by pixel; on a tile-shaped seven-class raster
      that is the raster here. */
  function AntarcticAncillaryMask(sevenClass: Grid): (r: Grid)
    ensures SameShape(sevenClass, r)
    ensures HasShape(sevenClass, TileSize, TileSize) ==> HasShape(r, TileSize, TileSize)
    ensures forall i, j :: InBounds(sevenClass, i, j) ==> r[i][j] in {AncOceanValue, AncNodataValue, AncFillValue}
    ensures forall i, j :: InBounds(sevenClass, i, j) ==>
      (r[i][j] == AncOceanValue <==> sevenClass[i][j] in {0, 6, 7})
    ensures forall i, j :: InBounds(sevenClass, i, j) ==>
      (r[i][j] == AncNodataValue <==> sevenClass[i][j] == ScNodataValue)
  {
    Map(sevenClass, AntarcticAncillary)
  }

  /** `_getGMTEDArray`: a missing slope raster becomes all zeros on an
      exclusion tile and is an error elsewhere. */
  function GetGmtedArray(read: Result<Grid>, tile: string, exclusions: set<string>): (r: Result<Grid>)
    ensures r.Ok? <==> read.Ok? || (read.error.FileNotFound? && IsExclusionTile(tile, exclusions))
    ensures read.Ok? ==> r == read
    ensures r.Ok? && read.Err? ==>
      && IsExclusionTile(tile, exclusions) && read.error.FileNotFound?
      && HasShape(r.value, TileSize, TileSize)
      && forall i, j :: 0 <= i < TileSize && 0 <= j < TileSize ==> r.value[i][j] == 0
    ensures r.Err? ==> r == read
  {
    WithExclusionDefault(read, IsExclusionTile(tile, exclusions), Fill(TileSize, TileSize, 0))
  }

  /** `_getAncillaryArray`: a missing ancillary raster becomes the Antarctic
      default on an exclusion tile and is an error elsewhere. */
  function GetAncillaryArray(read: Result<Grid>, sevenClass: Grid, tile: string, exclusions: set<string>)
    : (r: Result<Grid>)
    ensures r.Ok? <==> read.Ok? || (read.error.FileNotFound? && IsExclusionTile(tile, exclusions))
    ensures read.Ok? ==> r == read
    ensures r.Ok? && read.Err? ==>
      && IsExclusionTile(tile, exclusions) && read.error.FileNotFound?
      && r.value == AntarcticAncillaryMask(sevenClass)
    ensures r.Err? ==> r == read
  {
    WithExclusionDefault(read, IsExclusionTile(tile, exclusions), AntarcticAncillaryMask(sevenClass))
  }

  predicate AllSameShape(a: Grid, b: Grid, c: Grid, d: Grid, e: Grid)
  {
    SameShape(a, b) && SameShape(a, c) && SameShape(a, d) && SameShape(a, e)
  }

  /** `generatePostProcessingMask` once the five layers are in hand: the
      packing sequence applied at every pixel. */
  function PackRasters(impervious: Grid, permanent: Grid, dem: Grid, ancillary: Grid, sevenClass: Grid)
    : (r: Raster<Word>)
    requires AllSameShape(sevenClass, impervious, permanent, dem, ancillary)
    ensures SameShape(sevenClass, r)
    ensures forall i, j :: InBounds(sevenClass, i, j) ==>
      r[i][j] == PackPixel(impervious[i][j], permanent[i][j], dem[i][j], ancillary[i][j], sevenClass[i][j])
  {
    seq(|sevenClass|, i requires 0 <= i < |sevenClass| =>
      seq(|sevenClass[i]|, j requires 0 <= j < |sevenClass[i]| =>
        PackPixel(impervious[i][j], permanent[i][j], dem[i][j], ancillary[i][j], sevenClass[i][j])))
  }

  /** Every pixel of the packed raster reads back that pixel's layers. */
  lemma PackRastersReadBack(impervious: Grid, permanent: Grid, dem: Grid, ancillary: Grid, sevenClass: Grid)
    requires AllSameShape(sevenClass, impervious, permanent, dem, ancillary)
    ensures var r := PackRasters(impervious, permanent, dem, ancillary, sevenClass);
      forall i, j :: InBounds(sevenClass, i, j) ==>
        ReadsBack(r[i][j], impervious[i][j], permanent[i][j], dem[i][j], ancillary[i][j], sevenClass[i][j])
  {
    forall i, j | InBounds(sevenClass, i, j) {
      PackPixelReadBack(impervious[i][j], permanent[i][j], dem[i][j], ancillary[i][j], sevenClass[i][j]);
    }
  }
}
