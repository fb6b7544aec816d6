/** The dotted names of the annual products:
    `MOD.A<year>.<tile>.<classifier>.<product>.<postStr>`. */
module Products {
  import opened Text

  /** `'MOD.A{}.{}.{}.<product>.{}'.format(year, tile, classifier, postStr)`. */
  function ProductName(year: int, tile: string, classifier: string, product: string, postStr: string): string
  {
    "MOD.A" + IntToStr(year) + "." + tile + "." + classifier + "." + product + "." + postStr
  }

  /** The fields the name is made of. */
  function ProductFields(year: int, tile: string, classifier: string, product: string, postStr: string)
    : seq<string>
  {
    ["MOD", "A" + IntToStr(year), tile, classifier, product, postStr]
  }

  /** A field the parser can read back: it holds no separating dot. */
  predicate Dotless(s: string) { '.' !in s }

  lemma JoinTwo(a: string, b: string)
    ensures JoinWith([a, b], '.') == a + "." + b
  {
    assert [a, b][1..] == [b];
  }

  /** Adding one field at the end adds a dot and the field. */
  lemma JoinSnoc(xs: seq<string>, z: string)
    requires |xs| >= 1
    ensures JoinWith(xs + [z], '.') == JoinWith(xs, '.') + "." + z
  {
    JoinAppend(xs, [z], '.');
  }

  /** The formatted name is its six fields joined by dots. */
  lemma {:induction false} ProductNameIsJoin(year: int, tile: string, classifier: string, product: string,
                                             postStr: string)
    ensures ProductName(year, tile, classifier, product, postStr)
         == JoinWith(ProductFields(year, tile, classifier, product, postStr), '.')
  {
    var f2 := ["MOD", "A" + IntToStr(year)];
    NameHead(year);
    var f3 := f2 + [tile];
    JoinSnoc(f2, tile);
    var f4 := f3 + [classifier];
    JoinSnoc(f3, classifier);
    var f5 := f4 + [product];
    JoinSnoc(f4, product);
    JoinSnoc(f5, postStr);
    FieldsSnoc(year, tile, classifier, product, postStr);
  }

  /** The name starts with the first two fields joined. */
  lemma NameHead(year: int)
    ensures "MOD.A" + IntToStr(year) == JoinWith(["MOD", "A" + IntToStr(year)], '.')
  {
    JoinTwo("MOD", "A" + IntToStr(year));
  }

  /** The six fields, one appended after another. */
  lemma FieldsSnoc(year: int, tile: string, classifier: string, product: string, postStr: string)
    ensures ProductFields(year, tile, classifier, product, postStr)
         == ["MOD", "A" + IntToStr(year)] + [tile] + [classifier] + [product] + [postStr]
  {
  }

  /** Splitting the name on dots recovers every field, provided the tile,
      classifier, product and post-fix hold no dot themselves. */
  lemma ProductNameSplits(year: int, tile: string, classifier: string, product: string, postStr: string)
    requires Dotless(tile) && Dotless(classifier) && Dotless(product) && Dotless(postStr)
    ensures Split(ProductName(year, tile, classifier, product, postStr), '.')
         == ProductFields(year, tile, classifier, product, postStr)
  {
    var fields := ProductFields(year, tile, classifier, product, postStr);
    IntToStrHasNoDot(year);
    assert Dotless("A" + IntToStr(year));
    assert forall k :: 0 <= k < |fields| ==> '.' !in fields[k];
    ProductNameIsJoin(year, tile, classifier, product, postStr);
    SplitJoin(fields, '.');
  }

  lemma IntToStrHasNoDot(x: int)
    ensures '.' !in IntToStr(x)
  {
    var s := IntToStr(x);
    forall k | 0 <= k < |s|
      ensures s[k] != '.'
    {
      if x < 0 && k > 0 {
        assert s[k] == s[1..][k - 1];
      }
    }
  }
}
