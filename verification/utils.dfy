/** Module-level tables and the daily/annual image-name builder. */
module Utils {
  import opened Text
  import opened Errors

  /** `DayRange(start, end)`: an inclusive range of days of the year. */
  datatype DayRange = DayRange(start: int, end: int)

  /** Polar-night-free day ranges of the northernmost tile rows. */
  const Inclusions: map<string, DayRange> := map[
    "v00" := DayRange(177, 256),
    "v01" := DayRange(161, 256),
    "v02" := DayRange(145, 288),
    "v03" := DayRange(129, 304)]

  /** The same ranges for the southernmost tile rows. */
  const Exclusions: map<string, DayRange> := map[
    "v17" := DayRange(177, 256),
    "v16" := DayRange(161, 256),
    "v15" := DayRange(145, 288),
    "v14" := DayRange(129, 304)]

  /** The southern row v(17-i) has the range of the northern row v0i, and
      every range is non-empty. */
  lemma ExclusionsMirrorInclusions()
    ensures Exclusions.Keys == {"v14", "v15", "v16", "v17"}
    ensures Inclusions.Keys == {"v00", "v01", "v02", "v03"}
    ensures Exclusions["v17"] == Inclusions["v00"]
    ensures Exclusions["v16"] == Inclusions["v01"]
    ensures Exclusions["v15"] == Inclusions["v02"]
    ensures Exclusions["v14"] == Inclusions["v03"]
    ensures forall v :: v in Inclusions ==> Inclusions[v].start <= Inclusions[v].end
    ensures forall v :: v in Exclusions ==> Exclusions[v].start <= Exclusions[v].end
  {
  }

  /** Python truthiness of the optional day and post-fix arguments: None and
      0 (or the empty string) are both "not given". */
  predicate DayGiven(day: Option<int>) { day.Some? && day.value != 0 }

  predicate PostFixGiven(postFix: Option<string>) { postFix.Some? && postFix.value != "" }

  /** `str(day).zfill(3)`. */
  function DayField(day: int): string
  {
    ZFill(IntToStr(day), 3)
  }

  /** `Utils.getImageName`: `year-[ddd-]tile-sensor-classifier[-postFix]`. */
  function GetImageName(year: int, tile: string, sensor: string, classifier: string,
                        day: Option<int>, postFix: Option<string>): string
  {
    var name := IntToStr(year) + "-";
    var name := if DayGiven(day) then name + DayField(day.value) + "-" else name;
    var name := name + tile + "-" + sensor + "-" + classifier;
    if PostFixGiven(postFix) then name + "-" + postFix.value else name
  }

  /** The '-'-separated fields the image name is made of. */
  function ImageNameFields(year: int, tile: string, sensor: string, classifier: string,
                           day: Option<int>, postFix: Option<string>): seq<string>
  {
    [IntToStr(year)]
      + (if DayGiven(day) then [DayField(day.value)] else [])
      + [tile, sensor, classifier]
      + (if PostFixGiven(postFix) then [postFix.value] else [])
  }

  /** The name is its fields joined by '-', the day field appearing only
      for a truthy day and the post-fix only for a truthy post-fix. */
  lemma {:induction false} ImageNameIsJoin(year: int, tile: string, sensor: string, classifier: string,
                                           day: Option<int>, postFix: Option<string>)
    ensures GetImageName(year, tile, sensor, classifier, day, postFix)
         == JoinWith(ImageNameFields(year, tile, sensor, classifier, day, postFix), '-')
  {
    ImageNameShape(year, tile, sensor, classifier, day, postFix);
    FieldsJoinShape(year, tile, sensor, classifier, day, postFix);
  }

  /** The step-by-step name is the head text, the middle fields and the optional post-fix. */
  lemma ImageNameShape(year: int, tile: string, sensor: string, classifier: string,
                       day: Option<int>, postFix: Option<string>)
    ensures GetImageName(year, tile, sensor, classifier, day, postFix)
         == ImageNameText(year, tile, sensor, classifier, day, postFix)
  {
  }

  /** The joined fields have the same shape. */
  lemma {:induction false} FieldsJoinShape(year: int, tile: string, sensor: string, classifier: string,
                                           day: Option<int>, postFix: Option<string>)
    ensures JoinWith(ImageNameFields(year, tile, sensor, classifier, day, postFix), '-')
         == ImageNameText(year, tile, sensor, classifier, day, postFix)
  {
    var head := HeadFields(year, day);
    var mid := [tile, sensor, classifier];
    var name3 := HeadText(year, day) + tile + "-" + sensor + "-" + classifier;
    assert JoinWith(head + mid, '-') == name3 by {
      HeadJoin(year, day);
      MidJoin(tile, sensor, classifier);
      JoinAppend(head, mid, '-');
      ConcatRegroup(JoinWith(head, '-'), HeadText(year, day), tile, sensor, classifier);
    }
    if PostFixGiven(postFix) {
      var p := [postFix.value];
      assert ImageNameFields(year, tile, sensor, classifier, day, postFix) == head + mid + p;
      JoinAppend(head + mid, p, '-');
    } else {
      assert ImageNameFields(year, tile, sensor, classifier, day, postFix) == head + mid;
    }
  }

  function HeadFields(year: int, day: Option<int>): seq<string>
  {
    [IntToStr(year)] + (if DayGiven(day) then [DayField(day.value)] else [])
  }

  function HeadText(year: int, day: Option<int>): string
  {
    if DayGiven(day) then IntToStr(year) + "-" + DayField(day.value) + "-" else IntToStr(year) + "-"
  }

  function ImageNameText(year: int, tile: string, sensor: string, classifier: string,
                         day: Option<int>, postFix: Option<string>): string
  {
    var name3 := HeadText(year, day) + tile + "-" + sensor + "-" + classifier;
    if PostFixGiven(postFix) then name3 + "-" + postFix.value else name3
  }

  lemma HeadJoin(year: int, day: Option<int>)
    ensures |HeadFields(year, day)| >= 1
    ensures JoinWith(HeadFields(year, day), '-') + "-" == HeadText(year, day)
  {
    if DayGiven(day) {
      JoinAppend([IntToStr(year)], [DayField(day.value)], '-');
    }
  }

  /** Regrouping the concatenation of a head and the middle fields. */
  lemma ConcatRegroup(h: string, ht: string, a: string, b: string, c: string)
    requires h + "-" == ht
    ensures h + ['-'] + (a + "-" + b + "-" + c) == ht + a + "-" + b + "-" + c
  {
  }

  lemma MidJoin(a: string, b: string, c: string)
    ensures JoinWith([a, b, c], '-') == a + "-" + b + "-" + c
  {
    assert [a, b, c][1..] == [b, c];
    assert [b, c][1..] == [c];
    assert JoinWith([c], '-') == c;
    assert JoinWith([b, c], '-') == b + "-" + c;
  }

  /** With '-'-free components and non-negative numbers, splitting the name
      on '-' recovers exactly its fields: the name determines year, day,
      tile, sensor, classifier and post-fix. */
  lemma ImageNameSplits(year: int, tile: string, sensor: string, classifier: string,
                        day: Option<int>, postFix: Option<string>)
    requires year >= 0 && (day.Some? ==> day.value >= 0)
    requires '-' !in tile && '-' !in sensor && '-' !in classifier
    requires postFix.Some? ==> '-' !in postFix.value
    ensures Split(GetImageName(year, tile, sensor, classifier, day, postFix), '-')
         == ImageNameFields(year, tile, sensor, classifier, day, postFix)
  {
    var fields := ImageNameFields(year, tile, sensor, classifier, day, postFix);
    ImageNameIsJoin(year, tile, sensor, classifier, day, postFix);
    assert '-' !in IntToStr(year) by { assert AllDigits(IntToStr(year)); }
    if DayGiven(day) {
      ZFillNatKeepsValue(day.value, 3);
      assert AllDigits(DayField(day.value));
      assert '-' !in DayField(day.value);
    }
    SplitJoin(fields, '-');
  }

  /** A day between 1 and 999 becomes a three-digit field that reads back
      as the day; day 0 (falsy) leaves the field out. */
  lemma DayFieldIsThreeDigits(day: int)
    requires 1 <= day <= 999
    ensures |DayField(day)| == 3 && AllDigits(DayField(day)) && DigitsValue(DayField(day)) == day
  {
    ZFillNatKeepsValue(day, 3);
    var s := NatToStr(day);
    if |s| > 3 {
      LeadingDigitBound(s);
      Pow10Monotone(3, |s| - 1);
      assert false;
    }
  }

  lemma {:induction false} LeadingDigitBound(s: string)
    requires AllDigits(s) && |s| >= 1 && s[0] != '0'
    ensures DigitsValue(s) >= Pow10(|s| - 1)
    decreases |s|
  {
    if |s| > 1 {
      LeadingDigitBound(s[..|s| - 1]);
    }
  }

  function Pow10(n: nat): nat { if n == 0 then 1 else 10 * Pow10(n - 1) }

  lemma {:induction false} Pow10Monotone(m: nat, n: nat)
    requires m <= n
    ensures Pow10(m) <= Pow10(n)
    decreases n
  {
    if m < n {
      Pow10Monotone(m, n - 1);
    }
  }
}
