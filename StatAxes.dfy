/**
 * The two constant axis descriptions that the script hands to the STAT table
 * builder, one for the upright font and one for the italic font, and the
 * shape these two tables share: axis orderings, distinct tags, ordered stops
 * and nominal values inside their ranges; separately, whether the weight
 * ranges tile the axis without overlapping.
 */
module StatAxes {
  import opened Wrappers

  /** Axis value flag 0x2 (ELIDABLE_AXIS_VALUE_NAME in the OpenType STAT table). */
  const ElidableAxisValueName: bv16 := 0x2

  /**
   * One entry of an axis's `values` list. Each field the script may give is
   * optional, exactly as in the dictionaries it writes: `value` for a single
   * stop, `nominalValue` with `rangeMinValue`/`rangeMaxValue` for a range, and
   * `linkedValue` for a style-linked stop.
   */
  datatype AxisValue = AxisValue(
    name: string,
    flags: bv16,
    value: Option<real>,
    nominalValue: Option<real>,
    rangeMinValue: Option<real>,
    rangeMaxValue: Option<real>,
    linkedValue: Option<real>)

  /** One entry of an axis table: tag, display name, ordering and named stops. */
  datatype AxisDef = AxisDef(tag: string, name: string, ordering: int, values: seq<AxisValue>)

  /** A dictionary with a single `value` (and possibly flags and a `linkedValue`). */
  function Point(value: real, name: string, flags: bv16, linked: Option<real>): AxisValue
  {
    AxisValue(name, flags, Some(value), None, None, None, linked)
  }

  /** A dictionary with `nominalValue`, `rangeMinValue`, `rangeMaxValue` (and possibly flags and a `linkedValue`). */
  function Range(nominal: real, lo: real, hi: real, name: string, flags: bv16, linked: Option<real>): AxisValue
  {
    AxisValue(name, flags, None, Some(nominal), Some(lo), Some(hi), linked)
  }

  /** The width stops, identical in both tables. */
  const WidthValues: seq<AxisValue> := [
    Point(50.0, "UltraCondensed", 0, None),
    Point(75.0, "Condensed", 0, None),
    Point(87.5, "SemiCondensed", 0, None),
    Point(100.0, "Normal", 0x2, None)]

  /** The weight stops of `UPRIGHT_AXES`. */
  const UprightWeightValues: seq<AxisValue> := [
    Range(1.0, 1.0, 50.0, "Hairline", 0, None),
    Range(100.0, 50.0, 150.0, "Thin", 0, None),
    Range(200.0, 150.0, 250.0, "ExtraLight", 0, None),
    Range(300.0, 250.0, 350.0, "Light", 0, None),
    Range(400.0, 350.0, 450.0, "Regular", 0x2, Some(700.0)),
    Range(500.0, 450.0, 550.0, "Medium", 0, None),
    Range(600.0, 550.0, 650.0, "SemiBold", 0, None),
    Range(700.0, 650.0, 750.0, "Bold", 0, None),
    Range(800.0, 750.0, 850.0, "ExtraBold", 0, None),
    Range(900.0, 850.0, 950.0, "Black", 0, None),
    Range(1000.0, 950.0, 1000.0, "ExtraBlack", 0, None)]

  /** The weight stops of `ITALIC_AXES`, as written: Medium's range reaches up to 650. */
  const ItalicWeightValues: seq<AxisValue> := [
    Range(1.0, 1.0, 50.0, "Hairline", 0, None),
    Range(100.0, 50.0, 150.0, "Thin", 0, None),
    Range(200.0, 150.0, 250.0, "ExtraLight", 0, None),
    Range(300.0, 250.0, 350.0, "Light", 0, None),
    Range(400.0, 350.0, 450.0, "Regular", 0x2, Some(700.0)),
    Range(500.0, 450.0, 650.0, "Medium", 0, None),
    Range(600.0, 550.0, 650.0, "SemiBold", 0, None),
    Range(700.0, 650.0, 750.0, "Bold", 0, None),
    Range(800.0, 750.0, 850.0, "ExtraBold", 0, None),
    Range(900.0, 850.0, 950.0, "Black", 0, None),
    Range(1000.0, 950.0, 1000.0, "ExtraBlack", 0, None)]

  /** The italic axis of the upright font: Roman (0), elidable and linked to the italic value 1. */
  const RomanValues: seq<AxisValue> := [Point(0.0, "Roman", 0x2, Some(1.0))]

  /** The italic axis of the italic font: Italic (1). */
  const ItalicValues: seq<AxisValue> := [Point(1.0, "Italic", 0, None)]

  /** `UPRIGHT_AXES`. */
  const UprightAxes: seq<AxisDef> := [
    AxisDef("wdth", "Width", 0, WidthValues),
    AxisDef("wght", "Weight", 1, UprightWeightValues),
    AxisDef("ital", "Italic", 2, RomanValues)]

  /** `ITALIC_AXES`, as written. */
  const ItalicAxes: seq<AxisDef> := [
    AxisDef("wdth", "Width", 0, WidthValues),
    AxisDef("wght", "Weight", 1, ItalicWeightValues),
    AxisDef("ital", "Italic", 2, ItalicValues)]

  /** The italic weight stops with Medium's range ending at 550, where SemiBold's begins. */
  const CorrectedItalicWeightValues: seq<AxisValue> :=
    ItalicWeightValues[5 := Range(500.0, 450.0, 550.0, "Medium", 0, None)]

  /** `ITALIC_AXES` with the corrected weight stops. */
  const CorrectedItalicAxes: seq<AxisDef> := [
    AxisDef("wdth", "Width", 0, WidthValues),
    AxisDef("wght", "Weight", 1, CorrectedItalicWeightValues),
    AxisDef("ital", "Italic", 2, ItalicValues)]

  /** The flag that lets applications leave this stop's name out of composed style names. */
  predicate Elidable(v: AxisValue)
  {
    v.flags & ElidableAxisValueName != 0
  }

  /**
   * The OpenType STAT axis value table format whose field set the entry's fields
   * fit exactly: 1 (value), 2 (nominal value and range) or 3 (value and linked
   * value); None when no single format holds them all. This classifies field
   * sets; it is not the builder's own choice of format.
   */
  function Format(v: AxisValue): (f: Option<int>)
    ensures f == Some(1) <==> v.value.Some? && v.linkedValue.None? && v.nominalValue.None? && v.rangeMinValue.None? && v.rangeMaxValue.None?
    ensures f == Some(2) <==> v.value.None? && v.linkedValue.None? && v.nominalValue.Some? && v.rangeMinValue.Some? && v.rangeMaxValue.Some?
    ensures f == Some(3) <==> v.value.Some? && v.linkedValue.Some? && v.nominalValue.None? && v.rangeMinValue.None? && v.rangeMaxValue.None?
    ensures f.None? || f == Some(1) || f == Some(2) || f == Some(3)
  {
    match (v.value, v.nominalValue, v.rangeMinValue, v.rangeMaxValue, v.linkedValue)
    case (Some(_), None, None, None, None) => Some(1)
    case (Some(_), None, None, None, Some(_)) => Some(3)
    case (None, Some(_), Some(_), Some(_), None) => Some(2)
    case _ => None
  }

  /** A range entry whose nominal value lies inside its own range. */
  predicate RangedStop(v: AxisValue)
  {
    v.nominalValue.Some? && v.rangeMinValue.Some? && v.rangeMaxValue.Some? &&
    v.rangeMinValue.value <= v.nominalValue.value <= v.rangeMaxValue.value
  }

  /** If entry `i` has a successor, both are single stops and the successor's value is greater. */
  predicate PointIncreasesAt(values: seq<AxisValue>, i: int)
  {
    0 <= i < |values| - 1 ==>
      values[i].value.Some? && values[i + 1].value.Some? && values[i].value.value < values[i + 1].value.value
  }

  /** If entry `i` has a successor, both have nominal values and the successor's is greater. */
  predicate NominalIncreasesAt(values: seq<AxisValue>, i: int)
  {
    0 <= i < |values| - 1 ==>
      values[i].nominalValue.Some? && values[i + 1].nominalValue.Some? &&
      values[i].nominalValue.value < values[i + 1].nominalValue.value
  }

  /** Every entry is a single stop, and each stop is strictly greater than the one before it. */
  predicate IncreasingPoints(values: seq<AxisValue>)
  {
    (forall i :: 0 <= i < |values| ==> values[i].value.Some?) &&
    (forall i :: 0 <= i < |values| ==> PointIncreasesAt(values, i))
  }

  /** Every entry is a well-formed range, and each nominal value is strictly greater than the one before it. */
  predicate IncreasingRanges(values: seq<AxisValue>)
  {
    (forall i :: 0 <= i < |values| ==> RangedStop(values[i])) &&
    (forall i :: 0 <= i < |values| ==> NominalIncreasesAt(values, i))
  }

  /** Each range starts exactly where the previous one ends. */
  predicate Contiguous(values: seq<AxisValue>)
  {
    forall i :: 0 <= i < |values| - 1 ==> values[i].rangeMaxValue == values[i + 1].rangeMinValue
  }

  /** Two ranges share at most an end point. */
  predicate NonOverlapping(values: seq<AxisValue>)
  {
    forall i, j :: 0 <= i < j < |values| && RangedStop(values[i]) && RangedStop(values[j]) ==>
      values[i].rangeMaxValue.value <= values[j].rangeMinValue.value
  }

  /** `x` falls inside the range of entry `v`. */
  predicate InRange(v: AxisValue, x: real)
  {
    RangedStop(v) && v.rangeMinValue.value <= x <= v.rangeMaxValue.value
  }

  /** The number of entries that carry the elidable flag. */
  function ElidableCount(values: seq<AxisValue>): (n: nat)
    ensures n <= |values|
  {
    if values == [] then 0
    else (if Elidable(values[0]) then 1 else 0) + ElidableCount(values[1..])
  }

  /** The count is zero exactly when no entry carries the elidable flag. */
  lemma {:induction false} ElidableCountZero(values: seq<AxisValue>)
    ensures ElidableCount(values) == 0 <==> forall i :: 0 <= i < |values| ==> !Elidable(values[i])
    decreases |values|
  {
    if values != [] {
      var rest := values[1..];
      ElidableCountZero(rest);
      assert forall i :: 1 <= i < |values| ==> values[i] == rest[i - 1];
    }
  }

  /** The count is at most one exactly when no two different entries carry the elidable flag. */
  lemma {:induction false} ElidableCountAtMostOne(values: seq<AxisValue>)
    ensures ElidableCount(values) <= 1 <==>
      forall i, j :: 0 <= i < |values| && 0 <= j < |values| && Elidable(values[i]) && Elidable(values[j]) ==> i == j
    decreases |values|
  {
    if values != [] {
      var rest := values[1..];
      ElidableCountAtMostOne(rest);
      ElidableCountZero(rest);
      assert forall i :: 1 <= i < |values| ==> values[i] == rest[i - 1];
    }
  }

  /** The axis at position `i` has `ordering == i`, so orderings are 0, 1, 2, … in list order. */
  predicate OrderingIsPosition(axes: seq<AxisDef>)
  {
    forall i :: 0 <= i < |axes| ==> axes[i].ordering == i
  }

  /** No two axes share a tag. */
  predicate DistinctTags(axes: seq<AxisDef>)
  {
    forall i, j :: 0 <= i < j < |axes| ==> axes[i].tag != axes[j].tag
  }

  /** Three axes `wdth`, `wght`, `ital`, with orderings 0, 1, 2 and distinct tags. */
  predicate AxesHeader(axes: seq<AxisDef>)
  {
    |axes| == 3 && OrderingIsPosition(axes) && DistinctTags(axes) &&
    axes[0].tag == "wdth" && axes[1].tag == "wght" && axes[2].tag == "ital"
  }

  /** Width stops increasing from 50 to 100, at most one of them elidable. */
  predicate WidthStopsOk(values: seq<AxisValue>)
  {
    IncreasingPoints(values) && |values| == 4 &&
    values[0].value == Some(50.0) && values[3].value == Some(100.0) &&
    ElidableCount(values) <= 1
  }

  /**
   * Eleven weight ranges, each holding its nominal value, with nominal values
   * increasing from 1 to 1000, the first range starting at 1 and the last ending
   * at 1000, at most one of them elidable.
   */
  predicate WeightStopsOk(values: seq<AxisValue>)
  {
    IncreasingRanges(values) && |values| == 11 &&
    values[0].nominalValue == Some(1.0) && values[0].rangeMinValue == Some(1.0) &&
    values[10].nominalValue == Some(1000.0) && values[10].rangeMaxValue == Some(1000.0) &&
    ElidableCount(values) <= 1
  }

  /** A single italic stop. */
  predicate ItalicStopsOk(values: seq<AxisValue>)
  {
    |values| == 1 && values[0].value.Some?
  }

  /** The shape both tables share. */
  predicate WellFormed(axes: seq<AxisDef>)
  {
    AxesHeader(axes) &&
    WidthStopsOk(axes[0].values) && WeightStopsOk(axes[1].values) && ItalicStopsOk(axes[2].values)
  }

  /** Stops that increase one after another increase pairwise. */
  lemma {:induction false} IncreasingPointsPairwise(values: seq<AxisValue>, i: nat, j: nat)
    requires IncreasingPoints(values)
    requires i < j < |values|
    ensures values[i].value.value < values[j].value.value
    decreases j - i
  {
    assert PointIncreasesAt(values, i);
    if i + 1 < j {
      IncreasingPointsPairwise(values, i + 1, j);
    }
  }

  /** Nominal values that increase one after another increase pairwise. */
  lemma {:induction false} IncreasingRangesPairwise(values: seq<AxisValue>, i: nat, j: nat)
    requires IncreasingRanges(values)
    requires i < j < |values|
    ensures values[i].nominalValue.value < values[j].nominalValue.value
    decreases j - i
  {
    assert NominalIncreasesAt(values, i);
    if i + 1 < j {
      IncreasingRangesPairwise(values, i + 1, j);
    }
  }

  /** Along a contiguous run of well-formed ranges, an earlier range ends no later than a later one starts. */
  lemma {:induction false} ContiguousChain(values: seq<AxisValue>, i: nat, j: nat)
    requires IncreasingRanges(values)
    requires Contiguous(values)
    requires i < j < |values|
    ensures values[i].rangeMaxValue.value <= values[j].rangeMinValue.value
    decreases j - i
  {
    if i + 1 < j {
      ContiguousChain(values, i + 1, j);
      assert RangedStop(values[i + 1]);
    }
  }

  /** Contiguous well-formed ranges never overlap: any two share at most an end point. */
  lemma ContiguousNoOverlap(values: seq<AxisValue>)
    requires IncreasingRanges(values)
    requires Contiguous(values)
    ensures NonOverlapping(values)
  {
    forall i, j | 0 <= i < j < |values|
      ensures values[i].rangeMaxValue.value <= values[j].rangeMinValue.value
    {
      ContiguousChain(values, i, j);
    }
  }

  /**
   * Contiguous well-formed ranges cover the whole span from the first range's
   * minimum to the last range's maximum: every point in it names some stop.
   */
  lemma {:induction false} ContiguousCover(values: seq<AxisValue>, x: real) returns (k: nat)
    requires values != []
    requires IncreasingRanges(values)
    requires Contiguous(values)
    requires values[0].rangeMinValue.value <= x <= values[|values| - 1].rangeMaxValue.value
    ensures k < |values| && InRange(values[k], x)
    decreases |values|
  {
    if x <= values[0].rangeMaxValue.value {
      k := 0;
    } else {
      var rest := values[1..];
      assert IncreasingRanges(rest) by {
        forall i | 0 <= i < |rest| ensures RangedStop(rest[i]) && NominalIncreasesAt(rest, i) {
          assert rest[i] == values[i + 1];
          assert NominalIncreasesAt(values, i + 1);
        }
      }
      assert Contiguous(rest) by {
        forall i | 0 <= i < |rest| - 1 ensures rest[i].rangeMaxValue == rest[i + 1].rangeMinValue {
          assert rest[i] == values[i + 1] && rest[i + 1] == values[i + 2];
        }
      }
      assert values[0].rangeMaxValue == values[1].rangeMinValue;
      var k' := ContiguousCover(rest, x);
      k := k' + 1;
    }
  }

  /** The width stops are 50, 75, 87.5, 100 in increasing order, and only Normal (100) is elidable. */
  lemma WidthStopsIncrease()
    ensures WidthStopsOk(WidthValues)
    ensures ElidableCount(WidthValues) == 1 && Elidable(WidthValues[3])
  {
  }

  /** The upright weight stops: nominal values inside their ranges, increasing from 1 to 1000. */
  lemma UprightWeightStopsIncrease()
    ensures IncreasingRanges(UprightWeightValues)
  {
    UprightWeightRangesHoldNominals();
    UprightWeightNominalsIncrease();
  }

  /** Each upright weight range holds its own nominal value. */
  lemma UprightWeightRangesHoldNominals()
    ensures forall i :: 0 <= i < |UprightWeightValues| ==> RangedStop(UprightWeightValues[i])
  {
  }

  /** The upright weight nominal values increase from one entry to the next. */
  lemma UprightWeightNominalsIncrease()
    ensures forall i :: 0 <= i < |UprightWeightValues| ==> NominalIncreasesAt(UprightWeightValues, i)
  {
  }

  /** Only Regular is elidable among the upright weight stops. */
  lemma UprightWeightElidableIsRegular()
    ensures ElidableCount(UprightWeightValues) == 1 && Elidable(UprightWeightValues[4])
  {
  }

  /** The upright weight stops meet every weight requirement of `WellFormed`. */
  lemma UprightWeightStopsOk()
    ensures WeightStopsOk(UprightWeightValues)
  {
    UprightWeightStopsIncrease();
    UprightWeightElidableIsRegular();
  }

  /** Each upright weight range starts where the previous one ends. */
  lemma UprightWeightRangesContiguous()
    ensures Contiguous(UprightWeightValues)
  {
  }

  /** The italic weight stops: nominal values inside their ranges, increasing from 1 to 1000. */
  lemma ItalicWeightStopsIncrease()
    ensures IncreasingRanges(ItalicWeightValues)
  {
    ItalicWeightRangesHoldNominals();
    ItalicWeightNominalsIncrease();
  }

  /** Each italic weight range holds its own nominal value. */
  lemma ItalicWeightRangesHoldNominals()
    ensures forall i :: 0 <= i < |ItalicWeightValues| ==> RangedStop(ItalicWeightValues[i])
  {
  }

  /** The italic weight nominal values increase from one entry to the next. */
  lemma ItalicWeightNominalsIncrease()
    ensures forall i :: 0 <= i < |ItalicWeightValues| ==> NominalIncreasesAt(ItalicWeightValues, i)
  {
  }

  /** Only Regular is elidable among the italic weight stops. */
  lemma ItalicWeightElidableIsRegular()
    ensures ElidableCount(ItalicWeightValues) == 1 && Elidable(ItalicWeightValues[4])
  {
  }

  /** The italic weight stops meet every weight requirement of `WellFormed`. */
  lemma ItalicWeightStopsOk()
    ensures WeightStopsOk(ItalicWeightValues)
  {
    ItalicWeightStopsIncrease();
    ItalicWeightElidableIsRegular();
  }

  /** Both tables list `wdth`, `wght`, `ital` with orderings 0, 1, 2, and each has a single italic stop. */
  lemma TableHeaders()
    ensures AxesHeader(UprightAxes) && ItalicStopsOk(UprightAxes[2].values)
    ensures AxesHeader(ItalicAxes) && ItalicStopsOk(ItalicAxes[2].values)
    ensures AxesHeader(CorrectedItalicAxes) && ItalicStopsOk(CorrectedItalicAxes[2].values)
  {
  }

  /** Every property of `WellFormed` holds of `UPRIGHT_AXES`. */
  lemma UprightAxesWellFormed()
    ensures WellFormed(UprightAxes)
  {
    TableHeaders();
    WidthStopsIncrease();
    UprightWeightStopsOk();
  }

  /** The upright weight ranges tile 1 to 1000: each starts where the previous ends, and no two overlap. */
  lemma UprightWeightRangesTile()
    ensures Contiguous(UprightAxes[1].values) && NonOverlapping(UprightAxes[1].values)
  {
    UprightWeightStopsIncrease();
    UprightWeightRangesContiguous();
    ContiguousNoOverlap(UprightWeightValues);
  }

  /** Every property of `WellFormed` holds of `ITALIC_AXES` as written. */
  lemma ItalicAxesWellFormed()
    ensures WellFormed(ItalicAxes)
  {
    TableHeaders();
    WidthStopsIncrease();
    ItalicWeightStopsOk();
  }

  /**
   * `ITALIC_AXES` as written: Medium (450 to 650) and SemiBold (550 to 650)
   * overlap, so the weight ranges are not contiguous and weight 600, SemiBold's
   * own nominal value, also lies in Medium's range.
   */
  lemma ItalicWeightRangesOverlap()
    ensures ItalicAxes[1].values[5].name == "Medium" && ItalicAxes[1].values[6].name == "SemiBold"
    ensures InRange(ItalicAxes[1].values[5], 600.0) && InRange(ItalicAxes[1].values[6], 600.0)
    ensures !Contiguous(ItalicAxes[1].values)
    ensures !NonOverlapping(ItalicAxes[1].values)
  {
    var w := ItalicWeightValues;
    assert w[5].rangeMaxValue != w[6].rangeMinValue;
    assert RangedStop(w[5]) && RangedStop(w[6]);
  }

  /** Once Medium ends at 550, the italic weight stops are exactly the upright ones. */
  lemma CorrectedWeightIsUpright()
    ensures CorrectedItalicWeightValues == UprightWeightValues
    ensures CorrectedItalicAxes[1] == UprightAxes[1]
  {
  }

  /**
   * With Medium ending at 550 the italic table is well formed and its weight
   * ranges tile 1 to 1000 without overlapping; it differs from the table as
   * written only in Medium's upper bound.
   */
  lemma CorrectedItalicAxesContiguous()
    ensures WellFormed(CorrectedItalicAxes)
    ensures Contiguous(CorrectedItalicAxes[1].values) && NonOverlapping(CorrectedItalicAxes[1].values)
  {
    CorrectedWeightIsUpright();
    TableHeaders();
    WidthStopsIncrease();
    UprightWeightStopsOk();
    UprightWeightRangesTile();
  }

  /** In a well-formed table, width stops and weight nominal values increase pairwise, not only from one entry to the next. */
  lemma WellFormedStopsOrdered(axes: seq<AxisDef>)
    requires WellFormed(axes)
    ensures forall i, j :: 0 <= i < j < |axes[0].values| ==> axes[0].values[i].value.value < axes[0].values[j].value.value
    ensures forall i, j :: 0 <= i < j < |axes[1].values| ==>
      axes[1].values[i].nominalValue.value < axes[1].values[j].nominalValue.value
  {
    forall i, j | 0 <= i < j < |axes[0].values|
      ensures axes[0].values[i].value.value < axes[0].values[j].value.value
    {
      IncreasingPointsPairwise(axes[0].values, i, j);
    }
    forall i, j | 0 <= i < j < |axes[1].values|
      ensures axes[1].values[i].nominalValue.value < axes[1].values[j].nominalValue.value
    {
      IncreasingRangesPairwise(axes[1].values, i, j);
    }
  }

  /** The corrected italic table differs from `ITALIC_AXES` as written only in Medium's upper bound. */
  lemma CorrectionIsMediumOnly()
    ensures CorrectedItalicAxes[0] == ItalicAxes[0] && CorrectedItalicAxes[2] == ItalicAxes[2]
    ensures CorrectedItalicAxes[1].values ==
      ItalicAxes[1].values[5 := ItalicAxes[1].values[5].(rangeMaxValue := Some(550.0))]
  {
  }

  /** The two tables share their width stops and every weight stop except Medium, and differ in the italic axis. */
  lemma TablesAgree()
    ensures UprightAxes[0] == ItalicAxes[0]
    ensures forall k :: 0 <= k < 11 && k != 5 ==> UprightAxes[1].values[k] == ItalicAxes[1].values[k]
    ensures UprightAxes[1].values[5].rangeMaxValue == Some(550.0) && ItalicAxes[1].values[5].rangeMaxValue == Some(650.0)
    ensures UprightAxes[2] != ItalicAxes[2]
  {
  }

  /** Weight entry 4 is Regular, carries a range and links to 700, the nominal value of entry 7, Bold. */
  predicate RegularLinkedToBold(axes: seq<AxisDef>)
  {
    |axes| >= 2 && |axes[1].values| >= 8 &&
    axes[1].values[4].name == "Regular" && axes[1].values[7].name == "Bold" &&
    RangedStop(axes[1].values[4]) &&
    axes[1].values[4].linkedValue == axes[1].values[7].nominalValue == Some(700.0)
  }

  /**
   * The weight axis's Regular entry links to 700, the nominal value of Bold, in
   * both tables. It also gives a range, and no single STAT axis value format holds
   * both a range and a linked value; every other entry of both tables fits exactly one format.
   */
  lemma RegularLinksToBold()
    ensures RegularLinkedToBold(UprightAxes) && RegularLinkedToBold(ItalicAxes)
    ensures Format(UprightAxes[1].values[4]).None? && Format(ItalicAxes[1].values[4]).None?
    ensures forall a, k :: 0 <= a < 3 && 0 <= k < |UprightAxes[a].values| && (a, k) != (1, 4) ==>
      Format(UprightAxes[a].values[k]).Some? && Format(ItalicAxes[a].values[k]).Some?
  {
  }

  /**
   * The elidable entries are the defaults: Normal width (100), Regular weight
   * (400) and, in the upright font only, Roman (0), which links to the italic
   * font's value 1.
   */
  lemma ElidableEntriesAreDefaults()
    ensures forall a, k :: 0 <= a < 3 && 0 <= k < |UprightAxes[a].values| ==>
      (Elidable(UprightAxes[a].values[k]) <==> (a, k) in {(0, 3), (1, 4), (2, 0)})
    ensures forall a, k :: 0 <= a < 3 && 0 <= k < |ItalicAxes[a].values| ==>
      (Elidable(ItalicAxes[a].values[k]) <==> (a, k) in {(0, 3), (1, 4)})
    ensures UprightAxes[2].values[0] == Point(0.0, "Roman", ElidableAxisValueName, Some(1.0))
    ensures ItalicAxes[2].values[0].value == Some(1.0)
  {
  }
}
