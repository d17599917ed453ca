/**
  The feature-row builder of the FaydaFlow demand predictor (app.py).

  The form's eleven answers are collected into a dict: the five slider values
  under fixed column names, and each of the six drop-down answers as a one-hot
  column `"{field}_{value}"` holding 1. The row given to the model then has one
  cell for every column name the model expects: the dict's value for that name,
  or 0 when the dict has none. Names the model does not expect are dropped.
 */
module FeatureRow {
  import opened PyDict

  /** The slider inputs. */
  datatype Numeric = Week | SoilQuality | Rainfall | CropPrice | DroughtRisk

  /** The drop-down inputs. */
  datatype Categorical = Gender | Region | Zone | Woreda | Occupation | ServiceType

  /** What the form's widgets return on one run of the page. */
  datatype Selection = Selection(
    gender: string, region: string, zone: string, woreda: string,
    occupation: string, serviceType: string,
    week: int, soilQuality: int, rainfall: int, cropPrice: int, droughtRisk: int)

  /** The column name under which a slider value is stored. */
  function NumName(f: Numeric): string {
    match f
    case Week => "week_of_year"
    case SoilQuality => "soil_quality_score"
    case Rainfall => "rainfall_mm"
    case CropPrice => "crop_price_index"
    case DroughtRisk => "drought_risk_index"
  }

  function NumValue(s: Selection, f: Numeric): int {
    match f
    case Week => s.week
    case SoilQuality => s.soilQuality
    case Rainfall => s.rainfall
    case CropPrice => s.cropPrice
    case DroughtRisk => s.droughtRisk
  }

  /** The field name that prefixes a drop-down's one-hot columns. */
  function CatName(f: Categorical): string {
    match f
    case Gender => "gender"
    case Region => "region"
    case Zone => "zone"
    case Woreda => "woreda"
    case Occupation => "occupation"
    case ServiceType => "service_type"
  }

  function CatValue(s: Selection, f: Categorical): string {
    match f
    case Gender => s.gender
    case Region => s.region
    case Zone => s.zone
    case Woreda => s.woreda
    case Occupation => s.occupation
    case ServiceType => s.serviceType
  }

  /** The f-string `f"{field}_{value}"`. */
  function OneHotKey(field: string, value: string): (k: string)
    ensures |k| == |field| + 1 + |value|
    ensures k[..|field|] == field && k[|field|] == '_' && k[|field| + 1..] == value
  {
    field + "_" + value
  }

  /** Lower and upper bound of each slider. */
  function SliderMin(f: Numeric): int {
    match f
    case Week => 1
    case SoilQuality => 1
    case Rainfall => 0
    case CropPrice => 80
    case DroughtRisk => 1
  }

  function SliderMax(f: Numeric): int {
    match f
    case Week => 52
    case SoilQuality => 5
    case Rainfall => 100
    case CropPrice => 150
    case DroughtRisk => 5
  }

  /** Every slider value lies within its slider's range. */
  predicate InSliderRanges(s: Selection) {
    forall f: Numeric :: SliderMin(f) <= NumValue(s, f) <= SliderMax(f)
  }

  /** The options each drop-down offers, the first being its initial choice. */
  function Menu(f: Categorical): seq<string> {
    match f
    case Gender => ["Male", "Female"]
    case Region => ["Addis Ababa", "Oromia", "Amhara", "Tigray"]
    case Zone => ["Zone 1", "Zone 2", "Zone 3", "Zone 4"]
    case Woreda => ["Woreda A", "Woreda B", "Woreda C", "Woreda D"]
    case Occupation => ["farmer", "teacher", "trader"]
    case ServiceType => ["fertilizer", "training", "irrigation", "crop_protection"]
  }

  /** Every drop-down answer is one of its menu's options. */
  predicate OnMenus(s: Selection) {
    forall f: Categorical :: CatValue(s, f) in Menu(f)
  }

  /** What the page shows before the user touches any widget: the first option
      of each drop-down, the given default of each slider, and the lower bound
      of the soil-quality slider, which has no default. */
  function Initial(): (s: Selection)
    ensures InSliderRanges(s) && OnMenus(s)
    ensures forall f: Categorical :: CatValue(s, f) == Menu(f)[0]
    ensures NumValue(s, SoilQuality) == SliderMin(SoilQuality)
  {
    Selection("Male", "Addis Ababa", "Zone 1", "Woreda A", "farmer", "fertilizer", 27, 1, 60, 100, 2)
  }

  /** The entries of the `input_dict` literal, in the order written. */
  function Entries(s: Selection): seq<(string, int)> {
    [ (NumName(Week), s.week),
      (NumName(SoilQuality), s.soilQuality),
      (NumName(Rainfall), s.rainfall),
      (NumName(CropPrice), s.cropPrice),
      (NumName(DroughtRisk), s.droughtRisk),
      (OneHotKey(CatName(Gender), s.gender), 1),
      (OneHotKey(CatName(Region), s.region), 1),
      (OneHotKey(CatName(Zone), s.zone), 1),
      (OneHotKey(CatName(Woreda), s.woreda), 1),
      (OneHotKey(CatName(Occupation), s.occupation), 1),
      (OneHotKey(CatName(ServiceType), s.serviceType), 1) ]
  }

  /** `input_dict`. */
  function InputDict(s: Selection): map<string, int> {
    ToDict(Entries(s))
  }

  /** `input_dict.get(col, 0)`: the value of one expected column. */
  function Lookup(s: Selection, col: string): int {
    Get(InputDict(s), col, 0)
  }

  /** The row handed to the model: one (column, value) cell per expected
      column, in the order of `features`; a repeated name yields one cell. */
  function BuildRow(s: Selection, features: seq<string>): (row: seq<(string, int)>)
    ensures forall i :: 0 <= i < |row| ==> row[i].1 == Lookup(s, row[i].0)
    ensures Distinct(features) ==> |row| == |features| && forall i :: 0 <= i < |row| ==> row[i].0 == features[i]
  {
    var cols := Columns(features);
    var row := seq(|cols|, i requires 0 <= i < |cols| => (cols[i], Lookup(s, cols[i])));
    assert forall i :: 0 <= i < |cols| ==> row[i].0 == cols[i];
    row
  }

  // ---------------------------------------------------------------------
  // The dict literal

  /** The first two characters of the eleven keys, in the literal's order. */
  const KeyTags: seq<string> := ["we", "so", "ra", "cr", "dr", "ge", "re", "zo", "wo", "oc", "se"]

  lemma OneHotKeyTag(field: string, value: string)
    requires |field| >= 2
    ensures OneHotKey(field, value)[..2] == field[..2]
  {
    var k := OneHotKey(field, value);
    assert k[..2] == k[..|field|][..2];
  }

  lemma EntryTags(s: Selection)
    ensures |Entries(s)| == |KeyTags|
    ensures forall i :: 0 <= i < |KeyTags| ==> |Entries(s)[i].0| >= 2 && Entries(s)[i].0[..2] == KeyTags[i]
  {
    var e := Entries(s);
    assert e[0].0[..2] == "we" && e[1].0[..2] == "so" && e[2].0[..2] == "ra";
    assert e[3].0[..2] == "cr" && e[4].0[..2] == "dr";
    OneHotKeyTag(CatName(Gender), s.gender);
    OneHotKeyTag(CatName(Region), s.region);
    OneHotKeyTag(CatName(Zone), s.zone);
    OneHotKeyTag(CatName(Woreda), s.woreda);
    OneHotKeyTag(CatName(Occupation), s.occupation);
    OneHotKeyTag(CatName(ServiceType), s.serviceType);
  }

  /** Whatever the answers, the literal's eleven keys are pairwise distinct:
      no two of them even share their first two characters. */
  lemma EntryKeysDistinct(s: Selection)
    ensures forall i, j :: 0 <= i < j < |Entries(s)| ==> Entries(s)[i].0 != Entries(s)[j].0
  {
    EntryTags(s);
    assert Distinct(KeyTags);
  }

  /** `input_dict` has exactly one entry per input; none is overwritten. */
  lemma InputDictSize(s: Selection)
    ensures InputDict(s).Keys == set i | 0 <= i < |Entries(s)| :: Entries(s)[i].0
    ensures |InputDict(s)| == 11
    ensures forall i :: 0 <= i < |Entries(s)| ==> InputDict(s)[Entries(s)[i].0] == Entries(s)[i].1
  {
    EntryKeysDistinct(s);
    ToDictKeys(Entries(s));
    DistinctKeysCount(Entries(s));
    forall i | 0 <= i < |Entries(s)| ensures InputDict(s)[Entries(s)[i].0] == Entries(s)[i].1 {
      assert LastWrite(Entries(s), i);
      ToDictLastWrite(Entries(s), i);
    }
  }

  // ---------------------------------------------------------------------
  // The value of one column

  /** A slider's column holds the slider's value unchanged. */
  lemma NumericPassThrough(s: Selection, f: Numeric)
    ensures Lookup(s, NumName(f)) == NumValue(s, f)
  {
    InputDictSize(s);
    var i := match f
      case Week => 0 case SoilQuality => 1 case Rainfall => 2 case CropPrice => 3 case DroughtRisk => 4;
    assert Entries(s)[i] == (NumName(f), NumValue(s, f));
  }

  /** Index, in the literal, of a drop-down's entry. */
  function CatIndex(f: Categorical): (i: nat)
    ensures 5 <= i < 11
  {
    match f
    case Gender => 5 case Region => 6 case Zone => 7 case Woreda => 8 case Occupation => 9 case ServiceType => 10
  }

  lemma CatEntry(s: Selection, f: Categorical)
    ensures Entries(s)[CatIndex(f)] == (OneHotKey(CatName(f), CatValue(s, f)), 1)
  {
  }

  lemma KeyTagsDistinct()
    ensures Distinct(KeyTags)
  {
  }

  lemma CatTag(f: Categorical)
    ensures |CatName(f)| >= 2 && CatName(f)[..2] == KeyTags[CatIndex(f)]
  {
  }

  /** A one-hot key for a different answer differs from every key of the literal. */
  lemma OtherAnswerAbsent(s: Selection, f: Categorical, v: string, i: nat)
    requires v != CatValue(s, f) && i < |Entries(s)|
    ensures Entries(s)[i].0 != OneHotKey(CatName(f), v)
  {
    var k := OneHotKey(CatName(f), v);
    if i == CatIndex(f) {
      CatEntry(s, f);
      assert Entries(s)[i].0[|CatName(f)| + 1..] == CatValue(s, f);
    } else {
      EntryTags(s);
      CatTag(f);
      OneHotKeyTag(CatName(f), v);
      KeyTagsDistinct();
      assert KeyTags[i] != KeyTags[CatIndex(f)];
    }
  }

  /** One-hot correctness: among the columns of a drop-down, the one for the
      chosen answer holds 1 and every other holds 0. */
  lemma OneHot(s: Selection, f: Categorical, v: string)
    ensures Lookup(s, OneHotKey(CatName(f), v)) == if v == CatValue(s, f) then 1 else 0
  {
    InputDictSize(s);
    CatEntry(s, f);
    if v != CatValue(s, f) {
      forall i | 0 <= i < |Entries(s)| ensures Entries(s)[i].0 != OneHotKey(CatName(f), v) {
        OtherAnswerAbsent(s, f, v, i);
      }
    }
  }

  /** A column that is neither a slider's nor the one-hot column of a chosen
      answer is not in `input_dict`, and so is filled with 0. */
  lemma OtherColumnsZero(s: Selection, col: string)
    requires forall f: Numeric :: col != NumName(f)
    requires forall f: Categorical :: col != OneHotKey(CatName(f), CatValue(s, f))
    ensures col !in InputDict(s) && Lookup(s, col) == 0
  {
    InputDictSize(s);
    assert Entries(s)[0].0 == NumName(Week) && Entries(s)[1].0 == NumName(SoilQuality);
    assert Entries(s)[2].0 == NumName(Rainfall) && Entries(s)[3].0 == NumName(CropPrice);
    assert Entries(s)[4].0 == NumName(DroughtRisk);
    forall f: Categorical ensures Entries(s)[CatIndex(f)].0 != col {
      CatEntry(s, f);
    }
    forall i | 0 <= i < |Entries(s)| ensures Entries(s)[i].0 != col {
      var f: Categorical := if i == 5 then Gender else if i == 6 then Region else if i == 7 then Zone
        else if i == 8 then Woreda else if i == 9 then Occupation else ServiceType;
      if i >= 5 { assert CatIndex(f) == i; }
    }
  }

  /** Every looked-up value is 0, 1 or one of the slider values. */
  lemma LookupValues(s: Selection, col: string)
    ensures Lookup(s, col) == 0 || Lookup(s, col) == 1 || exists f: Numeric :: col == NumName(f) && Lookup(s, col) == NumValue(s, f)
  {
    if f: Numeric :| col == NumName(f) {
      NumericPassThrough(s, f);
    } else if f: Categorical :| col == OneHotKey(CatName(f), CatValue(s, f)) {
      OneHot(s, f, CatValue(s, f));
    } else {
      OtherColumnsZero(s, col);
    }
  }

  // ---------------------------------------------------------------------
  // The row

  /** The row has one cell per distinct expected column and no other cell:
      its names are pairwise distinct, each is expected, each expected name
      has a cell, and with no repeated name they are `features` in order. */
  lemma RowSchema(s: Selection, features: seq<string>)
    ensures var row := BuildRow(s, features);
      && |row| <= |features|
      && (forall i :: 0 <= i < |row| ==> row[i].0 in features)
      && (forall x :: x in features ==> exists i :: 0 <= i < |row| && row[i].0 == x)
      && (forall i, j :: 0 <= i < j < |row| ==> row[i].0 != row[j].0)
  {
    var row, cols := BuildRow(s, features), Columns(features);
    assert |row| == |cols| && forall i :: 0 <= i < |row| ==> row[i].0 == cols[i];
    forall x | x in features ensures exists i :: 0 <= i < |row| && row[i].0 == x {
      var i :| 0 <= i < |cols| && cols[i] == x;
      assert row[i].0 == x;
    }
  }

  /** Schema alignment: reading column `col` of the row gives `input_dict`'s
      value, or 0, when `col` is expected, and nothing when it is not. The
      value depends only on `col` and the answers. */
  lemma {:induction false} ColumnValue(s: Selection, features: seq<string>, col: string)
    ensures RowGet(BuildRow(s, features), col) == if col in features then Some(Lookup(s, col)) else None
  {
    var row := BuildRow(s, features);
    RowSchema(s, features);
    if col in features {
      var i :| 0 <= i < |row| && row[i].0 == col;
      assert row[i] == (col, Lookup(s, col));
    }
  }

  /** A slider's column, when expected, holds the slider's value. */
  lemma RowNumeric(s: Selection, features: seq<string>, f: Numeric)
    ensures RowGet(BuildRow(s, features), NumName(f)) == if NumName(f) in features then Some(NumValue(s, f)) else None
  {
    ColumnValue(s, features, NumName(f));
    NumericPassThrough(s, f);
  }

  /** A drop-down's column for answer `v`, when expected, holds 1 if `v` was
      chosen and 0 otherwise. */
  lemma RowOneHot(s: Selection, features: seq<string>, f: Categorical, v: string)
    ensures RowGet(BuildRow(s, features), OneHotKey(CatName(f), v))
         == if OneHotKey(CatName(f), v) in features then Some(if v == CatValue(s, f) then 1 else 0) else None
  {
    ColumnValue(s, features, OneHotKey(CatName(f), v));
    OneHot(s, f, v);
  }

  /** An expected column that `input_dict` lacks is filled with 0. */
  lemma RowMissingZero(s: Selection, features: seq<string>)
    ensures forall i :: 0 <= i < |BuildRow(s, features)| && BuildRow(s, features)[i].0 !in InputDict(s)
              ==> BuildRow(s, features)[i].1 == 0
  {
  }

  /** A key of `input_dict` that is not expected, such as an answer the model
      was not trained on, leaves no trace in the row. */
  lemma RowDropsUnexpected(s: Selection, features: seq<string>, col: string)
    requires col in InputDict(s) && col !in features
    ensures RowGet(BuildRow(s, features), col) == None
    ensures forall i :: 0 <= i < |BuildRow(s, features)| ==> BuildRow(s, features)[i].0 != col
  {
    ColumnValue(s, features, col);
    RowSchema(s, features);
  }

  /** Column independence: expecting one more column appends at most one cell
      and leaves every earlier cell as it was. */
  lemma RowAppend(s: Selection, features: seq<string>, x: string)
    ensures BuildRow(s, features + [x])
         == BuildRow(s, features) + (if x in features then [] else [(x, Lookup(s, x))])
  {
  }

  /** Every cell holds 0, 1 or a slider value; under the slider ranges a
      slider's cell lies within its range and every value within [0, 150]. */
  lemma RowValues(s: Selection, features: seq<string>)
    ensures forall i :: 0 <= i < |BuildRow(s, features)| ==>
      var c := BuildRow(s, features)[i];
      c.1 == 0 || c.1 == 1 || exists f: Numeric :: c.0 == NumName(f) && c.1 == NumValue(s, f)
    ensures InSliderRanges(s) ==>
      forall i, f: Numeric :: 0 <= i < |BuildRow(s, features)| && BuildRow(s, features)[i].0 == NumName(f)
        ==> SliderMin(f) <= BuildRow(s, features)[i].1 <= SliderMax(f)
    ensures InSliderRanges(s) ==> forall i :: 0 <= i < |BuildRow(s, features)| ==> 0 <= BuildRow(s, features)[i].1 <= 150
  {
    var row := BuildRow(s, features);
    forall i | 0 <= i < |row|
      ensures row[i].1 == 0 || row[i].1 == 1 || exists f: Numeric :: row[i].0 == NumName(f) && row[i].1 == NumValue(s, f)
    {
      LookupValues(s, row[i].0);
    }
    forall i, f: Numeric | 0 <= i < |row| && row[i].0 == NumName(f) ensures row[i].1 == NumValue(s, f) {
      NumericPassThrough(s, f);
    }
  }

  /** Cell `i` of a schema naming slider `f` there holds the slider's value. */
  lemma CellNumeric(s: Selection, features: seq<string>, i: nat, f: Numeric)
    requires Distinct(features) && i < |features| && features[i] == NumName(f)
    ensures |BuildRow(s, features)| == |features| && BuildRow(s, features)[i] == (NumName(f), NumValue(s, f))
  {
    NumericPassThrough(s, f);
  }

  /** Cell `i` of a schema naming the one-hot column of answer `v` there holds
      1 when `v` was chosen and 0 otherwise. */
  lemma CellOneHot(s: Selection, features: seq<string>, i: nat, f: Categorical, v: string)
    requires Distinct(features) && i < |features| && features[i] == OneHotKey(CatName(f), v)
    ensures |BuildRow(s, features)| == |features|
    ensures BuildRow(s, features)[i] == (OneHotKey(CatName(f), v), if v == CatValue(s, f) then 1 else 0)
  {
    OneHot(s, f, v);
  }

  // ---------------------------------------------------------------------
  // Worked examples

  /** The answers of the worked example. */
  predicate IsExample(s: Selection) {
    && s.gender == "Male" && s.region == "Oromia" && s.zone == "Zone 2" && s.woreda == "Woreda A"
    && s.occupation == "farmer" && s.serviceType == "fertilizer"
    && s.week == 27 && s.soilQuality == 3 && s.rainfall == 60 && s.cropPrice == 100 && s.droughtRisk == 2
  }

  /** The example's schema: the five slider columns, both gender columns and
      one column for each other chosen answer, in this order. */
  predicate IsExampleSchema(features: seq<string>) {
    && |features| == 12
    && features[0] == "week_of_year" && features[1] == "soil_quality_score" && features[2] == "rainfall_mm"
    && features[3] == "crop_price_index" && features[4] == "drought_risk_index"
    && features[5] == "gender_Male" && features[6] == "gender_Female" && features[7] == "region_Oromia"
    && features[8] == "zone_Zone 2" && features[9] == "woreda_Woreda A" && features[10] == "occupation_farmer"
    && features[11] == "service_type_fertilizer"
  }

  lemma ExampleSchemaDistinct(features: seq<string>)
    requires IsExampleSchema(features)
    ensures Distinct(features)
  {
  }

  lemma ExampleSliderCells(s: Selection, features: seq<string>)
    requires IsExampleSchema(features)
    ensures var row := BuildRow(s, features);
      && |row| == 12
      && row[0] == ("week_of_year", s.week) && row[1] == ("soil_quality_score", s.soilQuality)
      && row[2] == ("rainfall_mm", s.rainfall) && row[3] == ("crop_price_index", s.cropPrice)
      && row[4] == ("drought_risk_index", s.droughtRisk)
  {
    ExampleSchemaDistinct(features);
    CellNumeric(s, features, 0, Week);
    CellNumeric(s, features, 1, SoilQuality);
    CellNumeric(s, features, 2, Rainfall);
    CellNumeric(s, features, 3, CropPrice);
    CellNumeric(s, features, 4, DroughtRisk);
  }

  lemma ExampleGenderCells(s: Selection, features: seq<string>)
    requires IsExampleSchema(features) && s.gender == "Male"
    ensures var row := BuildRow(s, features);
      |row| == 12 && row[5] == ("gender_Male", 1) && row[6] == ("gender_Female", 0)
  {
    ExampleSchemaDistinct(features);
    CellOneHot(s, features, 5, Gender, "Male");
    CellOneHot(s, features, 6, Gender, "Female");
  }

  lemma ExampleRegionCell(s: Selection, features: seq<string>)
    requires IsExampleSchema(features) && s.region == "Oromia"
    ensures var row := BuildRow(s, features); |row| == 12 && row[7] == ("region_Oromia", 1)
  {
    ExampleSchemaDistinct(features);
    CellOneHot(s, features, 7, Region, "Oromia");
  }

  lemma ExampleZoneCells(s: Selection, features: seq<string>)
    requires IsExampleSchema(features) && s.zone == "Zone 2" && s.woreda == "Woreda A"
    ensures var row := BuildRow(s, features);
      |row| == 12 && row[8] == ("zone_Zone 2", 1) && row[9] == ("woreda_Woreda A", 1)
  {
    ExampleSchemaDistinct(features);
    assert features[8] == OneHotKey(CatName(Zone), "Zone 2");
    CellOneHot(s, features, 8, Zone, "Zone 2");
    assert features[9] == OneHotKey(CatName(Woreda), "Woreda A");
    CellOneHot(s, features, 9, Woreda, "Woreda A");
  }

  lemma ExampleWorkCells(s: Selection, features: seq<string>)
    requires IsExampleSchema(features) && s.occupation == "farmer" && s.serviceType == "fertilizer"
    ensures var row := BuildRow(s, features);
      |row| == 12 && row[10] == ("occupation_farmer", 1) && row[11] == ("service_type_fertilizer", 1)
  {
    ExampleSchemaDistinct(features);
    CellOneHot(s, features, 10, Occupation, "farmer");
    CellOneHot(s, features, 11, ServiceType, "fertilizer");
  }

  /** The full example row: every schema column in order, the chosen answers'
      columns holding 1, the unchosen `gender_Female` 0, the sliders their values. */
  lemma ExampleRow(s: Selection, features: seq<string>)
    requires IsExample(s) && IsExampleSchema(features)
    ensures BuildRow(s, features)
         == [ ("week_of_year", 27), ("soil_quality_score", 3), ("rainfall_mm", 60),
              ("crop_price_index", 100), ("drought_risk_index", 2),
              ("gender_Male", 1), ("gender_Female", 0), ("region_Oromia", 1), ("zone_Zone 2", 1),
              ("woreda_Woreda A", 1), ("occupation_farmer", 1), ("service_type_fertilizer", 1) ]
  {
    ExampleSliderCells(s, features);
    ExampleGenderCells(s, features);
    ExampleRegionCell(s, features);
    ExampleZoneCells(s, features);
    ExampleWorkCells(s, features);
  }

  /** An answer outside the region menu still produces its one-hot key in
      `input_dict`. */
  lemma UnseenRegionKey(s: Selection)
    requires s.region == "SNNPR"
    ensures !OnMenus(s) && "region_SNNPR" in InputDict(s)
  {
    assert CatValue(s, Region) !in Menu(Region);
    assert OneHotKey(CatName(Region), "SNNPR") == "region_SNNPR";
    OneHot(s, Region, "SNNPR");
  }

  /** With a schema that has no column for that answer, the key is dropped
      from the row without error, and the region column that is expected
      holds 0. */
  lemma UnseenRegion(s: Selection, features: seq<string>)
    requires s.region == "SNNPR" && IsExampleSchema(features)
    ensures RowGet(BuildRow(s, features), "region_SNNPR") == None
    ensures RowGet(BuildRow(s, features), "region_Oromia") == Some(0)
  {
    assert "region_SNNPR" !in features;
    ColumnValue(s, features, "region_SNNPR");
    assert OneHotKey(CatName(Region), "Oromia") == features[7];
    RowOneHot(s, features, Region, "Oromia");
  }

  /** A schema without `gender_Male` yields a row without that column,
      whatever was chosen. */
  lemma SchemaWithoutColumn(s: Selection, features: seq<string>)
    requires IsExampleSchema(features)
    ensures RowGet(BuildRow(s, features[..5] + features[6..]), "gender_Male") == None
  {
    var schema := features[..5] + features[6..];
    assert "gender_Male" !in schema by {
      assert forall i :: 0 <= i < |schema| ==> schema[i] == features[if i < 5 then i else i + 1];
    }
    ColumnValue(s, schema, "gender_Male");
  }
}
