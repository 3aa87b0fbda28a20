/**
  Post-processing of the estimate (app_ruko.py, section 6 of the page): the
  land total shown under the estimate per square metre.
 */
module Results {
  import opened Optional
  import opened Text
  import opened Schema
  import opened Encoding

  /** The land-area column the total is derived from. */
  const TOTAL_FIELD: string := "luas_tanah_m2"

  /** `y_pred * X_input['luas_tanah_m2']`: the asset total for a price per square metre and an area. */
  function AssetTotal(estimate: real, area: real): (total: real)
    ensures estimate > 0.0 && area > 0.0 ==> total > 0.0
  {
    estimate * area
  }

  /**
    The estimated land total: the estimate per square metre times the land
    area, present only when the input dictionary has the land-area column with a
    value above 0. A total derived from a positive estimate is positive, so an
    absent total is never confused with a zero one.
   */
  function DerivedTotal(estimate: real, x: map<string, real>): (total: Option<real>)
    ensures total.Some? && estimate > 0.0 ==> total.value > 0.0
  {
    TotalAt(estimate, x, TOTAL_FIELD)
  }

  /** The guard and product of the derived total, for the area column `field`. */
  function TotalAt(estimate: real, x: map<string, real>, field: string): Option<real>
  {
    if field in x && x[field] > 0.0 then Some(AssetTotal(estimate, x[field])) else None
  }

  /** The land-area column is numeric and its number input starts at 60. */
  lemma TotalFieldIsNumeric()
    ensures IsNumeric(TOTAL_FIELD) && DefaultValue(TOTAL_FIELD) == 60.0
  {
    assert OccursAt(TOTAL_FIELD, "luas", 0);
    DefaultMarksNumeric(TOTAL_FIELD);
  }

  /**
    The total of an encoded request: it exists exactly when the model has the
    land-area column and its number input is above 0, and is then the estimate
    times that input. An untouched input gives the estimate times 60; an input
    of 0 gives no total.
   */
  lemma TotalFromInput(names: seq<string>, entered: map<string, real>, choices: map<string, nat>, estimate: real)
    ensures DerivedTotal(estimate, InputVector(names, entered, choices)) ==
      if TOTAL_FIELD in names && NumberInput(entered, TOTAL_FIELD) > 0.0
      then Some(AssetTotal(estimate, NumberInput(entered, TOTAL_FIELD)))
      else None
    ensures TOTAL_FIELD in names && TOTAL_FIELD !in entered ==>
      DerivedTotal(estimate, InputVector(names, entered, choices)) == Some(estimate * 60.0)
    ensures TOTAL_FIELD in entered && entered[TOTAL_FIELD] == 0.0 ==>
      DerivedTotal(estimate, InputVector(names, entered, choices)) == None
  {
    TotalFieldIsNumeric();
    TotalOfEntry(names, entered, choices, estimate, TOTAL_FIELD);
  }

  /** For any numeric column, the total of an encoded request is decided by that column's number input. */
  lemma TotalOfEntry(names: seq<string>, entered: map<string, real>, choices: map<string, nat>, estimate: real, field: string)
    requires IsNumeric(field)
    ensures TotalAt(estimate, InputVector(names, entered, choices), field) ==
      if field in names && NumberInput(entered, field) > 0.0
      then Some(AssetTotal(estimate, NumberInput(entered, field)))
      else None
  {
    NumericEntry(names, entered, choices, field);
    KnownEntryTotal(estimate, InputVector(names, entered, choices), field, field in names, NumberInput(entered, field));
  }

  /** The total of a dictionary whose `field` entry is known to be absent, or present with value `v`. */
  lemma KnownEntryTotal(estimate: real, x: map<string, real>, field: string, present: bool, v: real)
    requires (field in x <==> present) && (present ==> x[field] == v)
    ensures TotalAt(estimate, x, field) == if present && v > 0.0 then Some(AssetTotal(estimate, v)) else None
  {
  }
}
