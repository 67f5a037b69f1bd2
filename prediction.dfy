/**
 * The application's own prediction function: the encoded request row it
 * hands to the loaded polynomial transform. The transform, the scaler and
 * the regressor are foreign and not modelled.
 */
module Prediction {
  import opened Outcomes
  import opened ModelUtils

  /** What `perform_prediction` does: return 0, or pass a row to the pipeline. */
  datatype Outcome =
    | Zero                          // no artifacts were loaded
    | Forecast(polyInput: seq<int>) // the row given to `poly.transform`

  /**
   * The nested `t(k, v)`: the code of v under the encoder for column k, or 0
   * when there is no such encoder (KeyError) or it never saw v (ValueError).
   */
  function SafeCode(encoders: map<string, Encoder>, column: string, v: string): (code: int)
    ensures column in encoders ==> code == ModelUtils.EncodeOrZero(encoders[column], v)
    ensures column !in encoders ==> code == 0
  {
    if column in encoders && v in encoders[column] then encoders[column][v] else 0
  }

  /**
   * `perform_prediction(artifacts, region, mode, powertrain, category, year)`,
   * with `artifacts` reduced to its encoder dictionary.
   */
  function PerformPrediction(artifacts: Option<map<string, Encoder>>,
                             region: string, mode: string, powertrain: string, category: string,
                             year: int): Outcome
  {
    match artifacts
    case None => Zero
    case Some(enc) =>
      Forecast([SafeCode(enc, "region", region), SafeCode(enc, "mode", mode),
                SafeCode(enc, "powertrain", powertrain), SafeCode(enc, "category", category), year])
  }

  /** The categorical argument of perform_prediction for a label column. */
  function Argument(k: nat, region: string, mode: string, powertrain: string, category: string): string
    requires k < |LabelColumns|
  {
    [region, mode, powertrain, category][k]
  }

  /**
   * Without artifacts the answer is 0. Otherwise the row holds, per label
   * column in training order, the argument's code (0 when column or value are
   * unknown), then the raw year: five columns, no year^2.
   */
  lemma PerformPredictionRow(artifacts: Option<map<string, Encoder>>,
                             region: string, mode: string, powertrain: string, category: string, year: int)
    ensures artifacts.None? <==> PerformPrediction(artifacts, region, mode, powertrain, category, year) == Zero
    ensures artifacts.Some? ==>
      var row := PerformPrediction(artifacts, region, mode, powertrain, category, year).polyInput;
      |row| == |LabelColumns| + 1 && row[|LabelColumns|] == year &&
      forall k :: 0 <= k < |LabelColumns| ==>
        var c := LabelColumns[k];
        var v := Argument(k, region, mode, powertrain, category);
        row[k] == (if c in artifacts.value && v in artifacts.value[c] then artifacts.value[c][v] else 0)
  {
  }

  /** The number of input columns of the polynomial transform the training code fits: the year alone. */
  const PolyInputWidth: nat := 1

  /**
   * The row perform_prediction passes on is neither what a polynomial
   * transform fitted on the year column accepts, nor the training layout
   * that the scaler was fitted on.
   */
  lemma PerformPredictionWidth(artifacts: Option<map<string, Encoder>>,
                               region: string, mode: string, powertrain: string, category: string, year: int)
    requires artifacts.Some?
    ensures var row := PerformPrediction(artifacts, region, mode, powertrain, category, year).polyInput;
            |row| != PolyInputWidth && |row| != |FeatureColumns|
  {
  }
}
