/**
 * The feature pipeline of the forecast model: the training-frame check, one
 * label encoder per categorical column, and the fixed-order feature row built
 * at training time and again at prediction time. The scaler, the regressor
 * and the log transforms are foreign and not modelled.
 */
module ModelUtils {
  import opened Outcomes
  import opened Text
  import opened Sales

  const RequiredColumns: seq<string> := ["region", "mode", "powertrain", "category", "year", "value"]

  /** The categorical columns, each encoded by its own label encoder. */
  const LabelColumns: seq<string> := ["region", "mode", "powertrain", "category"]

  /** The column order of the training matrix the scaler is fitted on. */
  const FeatureColumns: seq<string> := ["region", "mode", "powertrain", "category", "year", "year^2"]

  const DefaultYear: int := 2025

  /** A data frame: the names of its columns and its rows. */
  datatype Frame = Frame(columns: set<string>, rows: Table)

  datatype PrepareError =
    | KeyError(key: string)        // a column looked up by name is absent
    | ValueError(message: string)  // raised by the required-column check

  // ---------------------------------------------------------------
  // prepare_df_for_model
  // ---------------------------------------------------------------

  /**
   * The EV-sales rows of df, after checking the required columns in order.
   * Selecting rows reads the `parameter` column first, so a frame without it
   * raises KeyError before any other check.
   */
  method PrepareDfForModel(df: Frame) returns (r: Result<Frame, PrepareError>)
    ensures "parameter" !in df.columns ==> r == Failure(KeyError("parameter"))
    ensures ("parameter" in df.columns && forall k :: 0 <= k < |RequiredColumns| ==> RequiredColumns[k] in df.columns)
            ==> r == Success(Frame(df.columns, Where(df.rows, IsEvSales)))
    ensures forall k :: "parameter" in df.columns && 0 <= k < |RequiredColumns| && RequiredColumns[k] !in df.columns
                        && (forall j :: 0 <= j < k ==> RequiredColumns[j] in df.columns)
                        ==> r == Failure(ValueError("Required column missing: " + RequiredColumns[k]))
  {
    if "parameter" !in df.columns {
      return Failure(KeyError("parameter"));
    }
    var dfModel := Frame(df.columns, Where(df.rows, IsEvSales));
    for k := 0 to |RequiredColumns|
      invariant forall j :: 0 <= j < k ==> RequiredColumns[j] in df.columns
    {
      if RequiredColumns[k] !in dfModel.columns {
        return Failure(ValueError("Required column missing: " + RequiredColumns[k]));
      }
    }
    return Success(dfModel);
  }

  // ---------------------------------------------------------------
  // Label encoders
  // ---------------------------------------------------------------

  /** A fitted label encoder: the code of each string seen in training. */
  type Encoder = map<string, int>

  /** The values of `values` that sort before v. */
  function Below(values: seq<string>, v: string): set<string> {
    set w | w in values && StrLess(w, v)
  }

  lemma {:induction false} SubsetSize(a: set<string>, b: set<string>)
    requires a <= b
    ensures |a| <= |b|
    decreases |b|
  {
    if a != {} {
      var x :| x in a;
      SubsetSize(a - {x}, b - {x});
    }
  }

  lemma ProperSubsetSize(a: set<string>, b: set<string>, x: string)
    requires a <= b && x in b && x !in a
    ensures |a| < |b|
  {
    SubsetSize(a, b - {x});
  }

  lemma BelowSmaller(values: seq<string>, v: string)
    requires v in values
    ensures |Below(values, v)| < |set w | w in values|
  {
    StrLessIrreflexive(v);
    ProperSubsetSize(Below(values, v), (set w | w in values), v);
  }

  lemma BelowMonotone(values: seq<string>, a: string, b: string)
    requires a in values && StrLess(a, b)
    ensures |Below(values, a)| < |Below(values, b)|
  {
    forall w | w in Below(values, a) ensures w in Below(values, b) {
      StrLessTransitive(w, a, b);
    }
    StrLessIrreflexive(a);
    ProperSubsetSize(Below(values, a), Below(values, b), a);
  }

  /**
   * `LabelEncoder().fit(values)`: every distinct value is coded by its rank
   * among the distinct values in code-point order, so the codes are
   * 0 .. k-1 and follow that order.
   */
  function Fit(values: seq<string>): (e: Encoder)
    ensures e.Keys == set v | v in values
  {
    map v | v in values :: |Below(values, v)|
  }

  /** The codes of a fitted encoder are 0 .. k-1 for k distinct values. */
  lemma FitCodesInRange(values: seq<string>, v: string)
    requires v in values
    ensures 0 <= Fit(values)[v] < |Fit(values).Keys|
  {
    BelowSmaller(values, v);
  }

  /** A fitted encoder codes values in increasing code-point order. */
  lemma FitOrdered(values: seq<string>, a: string, b: string)
    requires a in values && b in values && StrLess(a, b)
    ensures Fit(values)[a] < Fit(values)[b]
  {
    BelowMonotone(values, a, b);
  }

  /** A fitted encoder gives different values different codes. */
  lemma FitInjective(values: seq<string>, a: string, b: string)
    requires a in values && b in values && a != b
    ensures Fit(values)[a] != Fit(values)[b]
  {
    StrLessTotal(a, b);
    if StrLess(a, b) {
      FitOrdered(values, a, b);
    } else {
      FitOrdered(values, b, a);
    }
  }

  /** `le.transform(values)` for values the encoder knows. */
  function Transform(e: Encoder, values: seq<string>): (codes: seq<int>)
    requires forall i :: 0 <= i < |values| ==> values[i] in e
    ensures |codes| == |values|
  {
    seq(|values|, i requires 0 <= i < |values| => e[values[i]])
  }

  /** The value of a categorical column in one row. */
  function Categorical(r: Record, column: string): string {
    if column == "region" then r.region
    else if column == "mode" then r.mode
    else if column == "powertrain" then r.powertrain
    else if column == "category" then r.category
    else ""
  }

  /** `df_model[column].astype(str)` for a categorical column. */
  function Column(rows: Table, column: string): (vs: seq<string>)
    ensures |vs| == |rows| && forall i :: 0 <= i < |rows| ==> vs[i] == Categorical(rows[i], column)
  {
    seq(|rows|, i requires 0 <= i < |rows| => Categorical(rows[i], column))
  }

  /** Column c of the training rows has its fitted encoder and has been replaced by its codes. */
  predicate Fitted(rows: Table, encoders: map<string, Encoder>, encoded: map<string, seq<int>>, c: string) {
    c in encoders && c in encoded && encoders[c] == Fit(Column(rows, c))
    && encoded[c] == Transform(Fit(Column(rows, c)), Column(rows, c))
  }

  /**
   * The encoder loop of `train_and_save_model`: one encoder per label column,
   * keyed by the column's name, and each column overwritten by its codes.
   */
  method FitLabelEncoders(rows: Table) returns (encoders: map<string, Encoder>, encoded: map<string, seq<int>>)
    ensures encoders.Keys == encoded.Keys == set c | c in LabelColumns
    ensures forall c :: c in LabelColumns ==> Fitted(rows, encoders, encoded, c)
  {
    encoders, encoded := map[], map[];
    for k := 0 to |LabelColumns|
      invariant encoders.Keys == encoded.Keys == set c | c in LabelColumns[..k]
      invariant forall c :: c in LabelColumns[..k] ==> Fitted(rows, encoders, encoded, c)
    {
      var col := LabelColumns[k];
      var values := Column(rows, col);
      var le := Fit(values);
      encoded := encoded[col := Transform(le, values)];
      encoders := encoders[col := le];
      assert LabelColumns[..k + 1] == LabelColumns[..k] + [col];
    }
    assert LabelColumns[..|LabelColumns|] == LabelColumns;
  }

  // ---------------------------------------------------------------
  // Feature rows
  // ---------------------------------------------------------------

  /** `PolynomialFeatures(degree=2, include_bias=False)` on the year: [year, year^2]. */
  function YearPoly(year: int): (p: seq<int>)
    ensures |p| == 2 && p[0] == year && p[1] == year * year
  {
    [year, year * year]
  }

  /** Whether the encoders can code every categorical field of the row. */
  predicate Encodable(encoders: map<string, Encoder>, r: Record) {
    && "region" in encoders && r.region in encoders["region"]
    && "mode" in encoders && r.mode in encoders["mode"]
    && "powertrain" in encoders && r.powertrain in encoders["powertrain"]
    && "category" in encoders && r.category in encoders["category"]
  }

  /** The training-matrix row of one record: its four codes, then the year expansion. */
  function TrainingRow(encoders: map<string, Encoder>, r: Record): (row: seq<int>)
    requires Encodable(encoders, r)
    ensures |row| == |FeatureColumns|
  {
    [encoders["region"][r.region], encoders["mode"][r.mode],
     encoders["powertrain"][r.powertrain], encoders["category"][r.category]] + YearPoly(r.year)
  }

  /**
   * The feature matrix of `train_and_save_model`, columns in the order
   * region, mode, powertrain, category, year, year^2, one row per record.
   */
  method TrainingMatrix(rows: Table) returns (encoders: map<string, Encoder>, x: seq<seq<int>>)
    ensures encoders.Keys == set c | c in LabelColumns
    ensures forall c :: c in LabelColumns ==> encoders[c] == Fit(Column(rows, c))
    ensures forall i :: 0 <= i < |rows| ==> Encodable(encoders, rows[i])
    ensures |x| == |rows| && forall i :: 0 <= i < |rows| ==> x[i] == TrainingRow(encoders, rows[i])
  {
    var encoded;
    encoders, encoded := FitLabelEncoders(rows);
    assert LabelColumns[0] in LabelColumns && LabelColumns[1] in LabelColumns;
    assert LabelColumns[2] in LabelColumns && LabelColumns[3] in LabelColumns;
    assert Fitted(rows, encoders, encoded, "region") && Fitted(rows, encoders, encoded, "mode");
    assert Fitted(rows, encoders, encoded, "powertrain") && Fitted(rows, encoders, encoded, "category");
    x := seq(|rows|, i requires 0 <= i < |rows| =>
           [encoded["region"][i], encoded["mode"][i], encoded["powertrain"][i], encoded["category"][i]]
           + YearPoly(rows[i].year));
    forall i | 0 <= i < |rows|
      ensures Encodable(encoders, rows[i]) && x[i] == TrainingRow(encoders, rows[i])
    {
      EncodedRow(rows, encoders, encoded, i);
    }
  }

  lemma EncodedRow(rows: Table, encoders: map<string, Encoder>, encoded: map<string, seq<int>>, i: nat)
    requires i < |rows|
    requires Fitted(rows, encoders, encoded, "region") && Fitted(rows, encoders, encoded, "mode")
    requires Fitted(rows, encoders, encoded, "powertrain") && Fitted(rows, encoders, encoded, "category")
    ensures Encodable(encoders, rows[i])
    ensures [encoded["region"][i], encoded["mode"][i], encoded["powertrain"][i], encoded["category"][i]]
            + YearPoly(rows[i].year) == TrainingRow(encoders, rows[i])
  {
    EncodedAt(rows, "region", i);
    EncodedAt(rows, "mode", i);
    EncodedAt(rows, "powertrain", i);
    EncodedAt(rows, "category", i);
  }

  /** The i-th code of an encoded column is the code of the i-th row's value. */
  lemma EncodedAt(rows: Table, c: string, i: nat)
    requires i < |rows|
    ensures Categorical(rows[i], c) in Fit(Column(rows, c))
    ensures |Transform(Fit(Column(rows, c)), Column(rows, c))| == |rows|
    ensures Transform(Fit(Column(rows, c)), Column(rows, c))[i] == Fit(Column(rows, c))[Categorical(rows[i], c)]
  {
    assert Column(rows, c)[i] == Categorical(rows[i], c);
  }

  /** A prediction request: named categorical fields and an optional year. */
  datatype PredictInput = PredictInput(fields: map<string, string>, year: Option<int>)

  /** `str(input_dict.get(c, "")).strip()`. */
  function InputField(input: PredictInput, c: string): string {
    Strip(if c in input.fields then input.fields[c] else "")
  }

  /** `le.transform([v])[0]`, with 0 for a value the encoder never saw. */
  function EncodeOrZero(e: Encoder, v: string): int {
    if v in e then e[v] else 0
  }

  /** Whether there is an encoder for every label column. */
  predicate HasEncoders(encoders: map<string, Encoder>) {
    "region" in encoders && "mode" in encoders && "powertrain" in encoders && "category" in encoders
  }

  /** The four codes of a request, in label-column order. */
  function InputCodes(encoders: map<string, Encoder>, input: PredictInput): (codes: seq<int>)
    requires HasEncoders(encoders)
    ensures |codes| == |LabelColumns|
  {
    [EncodeOrZero(encoders["region"], InputField(input, "region")),
     EncodeOrZero(encoders["mode"], InputField(input, "mode")),
     EncodeOrZero(encoders["powertrain"], InputField(input, "powertrain")),
     EncodeOrZero(encoders["category"], InputField(input, "category"))]
  }

  /**
   * The encoding loop and row assembly of `predict_sales`, up to the scaler.
   * A label column without an encoder raises KeyError; an unknown value codes
   * as 0; a missing year is 2025.
   */
  method PredictSalesRow(encoders: map<string, Encoder>, input: PredictInput) returns (r: Result<seq<int>, PrepareError>)
    ensures forall k :: 0 <= k < |LabelColumns| && LabelColumns[k] !in encoders
                        && (forall j :: 0 <= j < k ==> LabelColumns[j] in encoders)
                        ==> r == Failure(KeyError(LabelColumns[k]))
    ensures HasEncoders(encoders) ==>
              r == Success(InputCodes(encoders, input) + YearPoly(input.year.GetOr(DefaultYear)))
  {
    var xRow: map<string, int> := map[];
    for k := 0 to |LabelColumns|
      invariant forall j :: 0 <= j < k ==> LabelColumns[j] in encoders && LabelColumns[j] in xRow
      invariant forall j :: 0 <= j < k ==>
        xRow[LabelColumns[j]] == EncodeOrZero(encoders[LabelColumns[j]], InputField(input, LabelColumns[j]))
    {
      var c := LabelColumns[k];
      var val := InputField(input, c);
      if c !in encoders {
        return Failure(KeyError(c));
      }
      var le := encoders[c];
      var enc := EncodeOrZero(le, val);
      xRow := xRow[c := enc];
    }
    assert LabelColumns[0] in xRow && LabelColumns[1] in xRow && LabelColumns[2] in xRow && LabelColumns[3] in xRow;
    var year := input.year.GetOr(DefaultYear);
    assert [xRow["region"], xRow["mode"], xRow["powertrain"], xRow["category"]] == InputCodes(encoders, input);
    assert [xRow["region"], xRow["mode"], xRow["powertrain"], xRow["category"], year, year * year]
        == InputCodes(encoders, input) + YearPoly(year);
    return Success([xRow["region"], xRow["mode"], xRow["powertrain"], xRow["category"], year, year * year]);
  }

  /** An unseen value codes as 0, a known one as its fitted code, and a missing year becomes 2025. */
  lemma PredictionFallbacks(encoders: map<string, Encoder>, input: PredictInput, k: nat)
    requires HasEncoders(encoders)
    requires k < |LabelColumns|
    ensures var c := LabelColumns[k]; var v := InputField(input, c);
      InputCodes(encoders, input)[k] == if v in encoders[c] then encoders[c][v] else 0
    ensures input.year.None? ==> YearPoly(input.year.GetOr(DefaultYear)) == [2025, 2025 * 2025]
  {
  }

  /** The prediction request for a training record. */
  function InputOf(r: Record): PredictInput {
    PredictInput(map["region" := r.region, "mode" := r.mode, "powertrain" := r.powertrain, "category" := r.category],
                 Some(r.year))
  }

  /**
   * Prediction builds, for a record seen in training, exactly the row the
   * training matrix holds for it, so the scaler sees the columns it was
   * fitted on, in the same order. This needs the record's categorical values
   * to carry no surrounding white space, which prediction strips.
   */
  lemma PredictionMatchesTraining(encoders: map<string, Encoder>, r: Record)
    requires Encodable(encoders, r)
    requires Strip(r.region) == r.region && Strip(r.mode) == r.mode
    requires Strip(r.powertrain) == r.powertrain && Strip(r.category) == r.category
    ensures InputCodes(encoders, InputOf(r)) + YearPoly(InputOf(r).year.GetOr(DefaultYear)) == TrainingRow(encoders, r)
  {
    var input := InputOf(r);
    assert InputField(input, "region") == r.region;
    assert InputField(input, "mode") == r.mode;
    assert InputField(input, "powertrain") == r.powertrain;
    assert InputField(input, "category") == r.category;
  }
}
