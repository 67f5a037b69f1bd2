# EV Insights: the offline chat responder and the forecast feature pipeline

This project models two parts of the EV Insights analyzer in Dafny and proves
properties of the model.

**The offline chat responder.** `get_offline_response` answers a free-text
question about electric-vehicle sales. It tries seven rules in a fixed order
and the first one that matches wins:

1. the peak year;
2. the top N regions;
3. the latest year;
4. a fixed explanation of what an EV is;
5. an explicitly named year;
6. a named region;
7. a fallback help text.

Rules 1, 2, 3, 5 and 6 answer with group-by sums over the analysis view of the
dataset. Rule 4, rule 7 and the answer when there is no data are fixed texts.
The analysis view is built by `load_data`: it keeps the "EV sales" rows, then drops the
aggregate regions "World" and "Rest of the world".

**The forecast feature pipeline.** `prepare_df_for_model` checks the training
frame. The training code then fits one label encoder per categorical column and
lays the features out as region, mode, powertrain, category, year, year².
`predict_sales` and the application's `perform_prediction` build one row from a
request.

The model is split into these modules:

- `Outcomes`: `Option` and `Result`. Python's exceptions become `Failure` values.
- `Text`: the string operations the responder relies on:
  - `str.lower` and `str.strip`;
  - substring tests;
  - the two regular expressions `top (\d+)` and `\b20\d{2}\b`;
  - code-point string order;
  - the thousands-separated integer format `{n:,}`, with a parser that inverts it.
- `Sales`:
  - records and the row filters of `load_data`;
  - the group-by sums, `idxmax`/`max`, `unique()`;
  - the `nlargest` ranking of regions.
- `Responder`:
  - the rule order and answer texts;
  - `get_offline_response` written as the if-chain;
  - the append loop of the top-N answer;
  - the scan over the unique regions.
- `ModelUtils`:
  - `prepare_df_for_model`;
  - label-encoder fitting and the training feature matrix;
  - the encoding and row assembly of `predict_sales`.
- `Prediction`: the row `perform_prediction` hands to its polynomial transform.

Conventions of the model:

- A data frame is a sequence of `Record`s. Sales values and years are integers.
- `df is None` is `Option.None`.
- On an empty table, pandas raises in two places that the model keeps:
  - `idxmax` raises `EmptyArgmax`;
  - `index[0]` of an empty `nlargest` result raises `NoTopRegion`.
- `int()` refuses a decimal string of more than 4300 digits, CPython's default
  `sys.int_max_str_digits`. A `top N` count that long raises `DigitLimit`.
- `max()` of an empty year column is NaN. The latest-year answer then prints
  `nan` and a total of 0.
- `groupby` sorts its keys, so among equal yearly sums `idxmax` picks the
  smallest year.
- `nlargest` on equal sums keeps the grouped order, which is ascending by
  region name.

## Model

| member | source | states |
|---|---|---|
| Responder.GetOfflineResponse | app.py:71-121 | The if-chain returns exactly `Answer(query, df)`. That is the answer of the first rule, in priority order, that fires on the lower-cased query, or the no-data text when df is None. |
| Responder.SelectRule | app.py:77-118 | The chosen rule fires, and no rule of higher priority fires. |
| Responder.PeakYearAnswer | app.py:77-81 | A peak word plus "year" always selects the peak-year rule. It answers with a year whose sum is maximal (smallest such year on ties) and with that sum. An empty view raises. |
| Responder.TopRegionsAnswer | app.py:84-91 | Otherwise a superlative word selects the top-regions rule. A count after `top ` of more than 4300 digits raises. Otherwise the answer lists a ranking of N regions, where N is the number after `top ` or 1. The ranking has min(N, #regions) distinct regions with their true sums, in descending sum order, and every region left out has a sum no larger. N == 1 gives a single sentence, and raises when there are no regions. |
| Responder.ListTopRegions | app.py:89-91 | The append loop yields the header followed by one numbered line per listed region, numbered from 1. |
| Responder.LatestAnswer | app.py:94-97 | The latest-year rule names a year that occurs in the view and bounds every row's year. It reports the sum of exactly that year's rows. An empty view gives `nan` and 0. |
| Responder.EvInfoAnswer | app.py:100-104 | The EV-explanation answer is the fixed text, whatever the data. |
| Responder.YearAnswer | app.py:107-112 | A standalone `20dd` token is answered with that year's sum when it is positive, and with the no-data sentence otherwise. |
| Responder.RegionAnswer | app.py:114-121 | The first region, in row order, whose lower-cased name occurs in the query is answered with its sum. When the query mentions no region, the fallback text is returned. |
| Responder.FindMentionedRegion | app.py:115-116 | The loop over `unique()` returns the first mentioned region of the region column. |
| Responder.FirstMentionedUnique | app.py:115 | `unique()` keeps first-appearance order, so scanning the distinct regions finds the same region as scanning all rows. |
| Responder.FirstMentionedEarliest | app.py:115-116 | The scan returns the earliest mentioned entry, and None exactly when no entry is mentioned. |
| Text.TopCountSpec | app.py:84-86 | N is 1 without a `top <digit>` match. Otherwise N is the decimal value of the maximal digit run after the leftmost `top `. |
| Text.TopCountTooLongSpec | app.py:84-86 | `int()` of the count raises exactly when the digit run after the leftmost `top ` has more than 4300 digits, leading zeros included. It never raises without a match. |
| Text.YearTokenSpec | app.py:107-109 | The year is found exactly when some `20dd` has word boundaries on both sides. It is the value of the leftmost such token and lies in 2000..2099. |
| Text.ToLower | app.py:73 | Lower-casing keeps the length, maps each character by itself, and leaves no upper-case ASCII letter. |
| Text.ContainsOccurs | app.py:77 | `sub in s` holds exactly when sub occurs at some position of s. |
| Text.FormatThousandsRoundTrip | app.py:81 | Reading the digits back from `{n:,}` after dropping the commas gives n, for every integer n. |
| Text.GroupedShape | app.py:81 | For a natural number, `{n:,}` has a comma at every fourth place from the right and nowhere else. Every group after the first therefore has exactly three digits, and the first has one to three. The text starts with 0 only for n = 0. |
| Text.FormatThousandsShape | app.py:81 | For a negative n, `{n:,}` is a minus sign followed by the grouped digits of -n. |
| Text.StrLessTotal | model_utils.py:51 | Code-point string order is total on distinct strings. It is the order label-encoder classes are sorted in. |
| Text.StrLessTransitive | model_utils.py:51 | Code-point string order is transitive. |
| Text.Strip | model_utils.py:110 | White space is exactly the set of characters for which Python's `str.isspace()` holds. The result has no white space at either end. It is empty when the input is all white space, and otherwise it is the input without its leading and trailing white space. |
| Text.StripIdempotent | model_utils.py:110 | Stripping twice is stripping once. |
| Sales.Where | app.py:44-45 | Row selection keeps exactly the rows satisfying the predicate, each as often as in the input. |
| Sales.WhereKeepsOrder | app.py:44-45 | Row selection keeps the rows' relative order. |
| Sales.LoadDataViews | app.py:41-47 | There are no views exactly when there is no file. The prediction-options view is the EV-sales rows. The analysis view is those rows minus the "World" and "Rest of the world" rows. Both are ordered sub-sequences of the file. |
| Sales.PeakYear | app.py:78-79 | `idxmax` over the yearly sums is a year present in the view with a maximal sum, and the smallest year on ties. |
| Sales.MaxYear | app.py:95 | The latest year occurs in the view and bounds every year. |
| Sales.Unique | app.py:115 | `unique()` has the same elements, without repeats. |
| Sales.UniqueKeepsOrder | app.py:115 | `unique()` lists the values in the order of their first appearance in the column. |
| Sales.Rank | app.py:87 | Sorting the groups gives the descending-sum order (name ascending on ties) and a permutation of its input. |
| Sales.RegionGroups | app.py:87 | The region groups have distinct keys: one per region present, carrying that region's sum. |
| Sales.TopRegionsRanking | app.py:87 | `nlargest(n)` of the region sums satisfies the ranking property stated for TopRegionsAnswer. |
| ModelUtils.PrepareDfForModel | model_utils.py:22-34 | A frame without `parameter` raises KeyError. Otherwise the first missing required column raises ValueError naming it. Otherwise the result is the EV-sales rows with the columns unchanged. |
| ModelUtils.Fit | model_utils.py:50-51 | The encoder knows exactly the distinct values of the column. |
| ModelUtils.FitCodesInRange | model_utils.py:50-51 | Codes lie in 0..k-1 for k distinct values. |
| ModelUtils.FitOrdered | model_utils.py:50-51 | Codes follow the code-point order of the values. |
| ModelUtils.FitInjective | model_utils.py:50-51 | Distinct values get distinct codes. |
| ModelUtils.FitLabelEncoders | model_utils.py:47-52 | Each of the four label columns gets its own encoder, fitted on that column. The column is replaced by its codes. |
| ModelUtils.TrainingMatrix | model_utils.py:47-62 | Every training row is encodable. The feature matrix has one row per record: its four codes, then year and year². |
| ModelUtils.PredictSalesRow | model_utils.py:107-125 | A label column with no encoder raises KeyError naming the first such column. Otherwise the row is the four stripped-and-encoded fields followed by year and year² (year 2025 when absent). |
| ModelUtils.PredictionFallbacks | model_utils.py:112-120 | A value the encoder never saw codes as 0, a known value codes as its fitted code, and a missing year is 2025. |
| ModelUtils.PredictionMatchesTraining | model_utils.py:107-125 | For a record seen in training whose fields carry no surrounding white space, prediction builds exactly that record's training row, in the same column order. |
| Prediction.SafeCode | app.py:146-148 | When column k has an encoder, `t(k, v)` codes v with the same unseen-value fallback to 0 that `predict_sales` uses. A column without an encoder also gives 0 instead of raising, unlike `predict_sales`. |
| Prediction.PerformPredictionRow | app.py:143-149 | Without artifacts the result is 0. Otherwise the row holds the four codes (0 for an unknown column or value), then the raw year. |
| Prediction.PerformPredictionWidth | app.py:149-150 | That row has 5 columns. A polynomial transform fitted on the year column takes 1, and the training layout has 6. |

## Notes on the source

- `perform_prediction` (app.py:149-150) passes a five-column row to the
  polynomial transform. The training code (model_utils.py:59-62) fits that
  transform on the year column alone and feeds the scaler six columns. The
  model keeps the row exactly as written, and `Prediction.PerformPredictionWidth`
  states the mismatch. Whatever the loaded artifacts do with that row is not
  modelled.
- The application loads `model.pkl`, `scaler.pkl`, `encoders.pkl` and
  `poly.pkl` (app.py:57). The training code writes `gbr_pipeline.joblib` and
  other `.joblib` files (model_utils.py:13-16). The model therefore treats the
  artifacts as an input that may be absent.
- `predict_sales` strips the request's fields (model_utils.py:110). Training
  encodes the column values unstripped (model_utils.py:51). A training value
  with surrounding white space is therefore never matched at prediction time.
  This is why `ModelUtils.PredictionMatchesTraining` requires trimmed fields.

## Left out

- Streamlit UI, pages, plotting, the typewriter effect and the upload validator: presentation and I/O. None of them carries logic the answers depend on.
- File access, CSV parsing and joblib loading and saving: these are I/O. A missing data file or missing artifacts appear as `None`.
- PolynomialFeatures, StandardScaler, GradientBoostingRegressor, `train_test_split`, `log1p`/`expm1`: foreign numerical code. The model stops at the row handed to them. The polynomial expansion is the two columns year and year² it yields on the year column. The label encoders are modelled only by the codes they assign, each value's rank among the sorted distinct values. Their internal arrays are not modelled.
- Floating point: sales values and years are integers. `float(year)` in `predict_sales` and `int(...)` of a float sum are not modelled.
- Non-string column values: regions and categories are strings. `astype(str)` and `str(...)` of other types are not modelled.
- Sales.LoadData: a file without a `parameter` or `region` column makes pandas raise KeyError. That case is not modelled, because records always carry these fields.
- Text.ToLower: lower-cases ASCII letters only. Unicode case mapping is not modelled.
- Text.TopCountSpec: `\d` in `top (\d+)` is taken to mean the ASCII digits. Python's `\d` and `int()` also accept other Unicode decimal digits: "top ٣" gives 3 in the application and 1 in the model. The 4300-digit limit of `int()` is fixed at CPython's default. Changing `sys.int_max_str_digits`, and Python versions without the limit, are not modelled.
- Text.YearTokenSpec: `\b` and `\d` are taken over ASCII word characters and digits. Python's Unicode classes are not modelled.
- Sales.TopRegionsRanking: on equal sums the order is assumed to be ascending by region name. That is the grouped order `nlargest` keeps in the pandas versions this code targets, but pandas does not document it.
- ModelUtils.PredictSalesRow: the lookups of the bundle's `label_encoders`, `poly`, `scaler` and `model` entries (model_utils.py:102-105), and the KeyError each raises when its entry is missing, are not modelled. The encoder dictionary is taken as given, so the model starts at the per-column loop.
- Prediction.PerformPrediction: the artifacts, when present, are reduced to their encoder dictionary. The four-way unpacking of `artifacts.values()`, and the error it raises for a dictionary without exactly four entries, is not modelled. An empty dictionary, which the loader never returns, is not modelled either.
