# Stock-price preprocessing: a verified model

This project models the data-preparation core of a stock-price prediction
system. It covers three pieces.

**The feature engine and its filters.** The engine exists in two versions that share it:
- the packaged `DataPreprocessor` class in `src/data/data_preprocessing.py`;
- the flat script `data_preprocessing.py`.

For every ticker (`Stock_Name`) and every window `i` of the time span, the engine
adds to the table:
- a lag of `Close`;
- a trailing rolling mean;
- a rolling standard deviation, except for `i = 1`.

It also adds `Price_Change`, `Price_Change_Percentage`, `Price_Trend`, `Date` and
the lags of `Price_Change`. "Earlier" always means earlier in table order among
rows of the same ticker.

After the engine come the filters and projections:
- a vocabulary filter (the label encoder's classes);
- the script's `target` column and `dropna`;
- the ticker encoding;
- the projection on the feature columns;
- the outlier filter driven by the isolation forest's labels;
- the scaler.

**Dataset validation.** `validate_dataframe` in `src/utils/validation.py`
returns a record whose flag, lists and message agree.

**The model-bundle loader.** `ModelLoader` in `src/models/model_loader.py`
checks the five required components, keeps them, stamps the load time, and
wraps every failure in one error prefix.

## How the model is built

**Tables.** A table is a `Frames.Frame`: column names, a map from name to column, and
a row index, all of the same length. A cell is `Null` (pandas NaN), a real
number, a text, or `Opaque`. `Opaque` is a non-null float whose value is not
modelled.

The pandas object that the source mutates is the class `Frames.DataFrame`. Its
methods (`Assign`, `Drop`, `DropNa`, `Filter`, `Copy`, `Column`) are proved
against value functions on `Frame`.

**Grouped operations.** All grouped operations are built on `Grouping.History`, the values of one ticker
in table order:
- `Grouping.Causal` computes a row from its ticker's history up to and
  including that row; shift by n ≥ 0, rolling, diff and pct_change use it;
- `Grouping.Anticausal` looks at the following rows instead; shift by −1 uses it.

A null ticker gives null, as pandas' `groupby` drops NaN keys.

**The fitted objects** are inputs:
- the label encoder is its class list;
- the isolation forest is a label per row;
- the scaler is a width and a row-to-row function;
- the pickle file is a `ModelFile`: absent, unreadable, or a map of components;
- the clock's reading is a string.

**In-place code stays imperative.** The time- and price-feature loops, the ticker encoding and the script's
outlier step are methods that change a `DataFrame`. The component check is a
loop. The loader is a class whose `LoadModel` assigns its five fields and its
timestamp.

## Model

| member | source | states |
|---|---|---|
| Features.LagIsNthEarlier | src/data/data_preprocessing.py:64 | `lag_n` at a row is null when the row has no ticker or fewer than n earlier rows of its ticker. Otherwise it is the close of the row with exactly n fewer same-ticker predecessors, which lies at or before it. Rows of other tickers never contribute. |
| Features.RollingMeanIsMeanOfLags | src/data/data_preprocessing.py:65-70 | `rolling_mean_w` at a row is the sum of the current close and the w−1 preceding same-ticker closes divided by w, and null when any of them is missing. |
| Features.RollingMeanPresent | src/data/data_preprocessing.py:65-70 | Over numeric closes, the rolling mean is non-null exactly when at least w same-ticker rows end at the current one. |
| Features.RollingMeanOfOne | src/data/data_preprocessing.py:65-70 | `rolling_mean_1` equals `Close` on every row with a ticker. |
| Features.RollingStdPattern | src/data/data_preprocessing.py:72-77 | The rolling standard deviation is non-null exactly when w ≥ 2 and the rolling mean of the same window is non-null. |
| ColumnNames.NoStdOfOne | src/data/data_preprocessing.py:71 | No window adds a column named `rolling_std_1`. |
| ColumnNames.SpanNamesDistinct | src/data/data_preprocessing.py:62-77 | The columns of different windows never collide. None of them is `Stock_Name`, `Close`, a price feature, `target` or `Stock_encoded`. |
| EngineProperties.NoRollingStdOfOne | src/data/data_preprocessing.py:71 | After the time features, `rolling_std_1` exists only if it was already in the input. |
| Features.PriceChangeIsCloseMinusLag1 | src/data/data_preprocessing.py:82 | `Price_Change` is the close minus the previous same-ticker close. It is null on each ticker's first row. |
| Features.PctChangeIsRatio | src/data/data_preprocessing.py:83 | `Price_Change_Percentage` is the change divided by the previous same-ticker close when that close is a nonzero number. It is infinite (`Opaque`) for a nonzero change from zero, and null for zero over zero, on a ticker's first row, next to a null close, and on a row without a ticker. |
| Features.PriceChangeLagIsDiffOfLags | src/data/data_preprocessing.py:87-90 | `price_change_lagN` equals `lag_N` minus `lag_(N+1)` of the close. It is non-null only with at least N+1 earlier same-ticker rows. |
| Features.Trend | src/data/data_preprocessing.py:84 | `Price_Trend` is 1 exactly when `Price_Change` is a number strictly above 0. Otherwise it is 0, including for zero, negative and null changes. |
| Features.TrendIsCloseAboveLag1 | src/data/data_preprocessing.py:82-84 | The trend is 1 exactly when the row's close is strictly above the previous same-ticker close. |
| Grouping.CausalOwnPast | src/data/data_preprocessing.py:64-83 | A grouped shift, rolling, diff or pct_change cell depends only on the values of its own ticker's rows at or before it; changing any other row's value cannot change it. |
| Features.TrendSelect | src/data/data_preprocessing.py:84 | The trend rule is row-wise, so it commutes with any row filter. |
| FeatureEngine.InputError | src/data/data_preprocessing.py:64-82 | The grouped operations fail exactly when `Stock_Name` or `Close` is absent, or `Close` holds a cell that is neither a number nor null: text, or a non-finite float (`Opaque`). The last case is an error pandas does not raise; see "Left out". |
| FeatureEngine.TimeRunOutcome | src/data/data_preprocessing.py:62-77 | The window loop succeeds exactly when the span is empty or the inputs are usable, and then adds every window's columns. Otherwise it fails in the first window with the input error. It leaves the table unchanged, or with the first lag column assigned when `Close` holds a cell that is neither a number nor null. |
| FeatureEngine.AddSpanInPlace | src/data/data_preprocessing.py:63-77 | Adding one window in place leaves the table the one-window step describes: lag, mean and, for i ≠ 1, std columns. When `Close` holds a cell that is neither a number nor null, only the lag column is added. |
| FeatureEngine.CreateTimeFeatures | src/data/data_preprocessing.py:60-77 | The loop over the time span changes the table and reports exactly as the window-by-window run does. |
| FeatureEngine.AddChangeLagsInPlace | src/data/data_preprocessing.py:87-90 | The loop over `[1, 3, 7]` leaves the table with each lag of `Price_Change` added. |
| FeatureEngine.AddBasePriceFeatures | src/data/data_preprocessing.py:82-85 | The four assignments leave the change, percentage change, trend and `Date` (the row index) columns. |
| FeatureEngine.CreatePriceFeatures | src/data/data_preprocessing.py:79-90 | It fails before any change exactly when the inputs are unusable. Otherwise the table becomes the price features of the old table. |
| FeatureEngine.EngineerInPlace | src/data/data_preprocessing.py:51-52 | Time then price features in place. It succeeds exactly when the inputs are usable and then yields `Engineer` of the old table; the error is the input error. |
| FeatureEngine.Engineer | src/data/data_preprocessing.py:51-52 | The engine fails exactly on unusable inputs. On success it keeps the index, `Stock_Name` and `Close`. |
| EngineProperties.TimeFeaturesData | src/data/data_preprocessing.py:62-77 | The time features add exactly the window columns on top of the input columns. |
| EngineProperties.TimeColumnsKeys | src/data/data_preprocessing.py:62-77 | A name is added by the time features exactly when it is one of some window's names. |
| EngineProperties.PriceFeaturesData | src/data/data_preprocessing.py:82-90 | The price features add exactly the seven price columns on top of the input columns. |
| EngineProperties.EngineerTimeColumn | src/data/data_preprocessing.py:62-77 | After the whole engine, each window's lag, mean and (i ≠ 1) std columns hold the grouped shift, rolling mean and rolling std of the input closes. Nothing later overwrites them. |
| EngineProperties.EngineerPriceColumns | src/data/data_preprocessing.py:82-90 | After the whole engine, the change, percentage, trend, `Date` and change-lag columns hold the grouped diff, the grouped percentage change, the trend of the diff, the index and the grouped shifts of the diff. |
| EngineProperties.EngineerSelect | src/data/data_preprocessing.py:51-55 | For a row filter that keeps or drops whole tickers, filtering after the engine equals running the engine on the filtered table. Kept rows carry the same feature values. |
| Vocabulary.VocabularyMask | src/data/data_preprocessing.py:55 | A row is kept exactly when its ticker is in the encoder's classes. |
| Vocabulary.KeepVocabularyRows | src/data/data_preprocessing.py:55 | The vocabulary filter's output is the subsequence of input rows whose ticker is in the classes, in their original order. Every such row appears. |
| Vocabulary.KeepVocabularyIdempotent | src/data/data_preprocessing.py:55 | Filtering twice equals filtering once. |
| Vocabulary.VocabularyKeepsGroups | src/data/data_preprocessing.py:55 | The vocabulary filter keeps or drops each ticker whole. |
| Preprocessor.FilterAfterFeatures | src/data/data_preprocessing.py:51-55 | When the engine succeeds on the whole table, it succeeds on the vocabulary-filtered table, and filtering after the features equals the features of the filtered table. The converse does not hold: a dropped ticker with an unusable close still makes the source fail. |
| Preprocessor.DataPreprocessor.constructor | src/data/data_preprocessing.py:21-32 | The time span and feature list are the configuration's values. |
| Preprocessor.DataPreprocessor.PreprocessData | src/data/data_preprocessing.py:35-58 | It succeeds exactly on usable inputs, returning a fresh table: the features of a copy, filtered to the vocabulary. The input is not changed, and the error is the engine's. |
| Vocabulary.Encode | src/data/data_preprocessing.py:95 | Encoding succeeds exactly when every ticker is a known class, giving one in-range code per row. Otherwise it fails naming the unseen labels. |
| Vocabulary.DecodeEncode | src/data/data_preprocessing.py:95 | Decoding the codes gives back the tickers. |
| Vocabulary.EncodeDecode | src/data/data_preprocessing.py:95 | With distinct classes, encoding decoded codes gives back the codes. |
| Vocabulary.EncodeStockNames | src/data/data_preprocessing.py:92-97 | On success the table gains exactly `Stock_encoded` with the codes, and the rows are unchanged. It fails, unchanged, on a missing `Stock_Name` or an unseen ticker. The script's `encode_stock_names` (data_preprocessing.py:44-47) is the same code. |
| Vocabulary.EncodeAfterFilter | data_preprocessing.py:35-47 | After the vocabulary filter, encoding cannot fail. |
| Frames.Project | src/data/data_preprocessing.py:103 | Selection succeeds exactly when every requested name exists. It gives exactly those columns in the requested order, with rows and index unchanged; otherwise it names the absent ones. |
| Preprocessor.DataPreprocessor.SelectFeatures | src/data/data_preprocessing.py:99-103 | It returns a fresh table equal to the projection on the configured feature columns, or the projection's error. |
| Outliers.InlierMask | src/data/data_preprocessing.py:109 | A row is kept exactly when its label is 1. |
| Outliers.KeepInliersRows | src/data/data_preprocessing.py:109-112 | The output is the subsequence of rows labelled 1, in order. Every such row appears. |
| Outliers.OutlierCountIsRowsRemoved | src/data/data_preprocessing.py:110-112 | The reported outlier count equals input rows minus output rows. |
| Preprocessor.DataPreprocessor.RemoveOutliers | src/data/data_preprocessing.py:105-112 | It returns a fresh table of the inlier rows and a count equal to the rows removed. |
| Scaling.Scale | src/data/data_preprocessing.py:114-129 | Scaling fails on a column count differing from the scaler's width. On success each row is the transform of the input row, and column names and index are kept. The script's `scaling_data` (data_preprocessing.py:71-76) is the same code. |
| Scaling.ScaleRoundTrip | src/data/data_preprocessing.py:123-126 | Scaling with a transform and then its inverse gives back the table. |
| Preprocessor.DataPreprocessor.ScaleFeatures | src/data/data_preprocessing.py:114-129 | It returns a fresh table equal to the scaled table, or the scaler's error. |
| Script.FeatureColsNames | data_preprocessing.py:10-12 | The twelve feature columns are, in order:<br>• the encoded ticker;<br>• the rolling means of windows 1, 3, 7 and 14;<br>• the rolling standard deviations of windows 3, 7 and 14;<br>• the change lags 1, 3 and 7;<br>• the trend.<br>They are distinct. |
| Script.PreprocessData | data_preprocessing.py:13-42 | It returns no table exactly when the engine's inputs are unusable (the caught exception). Otherwise it returns a fresh table: the features, the vocabulary filter, `target`, then `dropna`. |
| Script.FilterAndTarget | data_preprocessing.py:35-37 | Filter, target and `dropna` in place leave the `dropna` of the targeted, filtered table. |
| Script.TargetIsNextClose | data_preprocessing.py:36 | `target` is the close of the next same-ticker row. It is null on each ticker's last row. |
| Script.TargetedColumns | data_preprocessing.py:35-36 | `target` is computed on the filtered rows only, so dropped tickers never feed it. |
| Frames.DropNullsComplete | data_preprocessing.py:37 | Every row after `dropna` has no null, and it comes from a complete input row. |
| Frames.DropNullsKeepsComplete | data_preprocessing.py:37 | Every complete input row survives `dropna` with its cells and index, placed after the complete rows before it. |
| Script.SurvivorsHaveHistory | data_preprocessing.py:8-37 | A row survives `dropna` only with at least 14 earlier same-ticker rows and a later one. |
| Script.PreparedKeysKnown | data_preprocessing.py:35-47 | Every ticker left by `preprocess_data` encodes. |
| Script.FeatureColumns | data_preprocessing.py:49-60 | It returns exactly the requested columns in order when all exist. A missing name yields no partial table but the unbound `new_db` error. |
| Script.Selected | data_preprocessing.py:85-87 | When the chain of preprocessing, encoding and feature selection succeeds, the columns are the twelve feature columns. |
| Script.ScriptReachesOutlierRemoval | data_preprocessing.py:85-87 | On usable inputs, that chain always succeeds. |
| Outliers.RemoveOutliersScript | data_preprocessing.py:62-69 | The input gains the `outlier` column. The result is a fresh table of the inlier rows without that column. |
| Outliers.RemoveOutliersScriptColumns | data_preprocessing.py:65-67 | Adding the label column, filtering and dropping it equals filtering alone. The output columns equal the input columns. |
| Frames.DataFrame.Assign | src/data/data_preprocessing.py:64 | Assigning a column gives `WithColumn` of the old table. |
| Frames.DataFrame.Filter | src/data/data_preprocessing.py:55 | Filtering gives a fresh table of the masked rows. |
| Frames.DataFrame.DropNa | data_preprocessing.py:37 | `dropna` in place leaves the rows without nulls. |
| Frames.DataFrame.Drop | data_preprocessing.py:67 | Dropping a column gives `WithoutColumn` of the old table. |
| Frames.DataFrame.Column | src/data/data_preprocessing.py:64 | Reading a column succeeds exactly when it exists and returns it; otherwise a `KeyError` naming it. |
| Frames.DataFrame.Copy | src/data/data_preprocessing.py:47 | The copy is fresh and holds the same table. |
| Validation.ValidateDataFrame | src/utils/validation.py:5-50 | `is_valid` holds exactly when both lists are empty, and exactly when every required column exists and is not over the threshold. `error_message` is `None` exactly when valid. |
| Validation.MissingColumnsReported | src/utils/validation.py:32-37 | With an absent required column, the result is invalid. Its missing list is exactly the absent required names, each once; it flags nothing for nulls; the message starts "Missing required columns: ". |
| Validation.ThresholdReported | src/utils/validation.py:40-48 | With every required column present, nothing is missing. The flagged columns are exactly the required ones whose null share is strictly above the threshold, and an invalid result's message starts with the threshold prefix. |
| Validation.OnlyRequiredColumnsMatter | src/utils/validation.py:40 | Tables that agree on the required columns validate alike. |
| Validation.HighMissing | src/utils/validation.py:40-45 | The flagged columns are the subsequence of `required_columns`, in its order and with its repeats, of the names present and strictly over the threshold. |
| Validation.ValidateWithDefault | src/utils/validation.py:5-8 | Without a threshold, a table is valid exactly when every required column exists with a null share of at most 0.1. |
| Validation.DefaultThresholdBoundary | src/utils/validation.py:41 | Under the default threshold, a null share of exactly one tenth passes and a larger one fails. |
| Validation.ExceedsExtremes | src/utils/validation.py:41 | A column with no nulls passes any non-negative threshold. A column of nulls fails every threshold below 1. |
| Validation.NullCount | src/utils/validation.py:40 | The null count is at most the column length, and zero exactly when no cell is null. |
| ModelLoading.MissingComponents | src/models/model_loader.py:63-66 | The reported components are exactly the required ones absent from the bundle, each once. |
| ModelLoading.MissingComponentsInOrder | src/models/model_loader.py:63-66 | The reported components are the subsequence of the five required names, in declaration order, that the bundle lacks. |
| ModelLoading.CollectMissing | src/models/model_loader.py:63-66 | The loop collects exactly the filter of the required names by absence, which `Frames.WhereSelect` shows keeps declaration order. Each step appends the next absent name at the end (`Frames.WhereSnoc`). |
| ModelLoading.ValidateModelComponents | src/models/model_loader.py:53-71 | It fails exactly when a required component is absent, with the prefixed comma-joined list. |
| ModelLoading.ExtraKeysIgnored | src/models/model_loader.py:64-66 | Bundles that agree on the required names report the same missing components, whatever else they hold. |
| ModelLoading.EmptyBundleMissesAll | src/models/model_loader.py:31-37 | An empty bundle misses all five components, in declaration order. |
| ModelLoading.LoadFailure | src/models/model_loader.py:74-105 | A load fails exactly unless the file is a readable bundle holding all five components. Every failure message starts "Error loading model: ". |
| ModelLoading.ModelLoader.constructor | src/models/model_loader.py:49-50 | A new loader has its path set and no timestamp or components. |
| ModelLoading.ModelLoader.LoadModel | src/models/model_loader.py:74-105 | It succeeds exactly when the load does not fail, and then each of the five fields holds its bundle entry and the timestamp is set. On failure nothing changes, and the error is the prefixed message. |
| ModelLoading.ModelLoader.KeepComponents | src/models/model_loader.py:93-99 | The five fields hold the bundle's entries and the timestamp is set. |
| ModelLoading.ModelLoader.Create | src/models/model_loader.py:39-51 | A loader exists exactly when the load succeeds. It is then stamped, and each of its five component fields holds the bundle's entry. Otherwise the error is the load's. |
| ModelLoading.ModelLoader.GetModelInfo | src/models/model_loader.py:107-118 | The info lists exactly the five component names in declaration order. The timestamp is shown as `None` before a load. |

## Left out

- The YAML configuration is left out. The `DataPreprocessor` constructor takes the time span and feature list, and the loader takes the model path.
- CSV loading is left out, and so is the lazy data cache.
- Logging, the timers and the `print` calls are left out; they have no functional effect.
- Unpickling is replaced by the `ModelFile` input, and `datetime.now()` by a string parameter.
- The values of the rolling standard deviation are not modelled, because they need a square root. They are `Opaque` non-null cells; only their null pattern is modelled.
- Features.PctOf: `Price_Change_Percentage` is the exact real ratio `(cur - prev) / prev` on a nonzero previous close, without float rounding. Its infinite value (a nonzero change from zero) is the `Opaque` cell, so the sign of the infinity is not modelled. `pct_change`'s default padding of nulls inside a ticker (it carries the last close across a null) is not modelled: the model gives null next to a null close.
- FeatureEngine.Engineer: a text `Close` is reported as one error at the first rolling mean, or at the diff when the time span is empty; the shift before it reads text without failing. The model does not say which pandas exception type arises.
- FeatureEngine.InputError: an input `Close` holding a non-finite float (`inf`, an `Opaque` cell) is treated as an error. pandas computes the grouped shift, rolling and diff over it without raising. Only closes that are finite numbers or null are modelled as usable.
- Numeric closes are reals. Floating-point rounding of the mean is not modelled.
- A rolling window of 0 is not used by the source and is not given meaning beyond what `MeanOf` computes.
- Preprocessor.DataPreprocessor.constructor: the time span is a sequence of natural numbers. For a negative configured window `-n`, the source first assigns `lag_-n` from a lead and then fails in `rolling`; that path is not modelled.
- Tables are assumed to have distinct column names. A pandas frame with repeated names is not modelled.
- Rows are identified by position. Index alignment caused by a repeated `Date` index is not modelled.
- Vocabulary.Encode: the unseen-label error lists the unseen tickers in row order. The label encoder's own message (sorted, deduplicated) is not modelled.
- Scaling.Scale: the scaler's arithmetic and its rejection of non-numeric cells are abstract. The transform is a given function.
- Validation.MissingColumns: the source builds the list from a Python set, whose order is unspecified. The model lists the names in the order of `required_columns`, one of the orders the source may give. The message shows them in that same order.
- Validation.Quote: Python's `repr` of a name is modelled as the name in single quotes. Names holding quotes or backslashes are not covered.
- ModelLoading.ModelLoader.GetModelInfo: `str(datetime)` is modelled as the given timestamp string.
- Script.PreprocessData: only the engine's input errors are modelled as the caught exception. The printed message is not modelled.
- Script.FeatureColumns: the printed `KeyError` message is not modelled; only the failing `return` is.
- `data_preprocessing.py` at lines 81-92 is only modelled as far as `Script.Selected`, covering preprocessing, encoding and feature selection. The rest is wiring of loaded objects and printing.
- `prediction.py`, `src/main.py`, the data loaders, the logger and the monitoring helpers are not part of this model.
- The root `model_loader.py` only prints and swallows errors, so it is not part of this model.
- The engine's column order is modelled: `WithColumn` appends a new name last and keeps an existing one in place, as column assignment does. The engine lemmas, however, state only which names are present and what they hold, not their positions. `Project` fixes the order where the source does.
- The test files call signatures that do not exist (one-argument `preprocess_data` and `remove_outliers`, `validate_data`), so they are not modelled as behaviour.
