/** The preprocessing stage of the packaged pipeline: a preprocessor holding
    the configured time windows and feature columns. Feature engineering works
    in place on a copy of the input table; selection, outlier removal and
    scaling return new tables. */
module Preprocessor {
  import opened Wrappers
  import opened Frames
  import opened ColumnNames
  import opened FeatureEngine
  import opened EngineProperties
  import opened Vocabulary
  import opened Outliers
  import opened Scaling

  class DataPreprocessor {
    /** The `preprocessing.time_span` and `preprocessing.feature_cols` entries
        of the configuration. */
    const timeSpan: seq<nat>
    const featureCols: seq<string>

    constructor (timeSpan: seq<nat>, featureCols: seq<string>)
      ensures this.timeSpan == timeSpan && this.featureCols == featureCols
    {
      this.timeSpan := timeSpan;
      this.featureCols := featureCols;
    }

    /** `preprocess_data`: the time and price features computed on a copy of
        `data`, then the rows of tickers in the encoder's vocabulary. A grouped
        operation's error propagates; `data` itself is never changed. */
    method PreprocessData(data: DataFrame, le: LabelEncoder) returns (r: Result<DataFrame, Error>)
      requires data.Valid()
      ensures r.Ok? <==> InputError(data.Value()) == None
      ensures r.Err? ==> r.error == InputError(data.Value()).value
      ensures r.Ok? ==> && fresh(r.value) && r.value.Valid()
                        && r.value.Value() == KeepVocabulary(Engineer(data.Value(), timeSpan).value, le.classes)
    {
      var db := data.Copy();
      var o := EngineerInPlace(db, timeSpan);
      if o.Fail? {
        return Err(o.error);
      }
      var keys := db.Column(StockName);
      var filtered := db.Filter(VocabularyMask(keys.value, le.classes));
      r := Ok(filtered);
    }

    /** `select_features`: the configured feature columns, in their order. */
    method SelectFeatures(db: DataFrame) returns (r: Result<DataFrame, Error>)
      requires db.Valid() && Distinct(featureCols)
      ensures r.Ok? <==> Project(db.Value(), featureCols).Ok?
      ensures r.Err? ==> r.error == Project(db.Value(), featureCols).error
      ensures r.Ok? ==> fresh(r.value) && r.value.Valid() && r.value.Value() == Project(db.Value(), featureCols).value
    {
      var selected := Project(db.Value(), featureCols);
      if selected.Err? {
        return Err(selected.error);
      }
      var t := new DataFrame(selected.value);
      r := Ok(t);
    }

    /** `remove_outliers`: a new table with the rows the predictor labels 1,
        and the number of rows it labels otherwise. */
    method RemoveOutliers(db: DataFrame, labels: seq<int>) returns (r: DataFrame, removed: nat)
      requires db.Valid() && |labels| == |db.index|
      ensures fresh(r) && r.Valid() && r.Value() == KeepInliers(db.Value(), labels)
      ensures removed == Rows(db.Value()) - Rows(r.Value())
    {
      var keep := InlierMask(labels);
      removed := OutlierCount(labels);
      OutlierCountIsRowsRemoved(db.Value(), labels);
      r := db.Filter(keep);
    }

    /** `scale_features`: a new table with the scaled rows under the same
        column names and row labels. */
    method ScaleFeatures(db: DataFrame, scaler: Scaler) returns (r: Result<DataFrame, Error>)
      requires db.Valid()
      ensures r.Ok? <==> Scale(db.Value(), scaler).Ok?
      ensures r.Err? ==> r.error == Scale(db.Value(), scaler).error
      ensures r.Ok? ==> fresh(r.value) && r.value.Valid() && r.value.Value() == Scale(db.Value(), scaler).value
    {
      var scaled := Scale(db.Value(), scaler);
      if scaled.Err? {
        return Err(scaled.error);
      }
      var t := new DataFrame(scaled.value);
      r := Ok(t);
    }
  }

  /** Features are computed per ticker and the vocabulary filter drops whole
      tickers, so the rows kept after feature engineering carry the same
      values as when the features are computed on the kept rows alone. */
  lemma FilterAfterFeatures(f: Frame, spans: seq<nat>, classes: seq<Cell>)
    requires WellFormed(f) && Engineer(f, spans).Ok?
    ensures StockName in f.data && Engineer(KeepVocabulary(f, classes), spans).Ok?
    ensures KeepVocabulary(Engineer(f, spans).value, classes) == Engineer(KeepVocabulary(f, classes), spans).value
  {
    var keep := VocabularyMask(f.data[StockName], classes);
    VocabularyKeepsGroups(f.data[StockName], classes);
    EngineerSelect(f, spans, keep);
  }
}
