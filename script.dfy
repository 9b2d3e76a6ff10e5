/** The stand-alone preprocessing script: the same feature engine with fixed
    windows, then the vocabulary filter, the next-close target, the removal of
    incomplete rows, and the fixed list of feature columns. */
module Script {
  import opened Wrappers
  import opened Frames
  import opened Grouping
  import opened Features
  import opened ColumnNames
  import opened FeatureEngine
  import opened EngineProperties
  import opened Vocabulary
  import opened Preprocessor

  const TimeSpan: seq<nat> := [1, 3, 7, 14]

  const FeatureCols: seq<string> :=
    [ "Stock_encoded", "rolling_mean_1", "rolling_mean_3", "rolling_mean_7", "rolling_mean_14",
      "rolling_std_3", "rolling_std_7", "rolling_std_14",
      "price_change_lag1", "price_change_lag3", "price_change_lag7", "Price_Trend" ]

  /** The feature list names the encoded ticker, the windows' means, the
      windows' standard deviations (there is none for window 1), the lags of
      the price change and the trend flag. */
  lemma FeatureColsNames()
    ensures FeatureCols
         == [ StockEncoded, RollingMeanName(1), RollingMeanName(3), RollingMeanName(7), RollingMeanName(14),
              RollingStdName(3), RollingStdName(7), RollingStdName(14),
              PriceChangeLagName(1), PriceChangeLagName(3), PriceChangeLagName(7), PriceTrend ]
    ensures Distinct(FeatureCols)
  {
    assert Decimal(1) == "1" && Decimal(3) == "3" && Decimal(7) == "7";
    assert Decimal(14) == Decimal(1) + "4" == "14";
    assert RollingMeanName(1) == "rolling_mean_1" && RollingMeanName(3) == "rolling_mean_3";
    assert RollingMeanName(7) == "rolling_mean_7" && RollingMeanName(14) == "rolling_mean_14";
    assert RollingStdName(3) == "rolling_std_3" && RollingStdName(7) == "rolling_std_7";
    assert RollingStdName(14) == "rolling_std_14";
    assert PriceChangeLagName(1) == "price_change_lag1" && PriceChangeLagName(3) == "price_change_lag3";
    assert PriceChangeLagName(7) == "price_change_lag7";
  }

  /** The engineered rows of the vocabulary's tickers. */
  function Filtered(f: Frame, classes: seq<Cell>): (r: Frame)
    requires WellFormed(f) && InputError(f) == None
    ensures WellFormed(r) && HasInputs(r)
  {
    KeepVocabulary(Engineer(f, TimeSpan).value, classes)
  }

  /** The table with column `target`: each row's ticker's next close. */
  function WithTarget(g: Frame): (r: Frame)
    requires WellFormed(g) && HasInputs(g)
    ensures WellFormed(r) && Target in r.data && Rows(r) == Rows(g)
  {
    WithColumn(g, Target, GroupShift(g.data[StockName], g.data[Close], -1))
  }

  function Targeted(f: Frame, classes: seq<Cell>): (r: Frame)
    requires WellFormed(f) && InputError(f) == None
    ensures WellFormed(r) && Target in r.data && Rows(r) == Rows(Filtered(f, classes))
  {
    WithTarget(Filtered(f, classes))
  }

  /** What the script's `preprocess_data` returns when no error occurs. */
  function Prepared(f: Frame, classes: seq<Cell>): (r: Frame)
    requires WellFormed(f) && InputError(f) == None
    ensures WellFormed(r)
  {
    DropNulls(Targeted(f, classes))
  }

  /** The script's `preprocess_data`: on a copy of `data`, the features of
      the windows 1, 3, 7 and 14 and the price features, the vocabulary
      filter, the target column and `dropna`. Every error is caught and
      reported as no result; `data` itself is never changed. */
  method PreprocessData(data: DataFrame, le: LabelEncoder) returns (r: Option<DataFrame>)
    requires data.Valid()
    ensures r.None? <==> InputError(data.Value()) != None
    ensures r.Some? ==> fresh(r.value) && r.value.Valid() && r.value.Value() == Prepared(data.Value(), le.classes)
  {
    var db := data.Copy();
    var o := EngineerInPlace(db, TimeSpan);
    if o.Fail? {
      return None;
    }
    var prepared := FilterAndTarget(db, le.classes);
    r := Some(prepared);
  }

  /** Lines 35-37 of the script: the vocabulary filter into a new table, then
      the target column and `dropna` in place on it. */
  method FilterAndTarget(db: DataFrame, classes: seq<Cell>) returns (r: DataFrame)
    requires db.Valid() && HasInputs(db.Value())
    ensures fresh(r) && r.Valid() && r.Value() == DropNulls(WithTarget(KeepVocabulary(db.Value(), classes)))
  {
    var keys := db.Column(StockName);
    r := db.Filter(VocabularyMask(keys.value, classes));
    var kept := r.Column(StockName);
    var closes := r.Column(Close);
    r.Assign(Target, GroupShift(kept.value, closes.value, -1));
    r.DropNa();
  }

  /** The script's `feature_columns`: the listed columns in order; a missing name is
      caught, and the return then reads the unassigned local `new_db`. */
  function FeatureColumns(f: Frame, cols: seq<string>): (r: Result<Frame, Error>)
    requires WellFormed(f) && Distinct(cols)
    ensures r.Ok? <==> forall c :: c in cols ==> c in f.columns
    ensures r.Err? ==> r.error == UnboundLocal("new_db")
    ensures r.Ok? ==> && WellFormed(r.value) && r.value.columns == cols && r.value.index == f.index
                      && forall c :: c in cols ==> r.value.data[c] == f.data[c]
  {
    match Project(f, cols)
    case Ok(g) => Ok(g)
    case Err(_) => Err(UnboundLocal("new_db"))
  }

  /** `target` holds the next close of the same ticker: missing on each
      ticker's last row, and otherwise the close of the row preceded by one
      more row of the ticker. The script applies this to the rows of the
      vocabulary's tickers (`Targeted`). */
  lemma TargetIsNextClose(g: Frame, k: nat)
    requires WellFormed(g) && HasInputs(g) && k < Rows(g)
    ensures var keys, closes, t := g.data[StockName], g.data[Close], WithTarget(g).data[Target];
            && (Count(keys, keys[k]) <= Count(keys[..k], keys[k]) + 1 ==> t[k] == Null)
            && (keys[k] != Null ==> forall j :: 0 <= j < |keys| && keys[j] == keys[k] && Count(keys[..j], keys[k]) == Count(keys[..k], keys[k]) + 1
                                                ==> k < j && t[k] == closes[j])
  {
    var keys, closes := g.data[StockName], g.data[Close];
    TargetColumn(g);
    LeadIsNthLater(keys, closes, 1, k);
  }

  /** The column `target` holds the grouped shift by -1 of the closes. */
  lemma TargetColumn(g: Frame)
    requires WellFormed(g) && HasInputs(g)
    ensures WithTarget(g).data[Target] == GroupShift(g.data[StockName], g.data[Close], -1)
  {
  }

  /** The last window's lag and the target, as the script leaves them
      before `dropna`: grouped over the rows of the vocabulary's tickers. */
  lemma TargetedColumns(f: Frame, classes: seq<Cell>)
    requires WellFormed(f) && InputError(f) == None
    ensures StockName in f.data && Filtered(f, classes).data[StockName] == KeepVocabulary(f, classes).data[StockName]
    ensures var g, t := Filtered(f, classes), Targeted(f, classes);
            && LagName(14) in t.data && t.data[LagName(14)] == GroupShift(g.data[StockName], g.data[Close], 14)
            && t.data[Target] == GroupShift(g.data[StockName], g.data[Close], -1)
  {
    var g := Filtered(f, classes);
    FilteredLag(f, classes);
    var col := GroupShift(g.data[StockName], g.data[Close], -1);
    WithColumnData(g, Target, col);
    var t := Targeted(f, classes);
    assert t.data == g.data + map[Target := col];
    assert LagName(14)[0] == 'l' && Target[0] == 't';
    var name := LagName(14);
    assert name != Target && name in g.data;
    OtherEntry(g.data, Target, col, name);
  }

  lemma OtherEntry<K, V>(a: map<K, V>, k: K, v: V, x: K)
    requires x != k && x in a
    ensures x in a + map[k := v] && (a + map[k := v])[x] == a[x]
  {
  }

  /** The last window's lag after the vocabulary filter is the lag over the
      kept rows alone. */
  lemma FilteredLag(f: Frame, classes: seq<Cell>)
    requires WellFormed(f) && InputError(f) == None
    ensures StockName in f.data && Filtered(f, classes).data[StockName] == KeepVocabulary(f, classes).data[StockName]
    ensures var g := Filtered(f, classes);
            LagName(14) in g.data && g.data[LagName(14)] == GroupShift(g.data[StockName], g.data[Close], 14)
  {
    var e := KeepVocabulary(f, classes);
    FilterAfterFeatures(f, TimeSpan, classes);
    assert TimeSpan[3] == 14;
    EngineerTimeColumn(e, TimeSpan, 14);
  }

  /** A row survives `dropna` only with at least 14 earlier rows of its
      ticker (for `lag_14`) and a later one (for `target`); the tickers and
      their order are those of the input rows in the vocabulary. */
  lemma SurvivorsHaveHistory(f: Frame, classes: seq<Cell>, p: nat)
    requires WellFormed(f) && InputError(f) == None && p < Rows(Prepared(f, classes))
    ensures StockName in f.data && Filtered(f, classes).data[StockName] == KeepVocabulary(f, classes).data[StockName]
    ensures var keys, k := Filtered(f, classes).data[StockName], Origin(CompleteMask(Targeted(f, classes)), p);
            && k < |keys| && keys[k] != Null
            && 14 <= Count(keys[..k], keys[k])
            && Count(keys[..k], keys[k]) + 1 < Count(keys, keys[k])
  {
    TargetedColumns(f, classes);
    var g, t := Filtered(f, classes), Targeted(f, classes);
    var keys, closes := g.data[StockName], g.data[Close];
    var k := Origin(CompleteMask(t), p);
    DropNullsComplete(t, p);
    assert t.data[LagName(14)][k] != Null && t.data[Target][k] != Null;
    LagIsNthEarlier(keys, closes, 14, k);
    LeadIsNthLater(keys, closes, 1, k);
  }

  /** Every ticker left after `dropna` is in the vocabulary, so the encoding
      the script runs next cannot meet an unseen name. */
  lemma PreparedKeysKnown(f: Frame, classes: seq<Cell>)
    requires WellFormed(f) && InputError(f) == None
    ensures StockName in Prepared(f, classes).data
    ensures Encode(Prepared(f, classes).data[StockName], classes).Ok?
  {
    var e := Engineer(f, TimeSpan).value;
    var g, t, d := Filtered(f, classes), Targeted(f, classes), Prepared(f, classes);
    KeepVocabularyRows(e, classes);
    WithColumnData(g, Target, GroupShift(g.data[StockName], g.data[Close], -1));
    assert StockName[0] == 'S' && Target[0] == 't';
    OtherEntry(g.data, Target, GroupShift(g.data[StockName], g.data[Close], -1), StockName);
    assert t.data[StockName] == g.data[StockName];
    forall p | 0 <= p < Rows(d)
      ensures d.data[StockName][p] in classes
    {
      MaskRowsOrigin(t, CompleteMask(t), p);
    }
  }

  /** The table `preprocess_data` returns holds every engineered column. */
  lemma PreparedColumns(f: Frame, classes: seq<Cell>)
    requires WellFormed(f) && InputError(f) == None
    ensures forall c :: c in Engineer(f, TimeSpan).value.data ==> c in Prepared(f, classes).columns
  {
    var g, t := Filtered(f, classes), Targeted(f, classes);
    assert forall c :: c in g.columns ==> c in t.columns;
  }

  /** Every feature the script selects, bar the encoded ticker, is a column
      the engine writes. */
  lemma EngineeredFeatures(f: Frame)
    requires WellFormed(f) && InputError(f) == None
    ensures forall c :: c in FeatureCols[1..] ==> c in Engineer(f, TimeSpan).value.data
  {
    FeatureColsNames();
    WindowFeatures(f);
    EngineerPriceColumns(f, TimeSpan);
  }

  lemma WindowFeatures(f: Frame)
    requires WellFormed(f) && InputError(f) == None
    ensures var r := Engineer(f, TimeSpan).value.data;
            && RollingMeanName(1) in r && RollingMeanName(3) in r && RollingMeanName(7) in r
            && RollingMeanName(14) in r && RollingStdName(3) in r && RollingStdName(7) in r
            && RollingStdName(14) in r
  {
    EngineerTimeColumn(f, TimeSpan, 1);
    EngineerTimeColumn(f, TimeSpan, 3);
    EngineerTimeColumn(f, TimeSpan, 7);
    EngineerTimeColumn(f, TimeSpan, 14);
  }

  /** The script's first three steps on a successful `preprocess_data`:
      encode the tickers, then keep the twelve feature columns. */
  function Selected(f: Frame, classes: seq<Cell>): (r: Result<Frame, Error>)
    requires WellFormed(f) && InputError(f) == None
    ensures r.Ok? ==> r.value.columns == FeatureCols
  {
    var d := Prepared(f, classes);
    if StockName !in d.data then Err(KeyError([StockName]))
    else match Encode(d.data[StockName], classes)
      case Err(e) => Err(e)
      case Ok(codes) =>
        FeatureColsNames();
        FeatureColumns(WithColumn(d, StockEncoded, IntCells(codes)), FeatureCols)
  }

  /** Run on a table whose inputs the engine accepts, the script gets past
      `preprocess_data`, `encode_stock_names` and `feature_columns`: every
      ticker encodes and every one of the twelve feature columns exists. */
  lemma ScriptReachesOutlierRemoval(f: Frame, classes: seq<Cell>)
    requires WellFormed(f) && InputError(f) == None
    ensures Selected(f, classes).Ok?
  {
    var d := Prepared(f, classes);
    PreparedKeysKnown(f, classes);
    PreparedColumns(f, classes);
    EngineeredFeatures(f);
    FeatureColsNames();
    var w := WithColumn(d, StockEncoded, IntCells(Encode(d.data[StockName], classes).value));
    assert forall c :: c in d.columns ==> c in w.columns;
    assert StockEncoded in w.columns;
    forall c | c in FeatureCols ensures c in w.columns {
      if c != StockEncoded {
        assert c in FeatureCols[1..];
      }
    }
  }
}
