/** The feature engine: the per-window time features and the price features
    added to the table, as value functions on `Frame` and as the in-place
    methods that add the columns one by one. */
module FeatureEngine {
  import opened Wrappers
  import opened Frames
  import opened Grouping
  import opened Features
  import opened ColumnNames

  /** The error the grouped operations raise on `f`: grouping by an absent
      key column, reading an absent `Close`, or arithmetic over a `Close`
      holding text. */
  function InputError(f: Frame): (e: Option<Error>)
    ensures e == None <==> StockName in f.data && Close in f.data && Numeric(f.data[Close])
  {
    if StockName !in f.data then Some(KeyError([StockName]))
    else if Close !in f.data then Some(KeyError([Close]))
    else if !Numeric(f.data[Close]) then Some(NonNumeric(Close))
    else None
  }

  /** The key and close columns the grouped operations read. */
  predicate HasInputs(f: Frame) {
    StockName in f.data && Close in f.data
  }

  /** The three columns of one window `i`: `lag_i`, `rolling_mean_i` and,
      for `i != 1`, `rolling_std_i`. */
  function AddSpan(f: Frame, i: nat): (r: Frame)
    requires WellFormed(f) && HasInputs(f)
    ensures WellFormed(r) && HasInputs(r) && r.index == f.index
    ensures r.data[StockName] == f.data[StockName] && r.data[Close] == f.data[Close]
  {
    SpanNamesApart(i);
    var keys, closes := f.data[StockName], f.data[Close];
    var f1 := WithColumn(f, LagName(i), GroupShift(keys, closes, i));
    var f2 := WithColumn(f1, RollingMeanName(i), RollingMean(keys, closes, i));
    if i != 1 then WithColumn(f2, RollingStdName(i), RollingStd(keys, closes, i)) else f2
  }

  /** The time features of every window in `spans`, in order. */
  function TimeFeatures(f: Frame, spans: seq<nat>): (r: Frame)
    requires WellFormed(f) && HasInputs(f)
    ensures WellFormed(r) && HasInputs(r) && r.index == f.index
    ensures r.data[StockName] == f.data[StockName] && r.data[Close] == f.data[Close]
    decreases |spans|
  {
    if |spans| == 0 then f else TimeFeatures(AddSpan(f, spans[0]), spans[1..])
  }

  /** The lags of `Price_Change` for each entry of `lags`, in order. */
  function AddChangeLags(f: Frame, lags: seq<nat>): (r: Frame)
    requires WellFormed(f) && HasInputs(f) && PriceChange in f.data
    ensures WellFormed(r) && HasInputs(r) && PriceChange in r.data && r.index == f.index
    ensures r.data[StockName] == f.data[StockName] && r.data[Close] == f.data[Close]
    ensures r.data[PriceChange] == f.data[PriceChange]
    decreases |lags|
  {
    if |lags| == 0 then f
    else
      PriceChangeLagNamesDistinct(0, lags[0]);
      var g := WithColumn(f, PriceChangeLagName(lags[0]), GroupShift(f.data[StockName], f.data[PriceChange], lags[0]));
      AddChangeLags(g, lags[1..])
  }

  const ChangeLags: seq<nat> := [1, 3, 7]

  /** `Price_Change`, `Price_Change_Percentage`, `Price_Trend` and `Date`
      (the row labels). */
  function BasePriceFeatures(f: Frame): (r: Frame)
    requires WellFormed(f) && HasInputs(f)
    ensures WellFormed(r) && HasInputs(r) && PriceChange in r.data && r.index == f.index
    ensures r.data[StockName] == f.data[StockName] && r.data[Close] == f.data[Close]
  {
    PriceChangeLagNamesDistinct(0, 0);
    var keys, closes := f.data[StockName], f.data[Close];
    var change := Diff(keys, closes);
    var f1 := WithColumn(f, PriceChange, change);
    var f2 := WithColumn(f1, PriceChangePercentage, PctChange(keys, closes));
    var f3 := WithColumn(f2, PriceTrend, Trend(change));
    WithColumn(f3, Date, f.index)
  }

  /** The four base price features and the lags 1, 3 and 7 of
      `Price_Change`. */
  function PriceFeatures(f: Frame): (r: Frame)
    requires WellFormed(f) && HasInputs(f)
    ensures WellFormed(r) && HasInputs(r) && r.index == f.index
    ensures r.data[StockName] == f.data[StockName] && r.data[Close] == f.data[Close]
  {
    AddChangeLags(BasePriceFeatures(f), ChangeLags)
  }

  /** Time features, then price features; the grouped operations' error when
      the inputs do not allow them. */
  function Engineer(f: Frame, spans: seq<nat>): (r: Result<Frame, Error>)
    requires WellFormed(f)
    ensures r.Ok? <==> InputError(f) == None
    ensures r.Err? ==> r.error == InputError(f).value
    ensures r.Ok? ==> WellFormed(r.value) && r.value.index == f.index && HasInputs(r.value)
    ensures r.Ok? ==> r.value.data[StockName] == f.data[StockName] && r.value.data[Close] == f.data[Close]
  {
    match InputError(f)
    case Some(e) => Err(e)
    case None => Ok(PriceFeatures(TimeFeatures(f, spans)))
  }

  /** One pass of the window loop: the grouped reads fail on absent
      columns before any change; a text close fails the rolling mean after
      the lag column is assigned. */
  function SpanStep(f: Frame, span: nat): (r: (Outcome<Error>, Frame))
    requires WellFormed(f)
    ensures WellFormed(r.1)
  {
    if StockName !in f.data then (Fail(KeyError([StockName])), f)
    else if Close !in f.data then (Fail(KeyError([Close])), f)
    else if !Numeric(f.data[Close]) then
      (Fail(NonNumeric(Close)), WithColumn(f, LagName(span), GroupShift(f.data[StockName], f.data[Close], span)))
    else (Pass, AddSpan(f, span))
  }

  /** The window loop, stopping at the first failure. */
  function TimeRun(f: Frame, spans: seq<nat>): (r: (Outcome<Error>, Frame))
    requires WellFormed(f)
    ensures WellFormed(r.1)
    decreases |spans|
  {
    if |spans| == 0 then (Pass, f)
    else
      var step := SpanStep(f, spans[0]);
      if step.0.Fail? then step else TimeRun(step.1, spans[1..])
  }

  /** The window loop succeeds exactly when there is no window or the inputs
      allow the grouped operations, and then adds `TimeFeatures`; otherwise
      it fails in the first window with the inputs' error, having changed
      nothing, or only the first lag column when `Close` holds text. */
  lemma {:induction false} TimeRunOutcome(f: Frame, spans: seq<nat>)
    requires WellFormed(f)
    ensures |spans| == 0 ==> TimeRun(f, spans) == (Pass, f)
    ensures |spans| > 0 && InputError(f) == None ==> TimeRun(f, spans) == (Pass, TimeFeatures(f, spans))
    ensures |spans| > 0 && InputError(f).Some? ==> TimeRun(f, spans).0 == Fail(InputError(f).value)
    ensures |spans| > 0 && InputError(f) == Some(NonNumeric(Close)) ==>
              TimeRun(f, spans).1 == WithColumn(f, LagName(spans[0]), GroupShift(f.data[StockName], f.data[Close], spans[0]))
    ensures |spans| > 0 && InputError(f).Some? && InputError(f).value.KeyError? ==> TimeRun(f, spans).1 == f
    decreases |spans|
  {
    if |spans| > 0 && InputError(f) == None {
      var g := AddSpan(f, spans[0]);
      assert InputError(g) == None;
      TimeRunOutcome(g, spans[1..]);
    }
  }

  /** One window's columns, added in place; `false` when the rolling mean
      rejects a text close, after the lag column is already assigned. */
  method AddSpanInPlace(db: DataFrame, keys: seq<Cell>, closes: seq<Cell>, span: nat) returns (numeric: bool)
    requires db.Valid() && HasInputs(db.Value())
    requires keys == db.data[StockName] && closes == db.data[Close]
    modifies db
    ensures db.Valid()
    ensures (if numeric then Pass else Fail(NonNumeric(Close)), db.Value()) == SpanStep(old(db.Value()), span)
  {
    SpanNamesApart(span);
    db.Assign(LagName(span), GroupShift(keys, closes, span));
    if !Numeric(closes) {
      return false;
    }
    db.Assign(RollingMeanName(span), RollingMean(keys, closes, span));
    if span != 1 {
      db.Assign(RollingStdName(span), RollingStd(keys, closes, span));
    }
    numeric := true;
  }

  /** `_create_time_features`: adds the columns of each window to `db` in
      place, window by window (see `TimeRunOutcome` for the result). */
  method CreateTimeFeatures(db: DataFrame, spans: seq<nat>) returns (o: Outcome<Error>)
    requires db.Valid()
    modifies db
    ensures db.Valid()
    ensures (o, db.Value()) == TimeRun(old(db.Value()), spans)
  {
    ghost var f := db.Value();
    var i := 0;
    while i < |spans|
      invariant 0 <= i <= |spans|
      invariant db.Valid()
      invariant TimeRun(f, spans) == TimeRun(db.Value(), spans[i..])
    {
      var span := spans[i];
      assert spans[i..][0] == span && spans[i..][1..] == spans[i + 1..];
      var keys := db.Column(StockName);
      if keys.Err? {
        return Fail(keys.error);
      }
      var closes := db.Column(Close);
      if closes.Err? {
        return Fail(closes.error);
      }
      var numeric := AddSpanInPlace(db, keys.value, closes.value, span);
      if !numeric {
        return Fail(NonNumeric(Close));
      }
      i := i + 1;
    }
    o := Pass;
  }

  /** The loop over the `Price_Change` lags, each read back from `db`. */
  method AddChangeLagsInPlace(db: DataFrame, lags: seq<nat>)
    requires db.Valid() && HasInputs(db.Value()) && PriceChange in db.data
    modifies db
    ensures db.Valid() && db.Value() == AddChangeLags(old(db.Value()), lags)
  {
    ghost var f := db.Value();
    var i := 0;
    while i < |lags|
      invariant 0 <= i <= |lags|
      invariant db.Valid() && HasInputs(db.Value()) && PriceChange in db.data
      invariant AddChangeLags(f, lags) == AddChangeLags(db.Value(), lags[i..])
    {
      assert lags[i..][0] == lags[i] && lags[i..][1..] == lags[i + 1..];
      PriceChangeLagNamesDistinct(0, lags[i]);
      var grouped := db.Column(StockName);
      var change := db.Column(PriceChange);
      db.Assign(PriceChangeLagName(lags[i]), GroupShift(grouped.value, change.value, lags[i]));
      i := i + 1;
    }
  }

  /** Adds the price features to `db` in place; the first grouped difference
      fails before any change when the inputs do not allow it. */
  method CreatePriceFeatures(db: DataFrame) returns (o: Outcome<Error>)
    requires db.Valid()
    modifies db
    ensures db.Valid()
    ensures o == Pass <==> InputError(old(db.Value())) == None
    ensures o.Fail? ==> o.error == InputError(old(db.Value())).value && db.Value() == old(db.Value())
    ensures o == Pass ==> db.Value() == PriceFeatures(old(db.Value()))
  {
    var keys := db.Column(StockName);
    if keys.Err? {
      return Fail(keys.error);
    }
    var closes := db.Column(Close);
    if closes.Err? {
      return Fail(closes.error);
    }
    if !Numeric(closes.value) {
      return Fail(NonNumeric(Close));
    }
    AddBasePriceFeatures(db, keys.value, closes.value);
    AddChangeLagsInPlace(db, ChangeLags);
    o := Pass;
  }

  /** The four base price columns, assigned in place one after another. */
  method AddBasePriceFeatures(db: DataFrame, keys: seq<Cell>, closes: seq<Cell>)
    requires db.Valid() && HasInputs(db.Value())
    requires keys == db.data[StockName] && closes == db.data[Close]
    modifies db
    ensures db.Valid() && db.Value() == BasePriceFeatures(old(db.Value()))
  {
    PriceChangeLagNamesDistinct(0, 0);
    db.Assign(PriceChange, Diff(keys, closes));
    db.Assign(PriceChangePercentage, PctChange(keys, closes));
    var change := db.Column(PriceChange);
    db.Assign(PriceTrend, Trend(change.value));
    db.Assign(Date, db.index);
  }

  /** The time features and then the price features, in place: lines 51-52
      of the packaged preprocessor, lines 19-34 of the script. On failure the
      table may hold the first lag column already assigned. */
  method EngineerInPlace(db: DataFrame, spans: seq<nat>) returns (o: Outcome<Error>)
    requires db.Valid()
    modifies db
    ensures db.Valid()
    ensures o.Pass? <==> InputError(old(db.Value())) == None
    ensures o.Fail? ==> o.error == InputError(old(db.Value())).value
    ensures o.Pass? ==> db.Value() == Engineer(old(db.Value()), spans).value
  {
    TimeRunOutcome(db.Value(), spans);
    o := CreateTimeFeatures(db, spans);
    if o.Pass? {
      o := CreatePriceFeatures(db);
    }
  }
}
