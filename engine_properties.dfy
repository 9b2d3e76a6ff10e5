/** What the feature engine leaves in the table, and why filtering whole
    tickers before or after it gives the same rows. */
module EngineProperties {
  import opened Wrappers
  import opened Frames
  import opened Grouping
  import opened Features
  import opened ColumnNames
  import opened FeatureEngine

  /** The columns one window writes, by name. */
  function SpanColumns(keys: seq<Cell>, closes: seq<Cell>, i: nat): (m: map<string, seq<Cell>>)
    requires |keys| == |closes|
  {
    map[LagName(i) := GroupShift(keys, closes, i)]
      + map[RollingMeanName(i) := RollingMean(keys, closes, i)]
      + (if i != 1 then map[RollingStdName(i) := RollingStd(keys, closes, i)] else map[])
  }

  /** The columns the window loop writes, by name; a later window's entry
      replaces an earlier one of the same name. */
  function TimeColumns(keys: seq<Cell>, closes: seq<Cell>, spans: seq<nat>): map<string, seq<Cell>>
    requires |keys| == |closes|
    decreases |spans|
  {
    if |spans| == 0 then map[] else SpanColumns(keys, closes, spans[0]) + TimeColumns(keys, closes, spans[1..])
  }

  /** One window overwrites or adds its own columns and nothing else. */
  lemma AddSpanData(f: Frame, i: nat)
    requires WellFormed(f) && HasInputs(f)
    ensures AddSpan(f, i).data == f.data + SpanColumns(f.data[StockName], f.data[Close], i)
  {
    var keys, closes := f.data[StockName], f.data[Close];
    var a := map[LagName(i) := GroupShift(keys, closes, i)];
    var b := map[RollingMeanName(i) := RollingMean(keys, closes, i)];
    var c := if i != 1 then map[RollingStdName(i) := RollingStd(keys, closes, i)] else map[];
    var f1 := WithColumn(f, LagName(i), GroupShift(keys, closes, i));
    var f2 := WithColumn(f1, RollingMeanName(i), RollingMean(keys, closes, i));
    WithColumnData(f, LagName(i), GroupShift(keys, closes, i));
    WithColumnData(f1, RollingMeanName(i), RollingMean(keys, closes, i));
    MapUnionAssoc(f.data, a, b);
    if i != 1 {
      WithColumnData(f2, RollingStdName(i), RollingStd(keys, closes, i));
      MapUnionAssoc(f.data, a + b, c);
    } else {
      assert (a + b) + c == a + b;
    }
  }

  /** The window loop overwrites or adds the windows' columns and nothing
      else. */
  lemma {:induction false} TimeFeaturesData(f: Frame, spans: seq<nat>)
    requires WellFormed(f) && HasInputs(f)
    ensures TimeFeatures(f, spans).data == f.data + TimeColumns(f.data[StockName], f.data[Close], spans)
    decreases |spans|
  {
    if |spans| > 0 {
      var keys, closes := f.data[StockName], f.data[Close];
      var g := AddSpan(f, spans[0]);
      AddSpanData(f, spans[0]);
      TimeFeaturesData(g, spans[1..]);
      MapUnionAssoc(f.data, SpanColumns(keys, closes, spans[0]), TimeColumns(keys, closes, spans[1..]));
    }
  }

  /** One window writes exactly its names, with their grouped values. */
  lemma SpanColumnsContents(keys: seq<Cell>, closes: seq<Cell>, i: nat)
    requires |keys| == |closes|
    ensures var m := SpanColumns(keys, closes, i);
            && m.Keys == SpanNames(i)
            && m[LagName(i)] == GroupShift(keys, closes, i)
            && m[RollingMeanName(i)] == RollingMean(keys, closes, i)
            && (i != 1 ==> m[RollingStdName(i)] == RollingStd(keys, closes, i))
  {
    SpanNamesApart(i);
  }

  /** The window loop writes exactly the windows' names. */
  lemma {:induction false} TimeColumnsKeys(keys: seq<Cell>, closes: seq<Cell>, spans: seq<nat>)
    requires |keys| == |closes|
    ensures forall c :: c in TimeColumns(keys, closes, spans) <==> exists i :: i in spans && c in SpanNames(i)
    decreases |spans|
  {
    if |spans| > 0 {
      var first, rest := spans[0], spans[1..];
      TimeColumnsKeys(keys, closes, rest);
      SpanColumnsContents(keys, closes, first);
      var a, b := SpanColumns(keys, closes, first), TimeColumns(keys, closes, rest);
      assert TimeColumns(keys, closes, spans) == a + b;
      forall c ensures c in a + b <==> exists i :: i in spans && c in SpanNames(i) {
        if c in a {
          assert first in spans && c in SpanNames(first);
        } else if c in b {
          var i :| i in rest && c in SpanNames(i);
          assert i in spans;
        }
      }
    }
  }

  /** Each window's columns come out of the loop with their grouped values:
      a later window of another number never writes the same name. */
  lemma {:induction false} TimeColumnsAt(keys: seq<Cell>, closes: seq<Cell>, spans: seq<nat>, i: nat)
    requires |keys| == |closes| && i in spans
    ensures var m := TimeColumns(keys, closes, spans);
            && SpanNames(i) <= m.Keys
            && m[LagName(i)] == GroupShift(keys, closes, i)
            && m[RollingMeanName(i)] == RollingMean(keys, closes, i)
            && (i != 1 ==> m[RollingStdName(i)] == RollingStd(keys, closes, i))
    decreases |spans|
  {
    var s0, rest := spans[0], spans[1..];
    SpanColumnsContents(keys, closes, s0);
    if i in rest {
      TimeColumnsAt(keys, closes, rest, i);
    } else {
      assert i == s0;
      TimeColumnsKeys(keys, closes, rest);
      forall j | j in rest
        ensures SpanNames(j) !! SpanNames(i)
      {
        SpanNamesDistinct(j, i);
      }
    }
  }

  /** No `rolling_std_1` column ever comes out of the window loop that was
      not already in the table. */
  lemma NoRollingStdOfOne(f: Frame, spans: seq<nat>)
    requires WellFormed(f) && HasInputs(f)
    ensures RollingStdName(1) in TimeFeatures(f, spans).data <==> RollingStdName(1) in f.data
  {
    TimeFeaturesData(f, spans);
    TimeColumnsKeys(f.data[StockName], f.data[Close], spans);
    forall i | i in spans
      ensures RollingStdName(1) !in SpanNames(i)
    {
      NoStdOfOne(i);
    }
  }

  /** The columns the lags of `Price_Change` write, by name. */
  function ChangeLagColumns(keys: seq<Cell>, change: seq<Cell>, lags: seq<nat>): map<string, seq<Cell>>
    requires |keys| == |change|
    decreases |lags|
  {
    if |lags| == 0 then map[]
    else map[PriceChangeLagName(lags[0]) := GroupShift(keys, change, lags[0])] + ChangeLagColumns(keys, change, lags[1..])
  }

  /** The columns the price features write, by name. */
  function PriceColumns(keys: seq<Cell>, closes: seq<Cell>, index: seq<Cell>): map<string, seq<Cell>>
    requires |keys| == |closes|
  {
    var change := Diff(keys, closes);
    map[PriceChange := change] + map[PriceChangePercentage := PctChange(keys, closes)]
      + map[PriceTrend := Trend(change)] + map[Date := index]
      + ChangeLagColumns(keys, change, ChangeLags)
  }

  lemma {:induction false} AddChangeLagsData(f: Frame, lags: seq<nat>)
    requires WellFormed(f) && HasInputs(f) && PriceChange in f.data
    ensures AddChangeLags(f, lags).data == f.data + ChangeLagColumns(f.data[StockName], f.data[PriceChange], lags)
    decreases |lags|
  {
    if |lags| > 0 {
      var keys, change := f.data[StockName], f.data[PriceChange];
      PriceChangeLagNamesDistinct(0, lags[0]);
      var a := map[PriceChangeLagName(lags[0]) := GroupShift(keys, change, lags[0])];
      var g := WithColumn(f, PriceChangeLagName(lags[0]), GroupShift(keys, change, lags[0]));
      WithColumnData(f, PriceChangeLagName(lags[0]), GroupShift(keys, change, lags[0]));
      AddChangeLagsData(g, lags[1..]);
      MapUnionAssoc(f.data, a, ChangeLagColumns(keys, change, lags[1..]));
    }
  }

  /** The price features overwrite or add their own columns and nothing
      else. */
  lemma PriceFeaturesData(f: Frame)
    requires WellFormed(f) && HasInputs(f)
    ensures PriceFeatures(f).data == f.data + PriceColumns(f.data[StockName], f.data[Close], f.index)
  {
    var keys, closes := f.data[StockName], f.data[Close];
    var change := Diff(keys, closes);
    PriceNamesApart();
    var f1 := WithColumn(f, PriceChange, change);
    var f2 := WithColumn(f1, PriceChangePercentage, PctChange(keys, closes));
    var f3 := WithColumn(f2, PriceTrend, Trend(change));
    var f4 := BasePriceFeatures(f);
    assert f4 == WithColumn(f3, Date, f.index);
    WithColumnData(f, PriceChange, change);
    WithColumnData(f1, PriceChangePercentage, PctChange(keys, closes));
    WithColumnData(f2, PriceTrend, Trend(change));
    WithColumnData(f3, Date, f.index);
    var m1, m2 := map[PriceChange := change], map[PriceChangePercentage := PctChange(keys, closes)];
    var m3, m4 := map[PriceTrend := Trend(change)], map[Date := f.index];
    MapUnionAssoc(f.data, m1, m2);
    MapUnionAssoc(f.data, m1 + m2, m3);
    MapUnionAssoc(f.data, m1 + m2 + m3, m4);
    var a := m1 + m2 + m3 + m4;
    assert f4.data == f.data + a;
    assert f4.data[StockName] == keys && f4.data[PriceChange] == change;
    AddChangeLagsData(f4, ChangeLags);
    MapUnionAssoc(f.data, a, ChangeLagColumns(keys, change, ChangeLags));
  }

  /** The lags 1, 3 and 7 of the difference, one column each. */
  lemma ChangeLagColumnsOfChangeLags(keys: seq<Cell>, change: seq<Cell>)
    requires |keys| == |change|
    ensures ChangeLagColumns(keys, change, ChangeLags)
         == map[PriceChangeLagName(1) := GroupShift(keys, change, 1),
                PriceChangeLagName(3) := GroupShift(keys, change, 3),
                PriceChangeLagName(7) := GroupShift(keys, change, 7)]
  {
    PriceChangeLagNamesDistinct(1, 3);
    PriceChangeLagNamesDistinct(1, 7);
    PriceChangeLagNamesDistinct(3, 7);
    assert ChangeLags[1..] == [3, 7] && ChangeLags[1..][1..] == [7] && ChangeLags[1..][1..][1..] == [];
  }

  /** Four distinct entries followed by entries under other keys. */
  lemma FourEntries<K, V>(k1: K, k2: K, k3: K, k4: K, v1: V, v2: V, v3: V, v4: V, rest: map<K, V>)
    requires k1 != k2 && k1 != k3 && k1 != k4 && k2 != k3 && k2 != k4 && k3 != k4
    requires k1 !in rest && k2 !in rest && k3 !in rest && k4 !in rest
    ensures var m := map[k1 := v1] + map[k2 := v2] + map[k3 := v3] + map[k4 := v4] + rest;
            && m.Keys == {k1, k2, k3, k4} + rest.Keys
            && m[k1] == v1 && m[k2] == v2 && m[k3] == v3 && m[k4] == v4
            && forall k :: k in rest ==> m[k] == rest[k]
  { }

  /** The price features write exactly their names: the grouped difference,
      its percentage, the trend flag of the difference, the row labels as
      `Date`, and the lags 1, 3 and 7 of the difference. */
  lemma PriceColumnsContents(keys: seq<Cell>, closes: seq<Cell>, index: seq<Cell>)
    requires |keys| == |closes|
    ensures var m, change := PriceColumns(keys, closes, index), Diff(keys, closes);
            && m.Keys == PriceNames()
            && m[PriceChange] == change
            && m[PriceChangePercentage] == PctChange(keys, closes)
            && m[PriceTrend] == Trend(change)
            && m[Date] == index
            && m[PriceChangeLagName(1)] == GroupShift(keys, change, 1)
            && m[PriceChangeLagName(3)] == GroupShift(keys, change, 3)
            && m[PriceChangeLagName(7)] == GroupShift(keys, change, 7)
  {
    var change := Diff(keys, closes);
    ChangeLagColumnsOfChangeLags(keys, change);
    PriceNamesApart();
    PriceChangeLagNamesDistinct(0, 1);
    PriceChangeLagNamesDistinct(0, 3);
    PriceChangeLagNamesDistinct(0, 7);
    var lags := ChangeLagColumns(keys, change, ChangeLags);
    assert lags.Keys == {PriceChangeLagName(1), PriceChangeLagName(3), PriceChangeLagName(7)};
    assert lags[PriceChangeLagName(1)] == GroupShift(keys, change, 1);
    assert lags[PriceChangeLagName(3)] == GroupShift(keys, change, 3);
    assert lags[PriceChangeLagName(7)] == GroupShift(keys, change, 7);
    FourEntries(PriceChange, PriceChangePercentage, PriceTrend, Date,
                change, PctChange(keys, closes), Trend(change), index, lags);
  }

  /** A successful run of the engine overwrites or adds the windows' columns
      and then the price features' columns, and leaves every other column as
      it was. */
  lemma EngineerData(f: Frame, spans: seq<nat>)
    requires WellFormed(f) && Engineer(f, spans).Ok?
    ensures Engineer(f, spans).value.data
         == f.data + TimeColumns(f.data[StockName], f.data[Close], spans)
                   + PriceColumns(f.data[StockName], f.data[Close], f.index)
  {
    var t := TimeFeatures(f, spans);
    TimeFeaturesData(f, spans);
    PriceFeaturesData(t);
  }

  /** Filtering whole tickers commutes with one window's columns. */
  lemma AddSpanSelect(f: Frame, i: nat, keep: seq<bool>)
    requires WellFormed(f) && HasInputs(f) && |keep| == Rows(f) && KeepsGroups(f.data[StockName], keep)
    ensures MaskRows(AddSpan(f, i), keep) == AddSpan(MaskRows(f, keep), i)
  {
    var keys, closes := f.data[StockName], f.data[Close];
    var f1 := WithColumn(f, LagName(i), GroupShift(keys, closes, i));
    var f2 := WithColumn(f1, RollingMeanName(i), RollingMean(keys, closes, i));
    MaskWithColumn(f, LagName(i), GroupShift(keys, closes, i), keep);
    MaskWithColumn(f1, RollingMeanName(i), RollingMean(keys, closes, i), keep);
    CausalSelect(keys, closes, keep, LagOf(i));
    CausalSelect(keys, closes, keep, MeanOf(i));
    if i != 1 {
      MaskWithColumn(f2, RollingStdName(i), RollingStd(keys, closes, i), keep);
      CausalSelect(keys, closes, keep, StdOf(i));
    }
  }

  lemma {:induction false} TimeFeaturesSelect(f: Frame, spans: seq<nat>, keep: seq<bool>)
    requires WellFormed(f) && HasInputs(f) && |keep| == Rows(f) && KeepsGroups(f.data[StockName], keep)
    ensures MaskRows(TimeFeatures(f, spans), keep) == TimeFeatures(MaskRows(f, keep), spans)
    decreases |spans|
  {
    if |spans| > 0 {
      AddSpanSelect(f, spans[0], keep);
      TimeFeaturesSelect(AddSpan(f, spans[0]), spans[1..], keep);
    }
  }

  lemma {:induction false} AddChangeLagsSelect(f: Frame, lags: seq<nat>, keep: seq<bool>)
    requires WellFormed(f) && HasInputs(f) && PriceChange in f.data && |keep| == Rows(f)
    requires KeepsGroups(f.data[StockName], keep)
    ensures MaskRows(AddChangeLags(f, lags), keep) == AddChangeLags(MaskRows(f, keep), lags)
    decreases |lags|
  {
    if |lags| > 0 {
      var keys, change := f.data[StockName], f.data[PriceChange];
      PriceChangeLagNamesDistinct(0, lags[0]);
      MaskWithColumn(f, PriceChangeLagName(lags[0]), GroupShift(keys, change, lags[0]), keep);
      CausalSelect(keys, change, keep, LagOf(lags[0]));
      var g := WithColumn(f, PriceChangeLagName(lags[0]), GroupShift(keys, change, lags[0]));
      AddChangeLagsSelect(g, lags[1..], keep);
    }
  }

  lemma PriceFeaturesSelect(f: Frame, keep: seq<bool>)
    requires WellFormed(f) && HasInputs(f) && |keep| == Rows(f) && KeepsGroups(f.data[StockName], keep)
    ensures MaskRows(PriceFeatures(f), keep) == PriceFeatures(MaskRows(f, keep))
  {
    var keys, closes := f.data[StockName], f.data[Close];
    var change := Diff(keys, closes);
    PriceChangeLagNamesDistinct(0, 0);
    var f1 := WithColumn(f, PriceChange, change);
    var f2 := WithColumn(f1, PriceChangePercentage, PctChange(keys, closes));
    var f3 := WithColumn(f2, PriceTrend, Trend(change));
    var f4 := BasePriceFeatures(f);
    assert f4 == WithColumn(f3, Date, f.index);
    MaskWithColumn(f, PriceChange, change, keep);
    MaskWithColumn(f1, PriceChangePercentage, PctChange(keys, closes), keep);
    MaskWithColumn(f2, PriceTrend, Trend(change), keep);
    MaskWithColumn(f3, Date, f.index, keep);
    CausalSelect(keys, closes, keep, DiffOf);
    CausalSelect(keys, closes, keep, PctOf);
    TrendSelect(change, keep);
    AddChangeLagsSelect(f4, ChangeLags, keep);
  }

  /** A filter keeps only cells of the input. */
  lemma SelectNumeric(s: seq<Cell>, keep: seq<bool>)
    requires |s| == |keep| && Numeric(s)
    ensures Numeric(Select(s, keep))
  {
    forall p | 0 <= p < |Select(s, keep)|
      ensures Select(s, keep)[p].Num? || Select(s, keep)[p].Null?
    {
      SelectOrigin(s, keep, p);
    }
  }

  /** Features are computed per ticker, so dropping whole tickers before
      the engine or after it leaves the same rows with the same values. */
  lemma EngineerSelect(f: Frame, spans: seq<nat>, keep: seq<bool>)
    requires WellFormed(f) && |keep| == Rows(f) && Engineer(f, spans).Ok?
    requires KeepsGroups(f.data[StockName], keep)
    ensures Engineer(MaskRows(f, keep), spans).Ok?
    ensures MaskRows(Engineer(f, spans).value, keep) == Engineer(MaskRows(f, keep), spans).value
  {
    SelectNumeric(f.data[Close], keep);
    var t := TimeFeatures(f, spans);
    TimeFeaturesSelect(f, spans, keep);
    PriceFeaturesSelect(t, keep);
  }

  /** Reading one window's columns off a successful run of the engine. */
  lemma EngineerTimeColumn(f: Frame, spans: seq<nat>, i: nat)
    requires WellFormed(f) && Engineer(f, spans).Ok? && i in spans
    ensures var r, keys, closes := Engineer(f, spans).value.data, f.data[StockName], f.data[Close];
            && LagName(i) in r && r[LagName(i)] == GroupShift(keys, closes, i)
            && RollingMeanName(i) in r && r[RollingMeanName(i)] == RollingMean(keys, closes, i)
            && (i != 1 ==> RollingStdName(i) in r && r[RollingStdName(i)] == RollingStd(keys, closes, i))
  {
    var keys, closes := f.data[StockName], f.data[Close];
    TimeColumnsAt(keys, closes, spans, i);
    SpanNamesNotPrice(i);
    assert LagName(i) in SpanNames(i) && RollingMeanName(i) in SpanNames(i);
    EngineerTimeEntry(f, spans, LagName(i));
    EngineerTimeEntry(f, spans, RollingMeanName(i));
    if i != 1 {
      EngineerTimeEntry(f, spans, RollingStdName(i));
    }
  }

  /** A window column that no price feature overwrites keeps its value. */
  lemma EngineerTimeEntry(f: Frame, spans: seq<nat>, x: string)
    requires WellFormed(f) && Engineer(f, spans).Ok? && x !in PriceNames()
    requires x in TimeColumns(f.data[StockName], f.data[Close], spans)
    ensures x in Engineer(f, spans).value.data
    ensures Engineer(f, spans).value.data[x] == TimeColumns(f.data[StockName], f.data[Close], spans)[x]
  {
    var keys, closes := f.data[StockName], f.data[Close];
    EngineerData(f, spans);
    PriceColumnsContents(keys, closes, f.index);
    LaterEntries(f.data, TimeColumns(keys, closes, spans), PriceColumns(keys, closes, f.index), x);
  }

  lemma LaterEntries<K, V>(a: map<K, V>, t: map<K, V>, p: map<K, V>, k: K)
    requires k in t && k !in p
    ensures k in a + t + p && (a + t + p)[k] == t[k]
  {
  }

  /** Reading the price features off a successful run of the engine. */
  lemma EngineerPriceColumns(f: Frame, spans: seq<nat>)
    requires WellFormed(f) && Engineer(f, spans).Ok?
    ensures var r, keys, closes := Engineer(f, spans).value.data, f.data[StockName], f.data[Close];
            var change := Diff(keys, closes);
            && PriceNames() <= r.Keys
            && r[PriceChange] == change
            && r[PriceChangePercentage] == PctChange(keys, closes)
            && r[PriceTrend] == Trend(change)
            && r[Date] == f.index
            && r[PriceChangeLagName(1)] == GroupShift(keys, change, 1)
            && r[PriceChangeLagName(3)] == GroupShift(keys, change, 3)
            && r[PriceChangeLagName(7)] == GroupShift(keys, change, 7)
  {
    EngineerData(f, spans);
    PriceColumnsContents(f.data[StockName], f.data[Close], f.index);
  }
}
