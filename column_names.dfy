/** The names of the columns the pipeline reads and writes. Derived feature
    columns are named by an f-string over the window or lag, so their names
    are a prefix followed by the number in decimal. */
module ColumnNames {

  const StockName := "Stock_Name"
  const Close := "Close"
  const PriceChange := "Price_Change"
  const PriceChangePercentage := "Price_Change_Percentage"
  const PriceTrend := "Price_Trend"
  const Date := "Date"
  const StockEncoded := "Stock_encoded"
  const Target := "target"
  const Outlier := "outlier"

  function Digit(d: nat): char
    requires d < 10
  {
    "0123456789"[d]
  }

  /** The decimal numeral of `n`, as Python's `str(n)` writes it. */
  function Decimal(n: nat): (s: string)
    ensures 1 <= |s|
    ensures n < 10 <==> |s| == 1
  {
    if n < 10 then [Digit(n)] else Decimal(n / 10) + [Digit(n % 10)]
  }

  /** Different numbers have different numerals. */
  lemma {:induction false} DecimalInjective(a: nat, b: nat)
    requires Decimal(a) == Decimal(b)
    ensures a == b
  {
    if 10 <= a {
      var da, db := Decimal(a), Decimal(b);
      assert da[..|da| - 1] == Decimal(a / 10) && db[..|db| - 1] == Decimal(b / 10);
      DecimalInjective(a / 10, b / 10);
      assert Digit(a % 10) == Digit(b % 10);
    }
  }

  function LagName(i: nat): string { "lag_" + Decimal(i) }
  function RollingMeanName(i: nat): string { "rolling_mean_" + Decimal(i) }
  function RollingStdName(i: nat): string { "rolling_std_" + Decimal(i) }
  function PriceChangeLagName(n: nat): string { "price_change_lag" + Decimal(n) }

  /** The names one time window `i` adds; there is no standard deviation
      column for a window of one. */
  function SpanNames(i: nat): (names: set<string>)
    ensures RollingStdName(i) in names <==> i != 1
  {
    assert RollingStdName(i)[8] == 's' && LagName(i)[0] == 'l' && RollingMeanName(i)[8] == 'm';
    {LagName(i), RollingMeanName(i)} + (if i != 1 then {RollingStdName(i)} else {})
  }

  /** One window's names differ from each other and from the input columns. */
  lemma SpanNamesApart(i: nat)
    ensures LagName(i) != RollingMeanName(i) && LagName(i) != RollingStdName(i)
    ensures RollingMeanName(i) != RollingStdName(i)
    ensures StockName !in SpanNames(i) && Close !in SpanNames(i)
  {
    assert LagName(i)[0] == 'l' && RollingMeanName(i)[8] == 'm' && RollingStdName(i)[8] == 's';
    assert RollingMeanName(i)[0] == 'r' && RollingStdName(i)[0] == 'r';
  }

  lemma SameNumber(p: string, a: nat, b: nat)
    requires p + Decimal(a) == p + Decimal(b)
    ensures a == b
  {
    assert Decimal(a) == (p + Decimal(a))[|p|..];
    assert Decimal(b) == (p + Decimal(b))[|p|..];
    DecimalInjective(a, b);
  }

  /** A window's names belong to that window only, and none is an input
      column or a price feature. */
  lemma SpanNamesDistinct(i: nat, j: nat)
    ensures i != j ==> SpanNames(i) !! SpanNames(j)
    ensures StockName !in SpanNames(i) && Close !in SpanNames(i)
    ensures forall n: nat :: PriceChangeLagName(n) !in SpanNames(i)
    ensures PriceChange !in SpanNames(i) && PriceChangePercentage !in SpanNames(i)
    ensures PriceTrend !in SpanNames(i) && Date !in SpanNames(i)
    ensures Target !in SpanNames(i) && StockEncoded !in SpanNames(i)
  {
    var di, dj := Decimal(i), Decimal(j);
    assert LagName(i)[0] == 'l' && RollingMeanName(i)[0] == 'r' && RollingStdName(i)[0] == 'r';
    assert RollingMeanName(i)[8] == 'm' && RollingStdName(i)[8] == 's';
    assert LagName(j)[0] == 'l' && RollingMeanName(j)[0] == 'r' && RollingStdName(j)[0] == 'r';
    assert RollingMeanName(j)[8] == 'm' && RollingStdName(j)[8] == 's';
    if i != j {
      if LagName(i) == LagName(j) { SameNumber("lag_", i, j); }
      if RollingMeanName(i) == RollingMeanName(j) { SameNumber("rolling_mean_", i, j); }
      if RollingStdName(i) == RollingStdName(j) { SameNumber("rolling_std_", i, j); }
    }
    forall n: nat ensures PriceChangeLagName(n) !in SpanNames(i) {
      assert PriceChangeLagName(n)[0] == 'p';
    }
  }

  /** The fixed names differ from each other. */
  lemma PriceNamesApart()
    ensures StockName != PriceChange && StockName != PriceChangePercentage
    ensures StockName != PriceTrend && StockName != Date
    ensures PriceChange != PriceChangePercentage && PriceChange != PriceTrend && PriceChange != Date
    ensures PriceChangePercentage != PriceTrend && PriceChangePercentage != Date
    ensures PriceTrend != Date
  {
    assert |StockName| == 10 && |PriceChange| == 12 && |PriceChangePercentage| == 23;
    assert |PriceTrend| == 11 && |Date| == 4;
  }

  /** The names the price features write. */
  function PriceNames(): set<string> {
    {PriceChange, PriceChangePercentage, PriceTrend, Date}
      + {PriceChangeLagName(1), PriceChangeLagName(3), PriceChangeLagName(7)}
  }

  /** No price feature overwrites a window's column. */
  lemma SpanNamesNotPrice(i: nat)
    ensures SpanNames(i) !! PriceNames()
  {
    SpanNamesDistinct(i, i);
  }

  /** No window adds a column named `rolling_std_1`. */
  lemma NoStdOfOne(i: nat)
    ensures RollingStdName(1) !in SpanNames(i)
  {
    assert RollingStdName(1)[0] == 'r' && RollingStdName(1)[8] == 's';
    assert LagName(i)[0] == 'l' && RollingMeanName(i)[8] == 'm';
    if i != 1 && RollingStdName(1) == RollingStdName(i) {
      SameNumber("rolling_std_", 1, i);
    }
  }

  /** The lag-of-change names are told apart by their number, and none is an
      input column or another price feature. */
  lemma PriceChangeLagNamesDistinct(m: nat, n: nat)
    ensures m != n ==> PriceChangeLagName(m) != PriceChangeLagName(n)
    ensures PriceChangeLagName(n) !in {StockName, Close, PriceChange, PriceChangePercentage, PriceTrend, Date}
    ensures PriceChangeLagName(n) !in {Target, StockEncoded, Outlier}
  {
    if m != n && PriceChangeLagName(m) == PriceChangeLagName(n) {
      SameNumber("price_change_lag", m, n);
    }
    assert PriceChangeLagName(n)[0] == 'p';
  }
}
