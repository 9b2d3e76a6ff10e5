/** The per-ticker feature columns: grouped shift, trailing rolling mean and
    standard deviation, first difference, percentage change, and the up/down
    trend flag. Each is a function of the key column (`Stock_Name`) and one
    value column, defined through the row's group history. */
module Features {
  import opened Frames
  import opened Grouping

  /** A column the grouped arithmetic accepts: numbers and missing values. */
  predicate Numeric(col: seq<Cell>) {
    forall k :: 0 <= k < |col| ==> col[k].Num? || col[k].Null?
  }

  predicate AllNum(s: seq<Cell>) {
    forall t :: 0 <= t < |s| ==> s[t].Num?
  }

  function Value(c: Cell): real {
    if c.Num? then c.x else 0.0
  }

  /** The sum of the numbers of `s`. */
  function Sum(s: seq<Cell>): real {
    if |s| == 0 then 0.0 else Value(s[0]) + Sum(s[1..])
  }

  /** Float subtraction with NaN propagation. */
  function Sub(a: Cell, b: Cell): Cell {
    if a.Num? && b.Num? then Num(a.x - b.x) else Null
  }

  /** The value `n` places before the end of a history. */
  function LagOf(n: nat): seq<Cell> -> Cell {
    h => if |h| > n then h[|h| - 1 - n] else Null
  }

  /** The value `n` places after the start of a history. */
  function LeadOf(n: nat): seq<Cell> -> Cell {
    h => if |h| > n then h[n] else Null
  }

  /** The grouped shift: each row takes the value `n` rows earlier within its
      ticker when `n >= 0`, or `-n` rows later when `n < 0`. */
  function GroupShift(keys: seq<Cell>, vals: seq<Cell>, n: int): (r: seq<Cell>)
    requires |keys| == |vals|
    ensures |r| == |keys|
  {
    if n >= 0 then Causal(keys, vals, LagOf(n)) else Anticausal(keys, vals, LeadOf(-n))
  }

  /** The mean of the last `w` values, when there are `w` and none is missing
      (pandas' default `min_periods` equals the window). */
  function MeanOf(w: nat): seq<Cell> -> Cell {
    h => if 1 <= w <= |h| && AllNum(h[|h| - w..]) then Num(Sum(h[|h| - w..]) / (w as real)) else Null
  }

  /** The sample standard deviation of the last `w` values: present under the
      same condition as the mean, except that one value has none. */
  function StdOf(w: nat): seq<Cell> -> Cell {
    h => if 2 <= w <= |h| && AllNum(h[|h| - w..]) then Opaque else Null
  }

  function DiffOf(h: seq<Cell>): Cell {
    if |h| >= 2 then Sub(h[|h| - 1], h[|h| - 2]) else Null
  }

  /** `(cur - prev) / prev`; zero over zero is NaN, a nonzero over zero is infinite. */
  function PctOf(h: seq<Cell>): Cell {
    if |h| >= 2 && h[|h| - 1].Num? && h[|h| - 2].Num? then
      var cur, prev := h[|h| - 1].x, h[|h| - 2].x;
      if prev == 0.0 then (if cur == 0.0 then Null else Opaque) else Num((cur - prev) / prev)
    else Null
  }

  function RollingMean(keys: seq<Cell>, closes: seq<Cell>, w: nat): (r: seq<Cell>)
    requires |keys| == |closes|
    ensures |r| == |keys|
  {
    Causal(keys, closes, MeanOf(w))
  }

  function RollingStd(keys: seq<Cell>, closes: seq<Cell>, w: nat): (r: seq<Cell>)
    requires |keys| == |closes|
    ensures |r| == |keys|
  {
    Causal(keys, closes, StdOf(w))
  }

  function Diff(keys: seq<Cell>, closes: seq<Cell>): (r: seq<Cell>)
    requires |keys| == |closes|
    ensures |r| == |keys|
  {
    Causal(keys, closes, DiffOf)
  }

  function PctChange(keys: seq<Cell>, closes: seq<Cell>): (r: seq<Cell>)
    requires |keys| == |closes|
    ensures |r| == |keys|
  {
    Causal(keys, closes, PctOf)
  }

  /** The trend flag: 1 for a change strictly above zero and 0 for every
      other change, a missing one included. */
  function Trend(change: seq<Cell>): (r: seq<Cell>)
    ensures |r| == |change|
    ensures forall k :: 0 <= k < |r| ==> r[k] == Num(1.0) || r[k] == Num(0.0)
    ensures forall k :: 0 <= k < |r| ==> (r[k] == Num(1.0) <==> change[k].Num? && change[k].x > 0.0)
  {
    seq(|change|, k requires 0 <= k < |change| => if change[k].Num? && change[k].x > 0.0 then Num(1.0) else Num(0.0))
  }

  /** Filtering rows commutes with the row-wise trend flag. */
  lemma {:induction false} TrendSelect(change: seq<Cell>, keep: seq<bool>)
    requires |change| == |keep|
    ensures Select(Trend(change), keep) == Trend(Select(change, keep))
  {
    if |change| > 0 {
      var n := |change| - 1;
      TrendSelect(change[..n], keep[..n]);
      assert Trend(change)[..n] == Trend(change[..n]);
    }
  }

  /** The group history up to row `k` ends with row `k`'s value. */
  lemma HistoryUpTo(keys: seq<Cell>, vals: seq<Cell>, k: nat)
    requires |keys| == |vals| && k < |keys|
    ensures History(keys[..k + 1], vals[..k + 1], keys[k])
         == History(keys[..k], vals[..k], keys[k]) + [vals[k]]
    ensures |History(keys[..k + 1], vals[..k + 1], keys[k])| == Count(keys[..k], keys[k]) + 1
  {
    assert keys[..k + 1][..k] == keys[..k] && vals[..k + 1][..k] == vals[..k];
  }

  /** A lag cell read off the row's group history. */
  lemma LagAt(keys: seq<Cell>, vals: seq<Cell>, n: nat, k: nat)
    requires |keys| == |vals| && k < |keys|
    ensures keys[k] == Null ==> GroupShift(keys, vals, n)[k] == Null
    ensures keys[k] != Null ==>
              var h := History(keys[..k + 1], vals[..k + 1], keys[k]);
              GroupShift(keys, vals, n)[k] == if |h| > n then h[|h| - 1 - n] else Null
  {
    CausalAt(keys, vals, LagOf(n), k);
  }

  /** `shift(0)` is the value itself; rows without a key get no value. */
  lemma ShiftZeroIsClose(keys: seq<Cell>, vals: seq<Cell>, k: nat)
    requires |keys| == |vals| && k < |keys|
    ensures GroupShift(keys, vals, 0)[k] == if keys[k] == Null then Null else vals[k]
  {
    CausalAt(keys, vals, LagOf(0), k);
    HistoryUpTo(keys, vals, k);
  }

  /** `lag_n` at row `k` is the value of the n-th earlier row with the same
      key: missing when the group has fewer than `n` rows before `k`, and
      otherwise the value of the row preceded by exactly `C - n` rows of the
      group, where `C` counts the group's rows before `k`. */
  lemma LagIsNthEarlier(keys: seq<Cell>, vals: seq<Cell>, n: nat, k: nat)
    requires |keys| == |vals| && k < |keys|
    ensures keys[k] == Null ==> GroupShift(keys, vals, n)[k] == Null
    ensures Count(keys[..k], keys[k]) < n ==> GroupShift(keys, vals, n)[k] == Null
    ensures n <= Count(keys[..k], keys[k]) ==>
              exists j :: 0 <= j < |keys| && keys[j] == keys[k] && Count(keys[..j], keys[k]) + n == Count(keys[..k], keys[k])
    ensures keys[k] != Null ==>
              forall j :: 0 <= j < |keys| && keys[j] == keys[k] && Count(keys[..j], keys[k]) + n == Count(keys[..k], keys[k])
                ==> j <= k && GroupShift(keys, vals, n)[k] == vals[j]
  {
    var key := keys[k];
    var c := Count(keys[..k], key);
    var h := History(keys[..k + 1], vals[..k + 1], key);
    CausalAt(keys, vals, LagOf(n), k);
    HistoryUpTo(keys, vals, k);
    assert Count(keys[..k + 1], key) == c + 1;
    if n <= c {
      var j := Occurrence(keys[..k + 1], key, c - n);
      assert keys[..k + 1][..j] == keys[..j];
    }
    forall j | 0 <= j < |keys| && keys[j] == key && Count(keys[..j], key) + n == c
      ensures j <= k
      ensures key != Null ==> GroupShift(keys, vals, n)[k] == vals[j]
    {
      if k < j {
        CountMonotone(keys, key, k, j);
      }
      HistoryAt(keys[..k + 1], vals[..k + 1], key, j);
      assert keys[..k + 1][..j] == keys[..j];
    }
  }

  /** A lead cell read off the row's group history from the row on. */
  lemma LeadAt(keys: seq<Cell>, vals: seq<Cell>, n: nat, k: nat)
    requires |keys| == |vals| && k < |keys| && 1 <= n
    ensures keys[k] == Null ==> GroupShift(keys, vals, -(n as int))[k] == Null
    ensures keys[k] != Null ==>
              var h := History(keys[k..], vals[k..], keys[k]);
              GroupShift(keys, vals, -(n as int))[k] == if |h| > n then h[n] else Null
  {
    AnticausalAt(keys, vals, LeadOf(n), k);
  }

  /** The group history from row `k` on is the whole history without the
      group's rows before `k`. */
  lemma HistoryFrom(keys: seq<Cell>, vals: seq<Cell>, key: Cell, k: nat)
    requires |keys| == |vals| && k <= |keys|
    ensures Count(keys[..k], key) <= |History(keys, vals, key)|
    ensures History(keys[k..], vals[k..], key) == History(keys, vals, key)[Count(keys[..k], key)..]
  {
    assert keys == keys[..k] + keys[k..] && vals == vals[..k] + vals[k..];
    HistoryAppend(keys[..k], vals[..k], keys[k..], vals[k..], key);
  }

  /** `shift(-n)` at row `k` is the value of the n-th later row with the same
      key: missing on the group's last `n` rows, and otherwise the value of the
      row preceded by exactly `C + n` rows of the group. */
  lemma LeadIsNthLater(keys: seq<Cell>, vals: seq<Cell>, n: nat, k: nat)
    requires |keys| == |vals| && k < |keys| && 1 <= n
    ensures keys[k] == Null ==> GroupShift(keys, vals, -(n as int))[k] == Null
    ensures Count(keys, keys[k]) <= Count(keys[..k], keys[k]) + n ==> GroupShift(keys, vals, -(n as int))[k] == Null
    ensures Count(keys[..k], keys[k]) + n < Count(keys, keys[k]) ==>
              exists j :: 0 <= j < |keys| && keys[j] == keys[k] && Count(keys[..j], keys[k]) == Count(keys[..k], keys[k]) + n
    ensures keys[k] != Null ==>
              forall j :: 0 <= j < |keys| && keys[j] == keys[k] && Count(keys[..j], keys[k]) == Count(keys[..k], keys[k]) + n
                ==> k < j && GroupShift(keys, vals, -(n as int))[k] == vals[j]
  {
    var key := keys[k];
    var c := Count(keys[..k], key);
    LeadAt(keys, vals, n, k);
    HistoryFrom(keys, vals, key, k);
    if c + n < Count(keys, key) {
      var j := Occurrence(keys, key, c + n);
    }
    forall j | 0 <= j < |keys| && keys[j] == key && Count(keys[..j], key) == c + n
      ensures k < j
      ensures key != Null ==> GroupShift(keys, vals, -(n as int))[k] == vals[j]
    {
      LeadRow(keys, vals, n, k, j);
    }
  }

  /** The row `n` places later in the group is after `k`, and its value is
      the lead. */
  lemma LeadRow(keys: seq<Cell>, vals: seq<Cell>, n: nat, k: nat, j: nat)
    requires |keys| == |vals| && k < |keys| && 1 <= n
    requires j < |keys| && keys[j] == keys[k] && Count(keys[..j], keys[k]) == Count(keys[..k], keys[k]) + n
    ensures k < j
    ensures keys[k] != Null ==> GroupShift(keys, vals, -(n as int))[k] == vals[j]
  {
    var key := keys[k];
    if j <= k {
      CountMonotone(keys, key, j, k);
    }
    LeadAt(keys, vals, n, k);
    HistoryFrom(keys, vals, key, k);
    HistoryAt(keys, vals, key, j);
  }

  /** The `w` lags ending at row `k`, oldest first: `lag_{w-1}, ..., lag_0`. */
  function LagWindow(keys: seq<Cell>, vals: seq<Cell>, w: nat, k: nat): (r: seq<Cell>)
    requires |keys| == |vals| && k < |keys|
    ensures |r| == w
  {
    seq(w, t requires 0 <= t < w => GroupShift(keys, vals, w - 1 - t)[k])
  }

  /** The lag window is the tail of the row's group history when the group
      has `w` rows up to `k`, and starts with a missing cell otherwise. */
  lemma LagWindowOfHistory(keys: seq<Cell>, vals: seq<Cell>, w: nat, k: nat)
    requires |keys| == |vals| && k < |keys| && 1 <= w
    ensures var h := History(keys[..k + 1], vals[..k + 1], keys[k]);
            if keys[k] != Null && w <= |h| then LagWindow(keys, vals, w, k) == h[|h| - w..]
            else LagWindow(keys, vals, w, k)[0] == Null
  {
    var lags := LagWindow(keys, vals, w, k);
    var h := History(keys[..k + 1], vals[..k + 1], keys[k]);
    LagAt(keys, vals, w - 1, k);
    if keys[k] != Null && w <= |h| {
      forall t | 0 <= t < w
        ensures lags[t] == h[|h| - w..][t]
      {
        LagAt(keys, vals, w - 1 - t, k);
      }
    }
  }

  /** `rolling_mean_w` is the mean of the current close and the `w - 1`
      preceding closes of the ticker (`lag_0` ... `lag_{w-1}`), and missing
      when any of them is missing or does not exist. */
  lemma RollingMeanIsMeanOfLags(keys: seq<Cell>, closes: seq<Cell>, w: nat, k: nat)
    requires |keys| == |closes| && k < |keys| && 1 <= w
    ensures var lags := LagWindow(keys, closes, w, k);
            RollingMean(keys, closes, w)[k] == if AllNum(lags) then Num(Sum(lags) / (w as real)) else Null
  {
    var lags := LagWindow(keys, closes, w, k);
    var h := History(keys[..k + 1], closes[..k + 1], keys[k]);
    CausalAt(keys, closes, MeanOf(w), k);
    LagWindowOfHistory(keys, closes, w, k);
    MeanOfWindow(h, lags, w, keys[k]);
  }

  /** The window mean of a group history equals the mean over the lag window
      that matches it. */
  lemma MeanOfWindow(h: seq<Cell>, lags: seq<Cell>, w: nat, key: Cell)
    requires 1 <= w && |lags| == w
    requires key != Null && w <= |h| ==> lags == h[|h| - w..]
    requires !(key != Null && w <= |h|) ==> lags[0] == Null
    ensures (if key == Null then Null else MeanOf(w)(h))
         == (if AllNum(lags) then Num(Sum(lags) / (w as real)) else Null)
  {
    if !(key != Null && w <= |h|) {
      assert !lags[0].Num?;
    }
  }

  /** `rolling_mean_1` is the close itself on every row with a key. */
  lemma RollingMeanOfOne(keys: seq<Cell>, closes: seq<Cell>, k: nat)
    requires |keys| == |closes| && k < |keys| && Numeric(closes)
    ensures RollingMean(keys, closes, 1)[k] == if keys[k] == Null then Null else closes[k]
  {
    CausalAt(keys, closes, MeanOf(1), k);
    if keys[k] != Null {
      HistoryUpTo(keys, closes, k);
      var h := History(keys[..k + 1], closes[..k + 1], keys[k]);
      var last := h[|h| - 1..];
      assert last == [closes[k]];
      if closes[k].Num? {
        assert AllNum(last) && Sum(last) == closes[k].x;
        assert MeanOf(1)(h) == Num(closes[k].x / 1.0);
      } else {
        assert !AllNum(last);
      }
    }
  }

  /** A group's history holds only values of the column. */
  lemma {:induction false} HistoryAllNum(keys: seq<Cell>, vals: seq<Cell>, key: Cell)
    requires |keys| == |vals| && AllNum(vals)
    ensures AllNum(History(keys, vals, key))
  {
    if |keys| > 0 {
      var n := |keys| - 1;
      HistoryAllNum(keys[..n], vals[..n], key);
    }
  }

  /** With no missing close, `rolling_mean_w` is present exactly on the rows
      that close a run of `w` rows of their ticker. */
  lemma RollingMeanPresent(keys: seq<Cell>, closes: seq<Cell>, w: nat, k: nat)
    requires |keys| == |closes| && k < |keys| && AllNum(closes) && keys[k] != Null && 1 <= w
    ensures RollingMean(keys, closes, w)[k] != Null <==> w <= Count(keys[..k], keys[k]) + 1
  {
    CausalAt(keys, closes, MeanOf(w), k);
    HistoryUpTo(keys, closes, k);
    var prefix := closes[..k + 1];
    assert AllNum(prefix) by {
      forall t | 0 <= t < |prefix| ensures prefix[t].Num? {
        assert prefix[t] == closes[t];
      }
    }
    HistoryAllNum(keys[..k + 1], prefix, keys[k]);
    MeanPresent(History(keys[..k + 1], prefix, keys[k]), w);
  }

  /** Over numbers only, a window mean exists once the window fits. */
  lemma MeanPresent(h: seq<Cell>, w: nat)
    requires AllNum(h) && 1 <= w
    ensures MeanOf(w)(h) != Null <==> w <= |h|
  {
    if w <= |h| {
      var tail := h[|h| - w..];
      assert AllNum(tail) by {
        forall t | 0 <= t < |tail| ensures tail[t].Num? {
          assert tail[t] == h[|h| - w + t];
        }
      }
    }
  }

  /** `rolling_std_w` holds a value exactly where `rolling_mean_w` does, except
      for a window of one, where it is always missing. */
  lemma RollingStdPattern(keys: seq<Cell>, closes: seq<Cell>, w: nat, k: nat)
    requires |keys| == |closes| && k < |keys|
    ensures RollingStd(keys, closes, w)[k] != Null <==> 2 <= w && RollingMean(keys, closes, w)[k] != Null
    ensures RollingStd(keys, closes, w)[k] == Null || RollingStd(keys, closes, w)[k] == Opaque
  {
    CausalAt(keys, closes, MeanOf(w), k);
    CausalAt(keys, closes, StdOf(w), k);
  }

  /** `Price_Change` is the close minus the ticker's previous close
      (`lag_1`), and missing on each ticker's first row. */
  lemma PriceChangeIsCloseMinusLag1(keys: seq<Cell>, closes: seq<Cell>, k: nat)
    requires |keys| == |closes| && k < |keys|
    ensures Diff(keys, closes)[k] == Sub(GroupShift(keys, closes, 0)[k], GroupShift(keys, closes, 1)[k])
    ensures Count(keys[..k], keys[k]) == 0 ==> Diff(keys, closes)[k] == Null
  {
    CausalAt(keys, closes, DiffOf, k);
    CausalAt(keys, closes, LagOf(0), k);
    CausalAt(keys, closes, LagOf(1), k);
    HistoryUpTo(keys, closes, k);
  }

  /** `price_change_lagN` is the difference of the close lags `N` and `N+1`,
      so it is present only on rows with at least `N + 1` earlier rows of the
      ticker. */
  lemma PriceChangeLagIsDiffOfLags(keys: seq<Cell>, closes: seq<Cell>, n: nat, k: nat)
    requires |keys| == |closes| && k < |keys|
    ensures GroupShift(keys, Diff(keys, closes), n)[k]
         == Sub(GroupShift(keys, closes, n)[k], GroupShift(keys, closes, n + 1)[k])
    ensures GroupShift(keys, Diff(keys, closes), n)[k] != Null ==>
              keys[k] != Null && n + 1 <= Count(keys[..k], keys[k])
  {
    var key := keys[k];
    var d := Diff(keys, closes);
    CausalAt(keys, d, LagOf(n), k);
    CausalAt(keys, closes, LagOf(n), k);
    CausalAt(keys, closes, LagOf(n + 1), k);
    if key != Null {
      var h := History(keys[..k + 1], closes[..k + 1], key);
      DiffHistory(keys, closes, k);
      ScanAll(h, DiffOf);
      LagOfDiffs(h, Scan(h, DiffOf), n);
      HistoryUpTo(keys, closes, k);
    }
  }

  /** A row's history of `Price_Change` is the running difference of its
      history of closes. */
  lemma DiffHistory(keys: seq<Cell>, closes: seq<Cell>, k: nat)
    requires |keys| == |closes| && k < |keys| && keys[k] != Null
    ensures History(keys[..k + 1], Diff(keys, closes)[..k + 1], keys[k])
         == Scan(History(keys[..k + 1], closes[..k + 1], keys[k]), DiffOf)
  {
    CausalPrefix(keys, closes, DiffOf, k + 1);
    HistoryOfCausal(keys[..k + 1], closes[..k + 1], DiffOf, keys[k]);
  }

  /** The `n`-th lag of the running differences is the difference of the
      `n`-th and `n+1`-th lags, and is missing unless `n + 2` values exist. */
  lemma LagOfDiffs(h: seq<Cell>, diffs: seq<Cell>, n: nat)
    requires |diffs| == |h| && forall t :: 0 <= t < |h| ==> diffs[t] == DiffOf(h[..t + 1])
    ensures LagOf(n)(diffs) == Sub(LagOf(n)(h), LagOf(n + 1)(h))
    ensures LagOf(n)(diffs) != Null ==> n + 2 <= |h|
  {
    if |h| > n {
      var t := |h| - 1 - n;
      assert LagOf(n)(diffs) == diffs[t] == DiffOf(h[..t + 1]);
      var p := h[..t + 1];
      if t >= 1 {
        assert p[|p| - 1] == h[t] && p[|p| - 2] == h[t - 1];
        assert LagOf(n + 1)(h) == h[t - 1];
      } else {
        assert LagOf(n + 1)(h) == Null;
      }
    }
  }

  /** Every entry of a running scan. */
  lemma ScanAll(h: seq<Cell>, g: seq<Cell> -> Cell)
    ensures forall t :: 0 <= t < |h| ==> Scan(h, g)[t] == g(h[..t + 1])
  {
    forall t | 0 <= t < |h| ensures Scan(h, g)[t] == g(h[..t + 1]) {
      ScanAt(h, g, t);
    }
  }

  /** `Price_Trend` is 1 exactly when the close is strictly above the
      ticker's previous close, and 0 otherwise (including the first row). */
  lemma TrendIsCloseAboveLag1(keys: seq<Cell>, closes: seq<Cell>, k: nat)
    requires |keys| == |closes| && k < |keys|
    ensures var prev := GroupShift(keys, closes, 1)[k];
            Trend(Diff(keys, closes))[k] == Num(1.0) <==> keys[k] != Null && closes[k].Num? && prev.Num? && closes[k].x > prev.x
  {
    PriceChangeIsCloseMinusLag1(keys, closes, k);
    ShiftZeroIsClose(keys, closes, k);
  }

  /** `Price_Change_Percentage` is the change over the ticker's previous
      close: a number when that close is a nonzero number, infinite
      (`Opaque`) for a nonzero change from zero, and missing for zero over
      zero, on a ticker's first row and next to a missing close. */
  lemma PctChangeIsRatio(keys: seq<Cell>, closes: seq<Cell>, k: nat)
    requires |keys| == |closes| && k < |keys|
    ensures var prev, pct := GroupShift(keys, closes, 1)[k], PctChange(keys, closes)[k];
            && (keys[k] == Null || !closes[k].Num? || !prev.Num? ==> pct == Null)
            && (keys[k] != Null && closes[k].Num? && prev.Num? ==>
                  pct == if prev.x != 0.0 then Num((closes[k].x - prev.x) / prev.x)
                         else if closes[k].x != 0.0 then Opaque else Null)
    ensures var prev, pct, change := GroupShift(keys, closes, 1)[k], PctChange(keys, closes)[k], Diff(keys, closes)[k];
            pct.Num? <==> change.Num? && prev.Num? && prev.x != 0.0
    ensures var prev, pct, change := GroupShift(keys, closes, 1)[k], PctChange(keys, closes)[k], Diff(keys, closes)[k];
            pct.Num? ==> change.Num? && prev.Num? && pct.x == change.x / prev.x
  {
    CausalAt(keys, closes, PctOf, k);
    PriceChangeIsCloseMinusLag1(keys, closes, k);
    ShiftZeroIsClose(keys, closes, k);
    LagAt(keys, closes, 1, k);
    HistoryUpTo(keys, closes, k);
  }
}
