/** The feature scaler adapter: the fitted scaler is an input, given by the
    number of features it was fitted on and its row transform. */
module Scaling {
  import opened Wrappers
  import opened Frames

  datatype Scaler = Scaler(width: nat, transform: seq<Cell> -> seq<Cell>)

  /** The scaled table rebuilt under the input's names and row labels:
      the rejected width when the scaler was fitted on another number of
      columns, a shape error when the transform returns rows of another
      width, and otherwise the table whose every row is the transformed row,
      under the same column names and row labels. */
  function Scale(f: Frame, scaler: Scaler): (r: Result<Frame, Error>)
    requires WellFormed(f)
    ensures |f.columns| != scaler.width ==> r == Err(FeatureCountMismatch(|f.columns|, scaler.width))
    ensures r.Ok? <==> |f.columns| == scaler.width && forall k :: 0 <= k < Rows(f) ==> |scaler.transform(Row(f, k))| == |f.columns|
    ensures r.Ok? ==> WellFormed(r.value) && r.value.columns == f.columns && r.value.index == f.index
    ensures r.Ok? ==> forall k :: 0 <= k < Rows(f) ==> Row(r.value, k) == scaler.transform(Row(f, k))
  {
    if |f.columns| != scaler.width then Err(FeatureCountMismatch(|f.columns|, scaler.width))
    else
      var rows := seq(Rows(f), k requires 0 <= k < Rows(f) => scaler.transform(Row(f, k)));
      if exists k :: 0 <= k < Rows(f) && |scaler.transform(Row(f, k))| != |f.columns| then Err(ShapeMismatch)
      else
        var g := FromRows(f.columns, rows, f.index);
        assert forall k :: 0 <= k < Rows(f) ==> Row(g, k) == rows[k] by {
          forall k | 0 <= k < Rows(f) ensures Row(g, k) == rows[k] {
            FromRowsRow(f.columns, rows, f.index, k);
          }
        }
        Ok(g)
  }

  /** Scaling and then applying a transform that undoes the scaler on the
      table's rows gives back the table. */
  lemma ScaleRoundTrip(f: Frame, scaler: Scaler, inverse: Scaler)
    requires WellFormed(f) && Scale(f, scaler).Ok? && inverse.width == scaler.width
    requires forall k :: 0 <= k < Rows(f) ==> inverse.transform(scaler.transform(Row(f, k))) == Row(f, k)
    ensures Scale(Scale(f, scaler).value, inverse) == Ok(f)
  {
    var g := Scale(f, scaler).value;
    var back := Scale(g, inverse);
    assert back.Ok?;
    var rows := seq(Rows(f), k requires 0 <= k < Rows(f) => Row(f, k));
    forall k | 0 <= k < Rows(f)
      ensures Row(back.value, k) == rows[k]
    {
    }
    FromRowsOfRows(f);
    FromRowsOfRows(back.value);
    assert seq(Rows(back.value), k requires 0 <= k < Rows(back.value) => Row(back.value, k)) == rows;
  }
}
