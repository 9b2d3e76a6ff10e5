/** The outlier filter: the fitted isolation forest is an input, given by the
    label it predicts for each row (1 for an inlier, -1 for an outlier). */
module Outliers {
  import opened Frames
  import opened ColumnNames

  /** Per row, whether the isolation forest labels it an inlier. */
  function InlierMask(labels: seq<int>): (keep: seq<bool>)
    ensures |keep| == |labels|
    ensures forall k :: 0 <= k < |labels| ==> (keep[k] <==> labels[k] == 1)
  {
    seq(|labels|, k requires 0 <= k < |labels| => labels[k] == 1)
  }

  /** `db[mask]`: the rows labelled as inliers. */
  function KeepInliers(f: Frame, labels: seq<int>): (r: Frame)
    requires WellFormed(f) && |labels| == Rows(f)
    ensures WellFormed(r) && r.columns == f.columns
  {
    MaskRows(f, InlierMask(labels))
  }

  /** `(~mask).sum()`: the number of rows not labelled 1. */
  function OutlierCount(labels: seq<int>): nat {
    CountTrue(seq(|labels|, k requires 0 <= k < |labels| => labels[k] != 1))
  }

  /** The filter keeps exactly the rows labelled 1: each output row is such an
      input row, in input order, and every such input row is output. */
  lemma KeepInliersRows(f: Frame, labels: seq<int>)
    requires WellFormed(f) && |labels| == Rows(f)
    ensures var keep, r := InlierMask(labels), KeepInliers(f, labels);
            && (forall p :: 0 <= p < Rows(r) ==> labels[Origin(keep, p)] == 1)
            && (forall p :: 0 <= p < Rows(r) ==> forall c :: c in f.data ==> r.data[c][p] == f.data[c][Origin(keep, p)])
            && (forall p, q :: 0 <= p < q < Rows(r) ==> Origin(keep, p) < Origin(keep, q))
            && (forall k :: 0 <= k < Rows(f) && labels[k] == 1 ==>
                  CountTrue(keep[..k]) < Rows(r) && forall c :: c in f.data ==> r.data[c][CountTrue(keep[..k])] == f.data[c][k])
  {
    var keep := InlierMask(labels);
    forall p | 0 <= p < Rows(KeepInliers(f, labels))
      ensures labels[Origin(keep, p)] == 1
      ensures forall c :: c in f.data ==> KeepInliers(f, labels).data[c][p] == f.data[c][Origin(keep, p)]
    {
      MaskRowsOrigin(f, keep, p);
    }
    forall p, q | 0 <= p < q < Rows(KeepInliers(f, labels))
      ensures Origin(keep, p) < Origin(keep, q)
    {
      OriginMonotone(keep, p, q);
    }
    forall k | 0 <= k < Rows(f) && labels[k] == 1
      ensures CountTrue(keep[..k]) < Rows(KeepInliers(f, labels))
      ensures forall c :: c in f.data ==> KeepInliers(f, labels).data[c][CountTrue(keep[..k])] == f.data[c][k]
    {
      MaskRowsAt(f, keep, k);
    }
  }

  /** The reported number of outliers is the number of rows removed. */
  lemma OutlierCountIsRowsRemoved(f: Frame, labels: seq<int>)
    requires WellFormed(f) && |labels| == Rows(f)
    ensures OutlierCount(labels) == Rows(f) - Rows(KeepInliers(f, labels))
  {
    var keep := InlierMask(labels);
    CountTrueFalse(keep);
    assert seq(|keep|, k requires 0 <= k < |keep| => !keep[k]) == seq(|labels|, k requires 0 <= k < |labels| => labels[k] != 1);
  }

  /** The script's `remove_outliers`: stores the labels in the caller's table
      as column `outlier`, then returns a new table with the rows whose
      `outlier` is 1, without that column. */
  method RemoveOutliersScript(db: DataFrame, labels: seq<int>) returns (r: DataFrame)
    requires db.Valid() && |labels| == |db.index|
    modifies db
    ensures db.Valid() && db.Value() == WithColumn(old(db.Value()), Outlier, IntCells(labels))
    ensures fresh(r) && r.Valid()
    ensures r.Value() == WithoutColumn(KeepInliers(db.Value(), labels), Outlier)
  {
    db.Assign(Outlier, IntCells(labels));
    var outlier := db.Column(Outlier);
    var keep := seq(|outlier.value|, k requires 0 <= k < |outlier.value| => outlier.value[k] == Num(1.0));
    assert keep == InlierMask(labels);
    r := db.Filter(keep);
    r.Drop(Outlier);
  }

  /** The temporary column does not survive: on a table without an `outlier`
      column the script's result is the inliers with the input's columns. */
  lemma RemoveOutliersScriptColumns(f: Frame, labels: seq<int>)
    requires WellFormed(f) && |labels| == Rows(f) && Outlier !in f.data
    ensures WithoutColumn(KeepInliers(WithColumn(f, Outlier, IntCells(labels)), labels), Outlier) == KeepInliers(f, labels)
  {
    var keep := InlierMask(labels);
    MaskWithColumn(f, Outlier, IntCells(labels), keep);
    WithoutWithColumn(MaskRows(f, keep), Outlier, Select(IntCells(labels), keep));
  }
}
