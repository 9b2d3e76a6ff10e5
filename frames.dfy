/** The tabular store the pipeline works on: an ordered table of rows with named
    columns and a row index, as a value (`Frame`) and as the mutable object the
    pipeline passes around (`DataFrame`). Rows are identified by position. */
module Frames {
  import opened Wrappers

  /** One cell. `Null` is a missing value (NaN, None, NaT); `Opaque` is a
      present floating-point value whose number this model does not compute
      (a standard deviation, an infinite ratio). */
  datatype Cell = Null | Num(x: real) | Text(s: string) | Opaque

  /** The failures the modelled operations can raise. */
  datatype Error =
    | KeyError(missing: seq<string>)               // columns looked up by name are absent
    | NonNumeric(column: string)                   // grouped arithmetic over a column holding text
    | UnseenLabels(labels: seq<Cell>)              // names outside the label encoder's vocabulary
    | FeatureCountMismatch(got: nat, expected: nat) // the scaler was fitted on another width
    | ShapeMismatch                                // scaled rows do not fit the column list
    | UnboundLocal(name: string)                   // a local read after the assignment failed

  /** A table: the column order, each column's cells, and the row labels. */
  datatype Frame = Frame(columns: seq<string>, data: map<string, seq<Cell>>, index: seq<Cell>)

  predicate Distinct<T(==)>(s: seq<T>) {
    forall i, j :: 0 <= i < j < |s| ==> s[i] != s[j]
  }

  /** Column names are unique, name exactly the stored columns, and every
      column has one cell per row label. */
  ghost predicate WellFormed(f: Frame) {
    && Distinct(f.columns)
    && (forall c :: c in f.columns <==> c in f.data)
    && (forall c :: c in f.data ==> |f.data[c]| == |f.index|)
  }

  function Rows(f: Frame): nat {
    |f.index|
  }

  function CountTrue(keep: seq<bool>): nat {
    if |keep| == 0 then 0
    else CountTrue(keep[..|keep| - 1]) + (if keep[|keep| - 1] then 1 else 0)
  }

  /** `s[mask]`: the elements whose mask entry is true, in their order. */
  function Select<T>(s: seq<T>, keep: seq<bool>): (r: seq<T>)
    requires |s| == |keep|
    ensures |r| == CountTrue(keep)
  {
    if |s| == 0 then []
    else
      var n := |s| - 1;
      Select(s[..n], keep[..n]) + (if keep[n] then [s[n]] else [])
  }

  /** The position in the unfiltered sequence of the `p`-th selected element. */
  function Origin(keep: seq<bool>, p: nat): (k: nat)
    requires p < CountTrue(keep)
    ensures k < |keep| && keep[k] && CountTrue(keep[..k]) == p
  {
    var n := |keep| - 1;
    assert keep[..n + 1] == keep;
    if keep[n] && p == CountTrue(keep[..n]) then n
    else
      var k := Origin(keep[..n], p);
      assert keep[..n][..k] == keep[..k];
      k
  }

  /** Selection puts the kept element at position `k` right after the kept
      elements before it. */
  lemma {:induction false} SelectAt<T>(s: seq<T>, keep: seq<bool>, k: nat)
    requires |s| == |keep| && k < |s| && keep[k]
    ensures CountTrue(keep[..k]) < |Select(s, keep)|
    ensures Select(s, keep)[CountTrue(keep[..k])] == s[k]
  {
    var n := |s| - 1;
    if k < n {
      SelectAt(s[..n], keep[..n], k);
      assert keep[..n][..k] == keep[..k];
      CountTruePrefix(keep, k, n);
    }
  }

  lemma {:induction false} CountTruePrefix(keep: seq<bool>, k: nat, n: nat)
    requires k <= n <= |keep|
    ensures CountTrue(keep[..k]) <= CountTrue(keep[..n])
  {
    if k < n {
      assert keep[..n][..n - 1] == keep[..n - 1];
      CountTruePrefix(keep, k, n - 1);
    }
  }

  /** Selected elements keep their relative order. */
  lemma OriginMonotone(keep: seq<bool>, p: nat, q: nat)
    requires p < q < CountTrue(keep)
    ensures Origin(keep, p) < Origin(keep, q)
  {
    var a, b := Origin(keep, p), Origin(keep, q);
    if b <= a {
      CountTruePrefix(keep, b, a);
    }
  }

  /** The number of kept and dropped elements add up to the length. */
  lemma {:induction false} CountTrueFalse(keep: seq<bool>)
    ensures CountTrue(keep) + CountTrue(seq(|keep|, k requires 0 <= k < |keep| => !keep[k])) == |keep|
  {
    if |keep| > 0 {
      var n := |keep| - 1;
      var neg := seq(|keep|, k requires 0 <= k < |keep| => !keep[k]);
      CountTrueFalse(keep[..n]);
      assert neg[..n] == seq(n, k requires 0 <= k < n => !keep[..n][k]);
    }
  }

  /** Every selected element comes from the position `Origin` names. */
  lemma {:induction false} SelectOrigin<T>(s: seq<T>, keep: seq<bool>, p: nat)
    requires |s| == |keep| && p < |Select(s, keep)|
    ensures Select(s, keep)[p] == s[Origin(keep, p)]
  {
    SelectAt(s, keep, Origin(keep, p));
  }

  lemma {:induction false} SelectAllTrue<T>(s: seq<T>, keep: seq<bool>)
    requires |s| == |keep| && forall k :: 0 <= k < |keep| ==> keep[k]
    ensures Select(s, keep) == s
  {
    if |s| > 0 {
      var n := |s| - 1;
      SelectAllTrue(s[..n], keep[..n]);
      assert s[..n] + [s[n]] == s;
    }
  }

  /** The position of the first occurrence of `x` in `s`. */
  function IndexOf<T(==)>(s: seq<T>, x: T): (i: nat)
    requires x in s
    ensures i < |s| && s[i] == x && x !in s[..i]
  {
    if s[0] == x then 0
    else
      var j := IndexOf(s[1..], x);
      assert s[..j + 1] == [s[0]] + s[1..][..j];
      j + 1
  }

  /** In a sequence without repeats every element is found where it is. */
  lemma IndexOfDistinct<T>(s: seq<T>, i: nat)
    requires Distinct(s) && i < |s|
    ensures IndexOf(s, s[i]) == i
  {
  }

  /** The elements of `s` that satisfy `p`, in order. */
  function Where<T(==,!new)>(s: seq<T>, p: T -> bool): (r: seq<T>)
    ensures |r| <= |s|
    ensures forall x :: x in r <==> x in s && p(x)
    ensures Distinct(s) ==> Distinct(r)
  {
    if |s| == 0 then []
    else
      var n := |s| - 1;
      assert s == s[..n] + [s[n]];
      Where(s[..n], p) + (if p(s[n]) then [s[n]] else [])
  }

  /** Assigning a column: replace it where it stands, or append it last. */
  function WithColumn(f: Frame, name: string, col: seq<Cell>): (r: Frame)
    requires WellFormed(f) && |col| == Rows(f)
    ensures WellFormed(r) && Rows(r) == Rows(f)
  {
    Frame(if name in f.columns then f.columns else f.columns + [name], f.data[name := col], f.index)
  }

  /** Assigning a column writes that one entry of the column map. */
  lemma WithColumnData(f: Frame, name: string, col: seq<Cell>)
    requires WellFormed(f) && |col| == Rows(f)
    ensures WithColumn(f, name, col).data == f.data + map[name := col]
  {
  }

  lemma MapUnionAssoc<K, V>(a: map<K, V>, b: map<K, V>, c: map<K, V>)
    ensures (a + b) + c == a + (b + c)
  {
  }

  /** The table without one column. */
  function WithoutColumn(f: Frame, name: string): (r: Frame)
    requires WellFormed(f)
    ensures WellFormed(r) && Rows(r) == Rows(f)
  {
    Frame(Where(f.columns, c => c != name), f.data - {name}, f.index)
  }

  /** Every element passes the test: nothing is removed. */
  lemma {:induction false} WhereAll<T(!new)>(s: seq<T>, p: T -> bool)
    requires forall x :: x in s ==> p(x)
    ensures Where(s, p) == s
  {
    if |s| > 0 {
      var n := |s| - 1;
      var init, last := s[..n], s[n];
      assert forall x :: x in init ==> x in s;
      WhereAll(init, p);
      assert p(last);
      LastSplit(s);
    }
  }

  /** A filter that rejects every element selects nothing. */
  lemma {:induction false} WhereNone<T(!new)>(s: seq<T>, p: T -> bool)
    requires forall x :: x in s ==> !p(x)
    ensures Where(s, p) == []
  {
    if |s| > 0 {
      WhereNone(s[..|s| - 1], p);
    }
  }

  /** Filters that agree on the elements of `s` select the same elements. */
  lemma {:induction false} WhereAgrees<T(!new)>(s: seq<T>, p: T -> bool, q: T -> bool)
    requires forall x :: x in s ==> p(x) == q(x)
    ensures Where(s, p) == Where(s, q)
  {
    if |s| > 0 {
      WhereAgrees(s[..|s| - 1], p, q);
    }
  }

  /** An element added at the end is kept, after the earlier kept ones,
      exactly when it passes the test. */
  lemma WhereSnoc<T(!new)>(s: seq<T>, x: T, p: T -> bool)
    ensures Where(s + [x], p) == Where(s, p) + (if p(x) then [x] else [])
  {
    assert (s + [x])[..|s|] == s;
  }

  /** Filtering by a test is selecting by the mask of its answers, so the
      filter keeps the elements in the order of `s`, repeats included. */
  lemma {:induction false} WhereSelect<T(!new)>(s: seq<T>, p: T -> bool, keep: seq<bool>)
    requires |keep| == |s| && forall k :: 0 <= k < |s| ==> keep[k] == p(s[k])
    ensures Where(s, p) == Select(s, keep)
  {
    if |s| > 0 {
      var n := |s| - 1;
      WhereSelect(s[..n], p, keep[..n]);
    }
  }

  lemma LastSplit<T>(s: seq<T>)
    requires |s| > 0
    ensures s[..|s| - 1] + [s[|s| - 1]] == s
  {
  }

  /** Dropping a column just added as a new one restores the table. */
  lemma WithoutWithColumn(f: Frame, name: string, col: seq<Cell>)
    requires WellFormed(f) && |col| == Rows(f) && name !in f.data
    ensures WithoutColumn(WithColumn(f, name, col), name) == f
  {
    var g := WithColumn(f, name, col);
    assert g.columns == f.columns + [name];
    WithoutAppended(f.columns, name);
    assert g.data - {name} == f.data;
  }

  /** Removing a name just appended to a list without it restores the list. */
  lemma WithoutAppended(s: seq<string>, name: string)
    requires name !in s
    ensures Where(s + [name], c => c != name) == s
  {
    WhereSnoc(s, name, c => c != name);
    WhereAll(s, c => c != name);
  }

  /** `df[mask]`: the rows whose mask entry is true, with their labels. */
  function MaskRows(f: Frame, keep: seq<bool>): (r: Frame)
    requires WellFormed(f) && |keep| == Rows(f)
    ensures WellFormed(r) && r.columns == f.columns && Rows(r) == CountTrue(keep)
  {
    Frame(f.columns, map c | c in f.data :: Select(f.data[c], keep), Select(f.index, keep))
  }

  /** Row `p` of a masked table is the kept input row `Origin(keep, p)`. */
  lemma MaskRowsOrigin(f: Frame, keep: seq<bool>, p: nat)
    requires WellFormed(f) && |keep| == Rows(f) && p < Rows(MaskRows(f, keep))
    ensures keep[Origin(keep, p)]
    ensures forall c :: c in f.data ==> MaskRows(f, keep).data[c][p] == f.data[c][Origin(keep, p)]
    ensures MaskRows(f, keep).index[p] == f.index[Origin(keep, p)]
  {
    forall c | c in f.data
      ensures MaskRows(f, keep).data[c][p] == f.data[c][Origin(keep, p)]
    {
      SelectOrigin(f.data[c], keep, p);
    }
    SelectOrigin(f.index, keep, p);
  }

  /** Every kept input row is in the masked table, after the kept rows before
      it. */
  lemma MaskRowsAt(f: Frame, keep: seq<bool>, k: nat)
    requires WellFormed(f) && |keep| == Rows(f) && k < Rows(f) && keep[k]
    ensures CountTrue(keep[..k]) < Rows(MaskRows(f, keep))
    ensures forall c :: c in f.data ==> MaskRows(f, keep).data[c][CountTrue(keep[..k])] == f.data[c][k]
    ensures MaskRows(f, keep).index[CountTrue(keep[..k])] == f.index[k]
  {
    SelectAt(f.index, keep, k);
    forall c | c in f.data
      ensures MaskRows(f, keep).data[c][CountTrue(keep[..k])] == f.data[c][k]
    {
      SelectAt(f.data[c], keep, k);
    }
  }

  /** A mask that keeps every row leaves the table as it was. */
  lemma MaskRowsAllTrue(f: Frame, keep: seq<bool>)
    requires WellFormed(f) && |keep| == Rows(f) && forall k :: 0 <= k < |keep| ==> keep[k]
    ensures MaskRows(f, keep) == f
  {
    var d := map c | c in f.data :: Select(f.data[c], keep);
    forall c | c in f.data
      ensures d[c] == f.data[c]
    {
      SelectAllTrue(f.data[c], keep);
    }
    assert d == f.data;
    SelectAllTrue(f.index, keep);
  }

  /** Masking rows after assigning a column is assigning the masked column
      after masking rows. */
  lemma MaskWithColumn(f: Frame, name: string, col: seq<Cell>, keep: seq<bool>)
    requires WellFormed(f) && |col| == Rows(f) && |keep| == Rows(f)
    ensures MaskRows(WithColumn(f, name, col), keep) == WithColumn(MaskRows(f, keep), name, Select(col, keep))
  {
    var d := f.data[name := col];
    var ad := map c | c in d :: Select(d[c], keep);
    var bd := (map c | c in f.data :: Select(f.data[c], keep))[name := Select(col, keep)];
    assert ad.Keys == bd.Keys;
    forall c | c in ad
      ensures ad[c] == bd[c]
    {
      if c != name {
        assert d[c] == f.data[c];
      }
    }
    assert ad == bd;
  }

  /** No cell of row `k` is missing. */
  predicate Complete(f: Frame, k: nat)
    requires WellFormed(f) && k < Rows(f)
  {
    forall c :: c in f.columns ==> f.data[c][k] != Null
  }

  function CompleteMask(f: Frame): (keep: seq<bool>)
    requires WellFormed(f)
    ensures |keep| == Rows(f)
  {
    seq(Rows(f), k requires 0 <= k < Rows(f) => Complete(f, k))
  }

  /** `df.dropna()`: keep the rows without a missing cell. */
  function DropNulls(f: Frame): (r: Frame)
    requires WellFormed(f)
    ensures WellFormed(r)
  {
    MaskRows(f, CompleteMask(f))
  }

  /** After `dropna` no cell is missing, and each remaining row is a complete
      row of the input, in input order. */
  lemma DropNullsComplete(f: Frame, p: nat)
    requires WellFormed(f) && p < Rows(DropNulls(f))
    ensures Complete(DropNulls(f), p)
    ensures Complete(f, Origin(CompleteMask(f), p))
  {
    var keep := CompleteMask(f);
    var k := Origin(keep, p);
    forall c | c in f.columns
      ensures DropNulls(f).data[c][p] != Null
    {
      SelectOrigin(f.data[c], keep, p);
    }
  }

  /** Conversely, every complete input row survives `dropna`, after the
      complete rows before it. */
  lemma DropNullsKeepsComplete(f: Frame, k: nat)
    requires WellFormed(f) && k < Rows(f) && Complete(f, k)
    ensures var p := CountTrue(CompleteMask(f)[..k]);
            && p < Rows(DropNulls(f))
            && (forall c :: c in f.data ==> DropNulls(f).data[c][p] == f.data[c][k])
            && DropNulls(f).index[p] == f.index[k]
  {
    MaskRowsAt(f, CompleteMask(f), k);
  }

  /** The columns of `names` that `f` lacks, in the order of `names`. */
  function Absent(f: Frame, names: seq<string>): seq<string> {
    Where(names, c => c !in f.data)
  }

  /** `df[names]`: the listed columns in the listed order, rows unchanged;
      `KeyError` naming the absent columns when any is missing. */
  function Project(f: Frame, names: seq<string>): (r: Result<Frame, Error>)
    requires WellFormed(f) && Distinct(names)
    ensures r.Ok? <==> forall c :: c in names ==> c in f.columns
    ensures r.Err? ==> r.error == KeyError(Absent(f, names)) && |Absent(f, names)| > 0
    ensures r.Ok? ==> && WellFormed(r.value) && r.value.columns == names && r.value.index == f.index
                      && forall c :: c in names ==> r.value.data[c] == f.data[c]
  {
    var missing := Absent(f, names);
    if |missing| > 0 then
      assert missing[0] in names && missing[0] !in f.columns;
      Err(KeyError(missing))
    else
      Ok(Frame(names, map c | c in names :: f.data[c], f.index))
  }

  /** The row as a list of cells in column order. */
  function Row(f: Frame, k: nat): (r: seq<Cell>)
    requires WellFormed(f) && k < Rows(f)
    ensures |r| == |f.columns|
  {
    seq(|f.columns|, j requires 0 <= j < |f.columns| => f.data[f.columns[j]][k])
  }

  /** The table whose rows are `rows`, each listing its cells in the order
      of `columns`. */
  function FromRows(columns: seq<string>, rows: seq<seq<Cell>>, index: seq<Cell>): (r: Frame)
    requires Distinct(columns) && |rows| == |index|
    requires forall k :: 0 <= k < |rows| ==> |rows[k]| == |columns|
    ensures WellFormed(r) && r.columns == columns && r.index == index
  {
    Frame(columns, map c | c in columns :: seq(|rows|, k requires 0 <= k < |rows| => rows[k][IndexOf(columns, c)]), index)
  }

  /** Building a table from rows and reading its rows back gives the rows. */
  lemma FromRowsRow(columns: seq<string>, rows: seq<seq<Cell>>, index: seq<Cell>, k: nat)
    requires Distinct(columns) && |rows| == |index| && k < |rows|
    requires forall k :: 0 <= k < |rows| ==> |rows[k]| == |columns|
    ensures Row(FromRows(columns, rows, index), k) == rows[k]
  {
    var r := Row(FromRows(columns, rows, index), k);
    forall j | 0 <= j < |columns|
      ensures r[j] == rows[k][j]
    {
      IndexOfDistinct(columns, j);
    }
  }

  /** A table is determined by its columns, its row labels and its rows. */
  lemma FromRowsOfRows(f: Frame)
    requires WellFormed(f)
    ensures FromRows(f.columns, seq(Rows(f), k requires 0 <= k < Rows(f) => Row(f, k)), f.index) == f
  {
    var rows := seq(Rows(f), k requires 0 <= k < Rows(f) => Row(f, k));
    var g := FromRows(f.columns, rows, f.index);
    forall c | c in f.columns
      ensures g.data[c] == f.data[c]
    {
      var j := IndexOf(f.columns, c);
      forall k | 0 <= k < Rows(f)
        ensures g.data[c][k] == f.data[c][k]
      {
        assert rows[k][j] == f.data[f.columns[j]][k];
      }
    }
    assert g.data == f.data;
  }

  /** Whole numbers (encoded tickers, outlier labels) as the cells of a
      numeric column. */
  function IntCells(xs: seq<int>): (cells: seq<Cell>)
    ensures |cells| == |xs|
    ensures forall k :: 0 <= k < |xs| ==> cells[k] == Num(xs[k] as real)
  {
    seq(|xs|, k requires 0 <= k < |xs| => Num(xs[k] as real))
  }

  /** A mutable table, as the pipeline's stages receive it by reference. */
  class DataFrame {
    var columns: seq<string>
    var data: map<string, seq<Cell>>
    var index: seq<Cell>

    function Value(): Frame
      reads this
    {
      Frame(columns, data, index)
    }

    ghost predicate Valid()
      reads this
    {
      WellFormed(Value())
    }

    constructor (f: Frame)
      requires WellFormed(f)
      ensures Valid() && Value() == f
    {
      columns, data, index := f.columns, f.data, f.index;
    }

    /** `df.copy()` */
    method Copy() returns (c: DataFrame)
      requires Valid()
      ensures fresh(c) && c.Valid() && c.Value() == Value()
    {
      c := new DataFrame(Value());
    }

    /** `df[name]` for one column: its cells, or `KeyError`. */
    method Column(name: string) returns (r: Result<seq<Cell>, Error>)
      requires Valid()
      ensures r.Ok? <==> name in columns
      ensures r.Ok? ==> r.value == data[name] && |r.value| == |index|
      ensures r.Err? ==> r.error == KeyError([name])
    {
      if name in data {
        r := Ok(data[name]);
      } else {
        r := Err(KeyError([name]));
      }
    }

    /** `df[name] = col` */
    method Assign(name: string, col: seq<Cell>)
      requires Valid() && |col| == |index|
      modifies this
      ensures Valid() && Value() == WithColumn(old(Value()), name, col)
    {
      if name !in columns {
        columns := columns + [name];
      }
      data := data[name := col];
    }

    /** `df.drop(columns=[name], inplace=True)` */
    method Drop(name: string)
      requires Valid() && name in columns
      modifies this
      ensures Valid() && Value() == WithoutColumn(old(Value()), name)
    {
      columns := Where(columns, c => c != name);
      data := data - {name};
    }

    /** `df.dropna(inplace=True)` */
    method DropNa()
      requires Valid()
      modifies this
      ensures Valid() && Value() == DropNulls(old(Value()))
    {
      var r := DropNulls(Value());
      columns, data, index := r.columns, r.data, r.index;
    }

    /** `df[mask]`: a new table with the selected rows. */
    method Filter(keep: seq<bool>) returns (r: DataFrame)
      requires Valid() && |keep| == |index|
      ensures fresh(r) && r.Valid() && r.Value() == MaskRows(Value(), keep)
    {
      r := new DataFrame(MaskRows(Value(), keep));
    }
  }
}
