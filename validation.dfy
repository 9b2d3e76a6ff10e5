/** `validate_dataframe`: a table passes when every required column exists
    and no required column has too large a share of nulls. The result is a
    record whose flag, lists and message agree with each other. */
module Validation {
  import opened Wrappers
  import opened Frames

  /** The default `max_missing_threshold`. */
  const DefaultThreshold: real := 0.1

  datatype ValidationResult = ValidationResult(
    isValid: bool,
    missingColumns: seq<string>,
    highMissingCols: seq<string>,
    errorMessage: Option<string>)

  /** The number of null cells in a column. */
  function NullCount(col: seq<Cell>): (n: nat)
    ensures n <= |col|
    ensures n == 0 <==> forall k :: 0 <= k < |col| ==> col[k] != Null
  {
    if |col| == 0 then 0
    else NullCount(col[..|col| - 1]) + (if col[|col| - 1] == Null then 1 else 0)
  }

  /** The share of nulls is strictly above the threshold. The mean of an
      empty column is NaN, which is above no threshold. */
  predicate Exceeds(col: seq<Cell>, threshold: real) {
    |col| > 0 && (NullCount(col) as real) / (|col| as real) > threshold
  }

  /** A column without nulls never exceeds a non-negative threshold, and a
      column of nulls exceeds every threshold below one. */
  lemma ExceedsExtremes(col: seq<Cell>, threshold: real)
    requires |col| > 0
    ensures 0.0 <= threshold && NullCount(col) == 0 ==> !Exceeds(col, threshold)
    ensures threshold < 1.0 && NullCount(col) == |col| ==> Exceeds(col, threshold)
  {
    var m := |col| as real;
    assert 0.0 / m == 0.0 && m / m == 1.0;
  }

  /** Each element once, in the order of its first occurrence. */
  function Unique(s: seq<string>): (r: seq<string>)
    ensures Distinct(r)
    ensures forall x :: x in r <==> x in s
  {
    if |s| == 0 then []
    else
      var u := Unique(s[..|s| - 1]);
      assert forall x :: x in s <==> x in s[..|s| - 1] || x == s[|s| - 1];
      if s[|s| - 1] in u then u else u + [s[|s| - 1]]
  }

  /** Python's `repr` of a string without quotes or backslashes in it. */
  function Quote(s: string): string {
    "'" + s + "'"
  }

  function JoinQuoted(names: seq<string>): string {
    if |names| == 0 then ""
    else if |names| == 1 then Quote(names[0])
    else JoinQuoted(names[..|names| - 1]) + ", " + Quote(names[|names| - 1])
  }

  const MissingPrefix := "Missing required columns: "
  const ThresholdPrefix := "Columns exceeding missing value threshold: "

  /** The message for absent columns, showing them as Python shows a set. */
  function MissingMessage(names: seq<string>): string {
    MissingPrefix + "{" + JoinQuoted(names) + "}"
  }

  /** The message for columns over the threshold, showing them as a list. */
  function ThresholdMessage(names: seq<string>): string {
    ThresholdPrefix + "[" + JoinQuoted(names) + "]"
  }

  /** The required names the table lacks, each once. */
  function MissingColumns(f: Frame, required: seq<string>): (r: seq<string>)
    ensures Distinct(r)
    ensures forall c :: c in r <==> c in required && c !in f.columns
  {
    Unique(Where(required, c => c !in f.columns))
  }

  /** For each required name, whether it is a present column whose share of
      nulls exceeds the threshold. */
  function HighMask(f: Frame, required: seq<string>, threshold: real): (keep: seq<bool>)
    ensures |keep| == |required|
    ensures forall k :: 0 <= k < |required| ==>
              (keep[k] <==> required[k] in f.data && Exceeds(f.data[required[k]], threshold))
  {
    seq(|required|, k requires 0 <= k < |required| => required[k] in f.data && Exceeds(f.data[required[k]], threshold))
  }

  /** The required names, in their order and with their repeats, whose share
      of nulls exceeds the threshold. */
  function HighMissing(f: Frame, required: seq<string>, threshold: real): (r: seq<string>)
    ensures r == Select(required, HighMask(f, required, threshold))
    ensures forall c :: c in r <==> c in required && c in f.data && Exceeds(f.data[c], threshold)
  {
    var p := c => c in f.data && Exceeds(f.data[c], threshold);
    WhereSelect(required, p, HighMask(f, required, threshold));
    Where(required, p)
  }

  /** `validate_dataframe(df, required_columns, max_missing_threshold)`. */
  function ValidateDataFrame(f: Frame, required: seq<string>, threshold: real): (r: ValidationResult)
    requires WellFormed(f)
    ensures r.isValid <==> |r.missingColumns| == 0 && |r.highMissingCols| == 0
    ensures r.errorMessage.None? <==> r.isValid
    ensures r.isValid <==> forall c :: c in required ==> c in f.data && !Exceeds(f.data[c], threshold)
  {
    var missing := MissingColumns(f, required);
    if |missing| > 0 then
      assert missing[0] in required && missing[0] !in f.data;
      ValidationResult(false, missing, [], Some(MissingMessage(missing)))
    else
      var high := HighMissing(f, required, threshold);
      if |high| > 0 then
        ValidationResult(false, [], high, Some(ThresholdMessage(high)))
      else
        assert forall c :: c in required ==> c in f.data && !Exceeds(f.data[c], threshold) by {
          forall c | c in required ensures c in f.data && !Exceeds(f.data[c], threshold) {
            assert c !in missing;
          }
        }
        ValidationResult(true, [], [], None)
  }

  /** `validate_dataframe` called without a threshold. */
  function ValidateWithDefault(f: Frame, required: seq<string>): (r: ValidationResult)
    requires WellFormed(f)
    ensures r == ValidateDataFrame(f, required, DefaultThreshold)
    ensures r.isValid <==> forall c :: c in required ==> c in f.data && !Exceeds(f.data[c], 0.1)
  {
    ValidateDataFrame(f, required, DefaultThreshold)
  }

  /** A share of nulls equal to the default threshold passes; one above it
      fails. */
  lemma DefaultThresholdBoundary(col: seq<Cell>)
    requires |col| > 0
    ensures 10 * NullCount(col) == |col| ==> !Exceeds(col, DefaultThreshold)
    ensures 10 * NullCount(col) > |col| ==> Exceeds(col, DefaultThreshold)
  {
    TenthRatio(NullCount(col) as real, |col| as real);
  }

  /** A ratio is above one tenth exactly when ten times the numerator is
      above the denominator. */
  lemma TenthRatio(n: real, m: real)
    requires m > 0.0
    ensures n / m > 0.1 <==> 10.0 * n > m
  {
    var q := n / m;
    assert q * m == n;
    if q > 0.1 {
      assert q * m > 0.1 * m;
    } else {
      assert q * m <= 0.1 * m;
    }
  }

  /** When a required column is absent, the result reports exactly the absent
      ones, each once, with a message naming them, and the null shares are
      not looked at. */
  lemma MissingColumnsReported(f: Frame, required: seq<string>, threshold: real)
    requires WellFormed(f)
    requires exists c :: c in required && c !in f.columns
    ensures var r := ValidateDataFrame(f, required, threshold);
            && !r.isValid
            && Distinct(r.missingColumns)
            && (forall c :: c in r.missingColumns <==> c in required && c !in f.columns)
            && r.highMissingCols == []
            && r.errorMessage.Some?
            && r.errorMessage.value[..|MissingPrefix|] == MissingPrefix
  {
    var c :| c in required && c !in f.columns;
    assert c in MissingColumns(f, required);
  }

  /** When every required column exists, nothing is reported missing and the
      flagged columns are exactly the required ones over the threshold. */
  lemma ThresholdReported(f: Frame, required: seq<string>, threshold: real)
    requires WellFormed(f)
    requires forall c :: c in required ==> c in f.columns
    ensures var r := ValidateDataFrame(f, required, threshold);
            && r.missingColumns == []
            && (forall c :: c in r.highMissingCols <==> c in required && Exceeds(f.data[c], threshold))
            && (r.isValid || r.errorMessage.value[..|ThresholdPrefix|] == ThresholdPrefix)
  {
    WhereNone(required, c => c !in f.columns);
  }

  /** Only the required columns matter: two tables that agree on which
      required names exist, and on those columns, validate alike. */
  lemma OnlyRequiredColumnsMatter(f: Frame, g: Frame, required: seq<string>, threshold: real)
    requires WellFormed(f) && WellFormed(g)
    requires forall c :: c in required ==> (c in f.data <==> c in g.data)
    requires forall c :: c in required && c in f.data ==> f.data[c] == g.data[c]
    ensures ValidateDataFrame(f, required, threshold) == ValidateDataFrame(g, required, threshold)
  {
    WhereAgrees(required, c => c !in f.columns, c => c !in g.columns);
    WhereAgrees(required, c => c in f.data && Exceeds(f.data[c], threshold),
                          c => c in g.data && Exceeds(g.data[c], threshold));
  }
}
