/** The ticker vocabulary of the fitted label encoder: the row filter that
    keeps the tickers the encoder knows, and the encoding of ticker names as
    integer codes. The encoder is an input, given by its classes. */
module Vocabulary {
  import opened Wrappers
  import opened Frames
  import opened Grouping
  import opened ColumnNames

  /** A fitted label encoder: its `classes_`, without repeats; the code of a
      class is its position. */
  datatype LabelEncoder = LabelEncoder(classes: seq<Cell>)

  /** Per row, whether its ticker is one of the encoder's classes. */
  function VocabularyMask(keys: seq<Cell>, classes: seq<Cell>): (keep: seq<bool>)
    ensures |keep| == |keys|
    ensures forall k :: 0 <= k < |keys| ==> (keep[k] <==> keys[k] in classes)
  {
    seq(|keys|, k requires 0 <= k < |keys| => keys[k] in classes)
  }

  /** The rows whose ticker is one of the classes, in their order. */
  function KeepVocabulary(f: Frame, classes: seq<Cell>): (r: Frame)
    requires WellFormed(f) && StockName in f.data
    ensures WellFormed(r) && r.columns == f.columns && StockName in r.data
  {
    MaskRows(f, VocabularyMask(f.data[StockName], classes))
  }

  /** The vocabulary filter keeps exactly the rows whose ticker is in the
      vocabulary: each output row is such an input row, in input order, and
      every such input row is output. */
  lemma KeepVocabularyRows(f: Frame, classes: seq<Cell>)
    requires WellFormed(f) && StockName in f.data
    ensures var keep, r := VocabularyMask(f.data[StockName], classes), KeepVocabulary(f, classes);
            && (forall p :: 0 <= p < Rows(r) ==> r.data[StockName][p] in classes)
            && (forall p :: 0 <= p < Rows(r) ==> forall c :: c in f.data ==> r.data[c][p] == f.data[c][Origin(keep, p)])
            && (forall p, q :: 0 <= p < q < Rows(r) ==> Origin(keep, p) < Origin(keep, q))
            && (forall k :: 0 <= k < Rows(f) && f.data[StockName][k] in classes ==>
                  CountTrue(keep[..k]) < Rows(r) && forall c :: c in f.data ==> r.data[c][CountTrue(keep[..k])] == f.data[c][k])
  {
    var keep := VocabularyMask(f.data[StockName], classes);
    forall p | 0 <= p < Rows(KeepVocabulary(f, classes))
      ensures forall c :: c in f.data ==> KeepVocabulary(f, classes).data[c][p] == f.data[c][Origin(keep, p)]
      ensures KeepVocabulary(f, classes).data[StockName][p] in classes
    {
      MaskRowsOrigin(f, keep, p);
    }
    forall p, q | 0 <= p < q < Rows(KeepVocabulary(f, classes))
      ensures Origin(keep, p) < Origin(keep, q)
    {
      OriginMonotone(keep, p, q);
    }
    forall k | 0 <= k < Rows(f) && f.data[StockName][k] in classes
      ensures CountTrue(keep[..k]) < Rows(KeepVocabulary(f, classes))
      ensures forall c :: c in f.data ==> KeepVocabulary(f, classes).data[c][CountTrue(keep[..k])] == f.data[c][k]
    {
      MaskRowsAt(f, keep, k);
    }
  }

  /** Filtering by the vocabulary twice is filtering once. */
  lemma KeepVocabularyIdempotent(f: Frame, classes: seq<Cell>)
    requires WellFormed(f) && StockName in f.data
    ensures KeepVocabulary(KeepVocabulary(f, classes), classes) == KeepVocabulary(f, classes)
  {
    var r := KeepVocabulary(f, classes);
    KeepVocabularyRows(f, classes);
    MaskRowsAllTrue(r, VocabularyMask(r.data[StockName], classes));
  }

  /** The vocabulary filter keeps or drops whole tickers. */
  lemma VocabularyKeepsGroups(keys: seq<Cell>, classes: seq<Cell>)
    ensures KeepsGroups(keys, VocabularyMask(keys, classes))
  {
  }

  /** `le.transform(names)`: each name's class position, or the error naming
      the names outside the vocabulary. */
  function Encode(keys: seq<Cell>, classes: seq<Cell>): (r: Result<seq<nat>, Error>)
    ensures r.Ok? <==> forall k :: 0 <= k < |keys| ==> keys[k] in classes
    ensures r.Err? ==> r.error == UnseenLabels(Where(keys, x => x !in classes))
    ensures r.Ok? ==> |r.value| == |keys| && forall k :: 0 <= k < |keys| ==> r.value[k] < |classes|
  {
    var unseen := Where(keys, x => x !in classes);
    if |unseen| > 0 then
      assert unseen[0] in keys;
      Err(UnseenLabels(unseen))
    else
      assert forall k :: 0 <= k < |keys| ==> keys[k] !in unseen;
      Ok(Positions(keys, classes))
  }

  /** Each name's first position among the classes. */
  function Positions(keys: seq<Cell>, classes: seq<Cell>): (codes: seq<nat>)
    requires forall k :: 0 <= k < |keys| ==> keys[k] in classes
    ensures |codes| == |keys|
    ensures forall k :: 0 <= k < |keys| ==> codes[k] < |classes| && classes[codes[k]] == keys[k]
  {
    seq(|keys|, k requires 0 <= k < |keys| => IndexOf(classes, keys[k]))
  }

  /** `le.inverse_transform(codes)` */
  function Decode(codes: seq<nat>, classes: seq<Cell>): (keys: seq<Cell>)
    requires forall k :: 0 <= k < |codes| ==> codes[k] < |classes|
    ensures |keys| == |codes|
  {
    seq(|codes|, k requires 0 <= k < |codes| => classes[codes[k]])
  }

  /** Decoding the codes gives back the names. */
  lemma DecodeEncode(keys: seq<Cell>, classes: seq<Cell>)
    requires Encode(keys, classes).Ok?
    ensures Decode(Encode(keys, classes).value, classes) == keys
  {
  }

  /** With distinct classes, encoding the decoded codes gives back the codes. */
  lemma EncodeDecode(codes: seq<nat>, classes: seq<Cell>)
    requires Distinct(classes) && forall k :: 0 <= k < |codes| ==> codes[k] < |classes|
    ensures Encode(Decode(codes, classes), classes) == Ok(codes)
  {
    var keys := Decode(codes, classes);
    forall k | 0 <= k < |codes|
      ensures keys[k] in classes && IndexOf(classes, keys[k]) == codes[k]
    {
      IndexOfDistinct(classes, codes[k]);
    }
    var r := Encode(keys, classes);
    assert r.Ok?;
    assert r.value == codes;
  }

  /** `encode_stock_names`: stores each row's ticker code as the column
      `Stock_encoded`, in place; the table is unchanged when the lookup or the encoding fails. */
  method EncodeStockNames(db: DataFrame, le: LabelEncoder) returns (o: Outcome<Error>)
    requires db.Valid()
    modifies db
    ensures db.Valid()
    ensures o.Pass? <==> StockName in old(db.data) && Encode(old(db.data[StockName]), le.classes).Ok?
    ensures o.Fail? ==> db.Value() == old(db.Value())
    ensures o.Fail? && StockName !in old(db.data) ==> o.error == KeyError([StockName])
    ensures o.Fail? && StockName in old(db.data) ==> o.error == Encode(old(db.data[StockName]), le.classes).error
    ensures o.Pass? ==> db.Value() == WithColumn(old(db.Value()), StockEncoded, IntCells(Encode(old(db.data[StockName]), le.classes).value))
  {
    var keys := db.Column(StockName);
    if keys.Err? {
      return Fail(keys.error);
    }
    var codes := Encode(keys.value, le.classes);
    if codes.Err? {
      return Fail(codes.error);
    }
    db.Assign(StockEncoded, IntCells(codes.value));
    o := Pass;
  }

  /** After the vocabulary filter every remaining name encodes. */
  lemma EncodeAfterFilter(f: Frame, classes: seq<Cell>)
    requires WellFormed(f) && StockName in f.data
    ensures Encode(KeepVocabulary(f, classes).data[StockName], classes).Ok?
  {
    KeepVocabularyRows(f, classes);
  }
}
