/** Per-entity ("group by Stock_Name") views of a column. Every grouped
    operation of the feature engine reads, for one row, the values of the rows
    that carry the same key, in table order; nothing here sorts. A missing key
    forms no group (its rows get a missing result). */
module Grouping {
  import opened Frames

  /** The number of rows whose key is `key`. */
  function Count(keys: seq<Cell>, key: Cell): nat {
    if |keys| == 0 then 0
    else Count(keys[..|keys| - 1], key) + (if keys[|keys| - 1] == key then 1 else 0)
  }

  /** The values of the rows whose key is `key`, in table order. */
  function History(keys: seq<Cell>, vals: seq<Cell>, key: Cell): (h: seq<Cell>)
    requires |keys| == |vals|
    ensures |h| == Count(keys, key)
  {
    if |keys| == 0 then []
    else
      var n := |keys| - 1;
      History(keys[..n], vals[..n], key) + (if keys[n] == key then [vals[n]] else [])
  }

  /** The row holding the `t`-th occurrence (from 0) of `key`. */
  function Occurrence(keys: seq<Cell>, key: Cell, t: nat): (j: nat)
    requires t < Count(keys, key)
    ensures j < |keys| && keys[j] == key && Count(keys[..j], key) == t
  {
    var n := |keys| - 1;
    if keys[n] == key && t == Count(keys[..n], key) then n
    else
      var j := Occurrence(keys[..n], key, t);
      assert keys[..n][..j] == keys[..j];
      j
  }

  /** More rows never means fewer occurrences, and a row with the key counts. */
  lemma {:induction false} CountMonotone(keys: seq<Cell>, key: Cell, a: nat, b: nat)
    requires a <= b <= |keys|
    ensures Count(keys[..a], key) <= Count(keys[..b], key)
    ensures a < b && keys[a] == key ==> Count(keys[..a], key) < Count(keys[..b], key)
  {
    if a < b {
      assert keys[..b][..b - 1] == keys[..b - 1];
      CountMonotone(keys, key, a, b - 1);
    }
  }

  /** One more row extends its group's history by its value. */
  lemma HistorySnoc(keys: seq<Cell>, vals: seq<Cell>, k: Cell, v: Cell, key: Cell)
    requires |keys| == |vals|
    ensures History(keys + [k], vals + [v], key) == History(keys, vals, key) + (if k == key then [v] else [])
  {
    assert (keys + [k])[..|keys|] == keys && (vals + [v])[..|vals|] == vals;
  }

  lemma {:induction false} HistoryAppend(k1: seq<Cell>, v1: seq<Cell>, k2: seq<Cell>, v2: seq<Cell>, key: Cell)
    requires |k1| == |v1| && |k2| == |v2|
    ensures History(k1 + k2, v1 + v2, key) == History(k1, v1, key) + History(k2, v2, key)
    decreases |k2|
  {
    if |k2| == 0 {
      assert k1 + k2 == k1 && v1 + v2 == v1;
    } else {
      var n := |k2| - 1;
      var e := if k2[n] == key then [v2[n]] else [];
      calc {
        History(k1 + k2, v1 + v2, key);
        { assert k1 + k2 == (k1 + k2[..n]) + [k2[n]] && v1 + v2 == (v1 + v2[..n]) + [v2[n]]; }
        History((k1 + k2[..n]) + [k2[n]], (v1 + v2[..n]) + [v2[n]], key);
        { HistorySnoc(k1 + k2[..n], v1 + v2[..n], k2[n], v2[n], key); }
        History(k1 + k2[..n], v1 + v2[..n], key) + e;
        { HistoryAppend(k1, v1, k2[..n], v2[..n], key); }
        (History(k1, v1, key) + History(k2[..n], v2[..n], key)) + e;
        History(k1, v1, key) + (History(k2[..n], v2[..n], key) + e);
        { assert k2 == k2[..n] + [k2[n]] && v2 == v2[..n] + [v2[n]];
          HistorySnoc(k2[..n], v2[..n], k2[n], v2[n], key); }
        History(k1, v1, key) + History(k2, v2, key);
      }
    }
  }

  /** The value of row `j` sits in its group's history right after the values
      of the earlier rows of the group. */
  lemma HistoryAt(keys: seq<Cell>, vals: seq<Cell>, key: Cell, j: nat)
    requires |keys| == |vals| && j < |keys| && keys[j] == key
    ensures Count(keys[..j], key) < |History(keys, vals, key)|
    ensures History(keys, vals, key)[Count(keys[..j], key)] == vals[j]
  {
    var before, vbefore := keys[..j], vals[..j];
    var upto, vupto := before + [key], vbefore + [vals[j]];
    var after, vafter := keys[j + 1..], vals[j + 1..];
    assert keys == upto + after && vals == vupto + vafter;
    HistoryAppend(upto, vupto, after, vafter, key);
    HistorySnoc(before, vbefore, key, vals[j], key);
    var h0 := History(before, vbefore, key);
    assert History(keys, vals, key) == h0 + [vals[j]] + History(after, vafter, key);
  }

  /** Only the values of the group's own rows enter its history. */
  lemma {:induction false} HistoryOwnGroup(keys: seq<Cell>, vals: seq<Cell>, vals': seq<Cell>, key: Cell)
    requires |keys| == |vals| == |vals'|
    requires forall j :: 0 <= j < |keys| && keys[j] == key ==> vals[j] == vals'[j]
    ensures History(keys, vals, key) == History(keys, vals', key)
  {
    if |keys| > 0 {
      var n := |keys| - 1;
      HistoryOwnGroup(keys[..n], vals[..n], vals'[..n], key);
    }
  }

  /** A column whose cell at each row is `g` of the row's group history up to
      and including the row: shift by n >= 0, rolling windows, diff. */
  function Causal(keys: seq<Cell>, vals: seq<Cell>, g: seq<Cell> -> Cell): (r: seq<Cell>)
    requires |keys| == |vals|
    ensures |r| == |keys|
  {
    if |keys| == 0 then []
    else
      var n := |keys| - 1;
      Causal(keys[..n], vals[..n], g) + [if keys[n] == Null then Null else g(History(keys, vals, keys[n]))]
  }

  /** A column whose cell at each row is `g` of the row's group history from
      the row on: shift by n < 0. */
  function Anticausal(keys: seq<Cell>, vals: seq<Cell>, g: seq<Cell> -> Cell): (r: seq<Cell>)
    requires |keys| == |vals|
    ensures |r| == |keys|
  {
    if |keys| == 0 then []
    else [if keys[0] == Null then Null else g(History(keys, vals, keys[0]))] + Anticausal(keys[1..], vals[1..], g)
  }

  /** Later rows do not change a causal column's earlier cells. */
  lemma {:induction false} CausalPrefix(keys: seq<Cell>, vals: seq<Cell>, g: seq<Cell> -> Cell, m: nat)
    requires |keys| == |vals| && m <= |keys|
    ensures Causal(keys, vals, g)[..m] == Causal(keys[..m], vals[..m], g)
    decreases |keys|
  {
    if m < |keys| {
      var n := |keys| - 1;
      CausalPrefix(keys[..n], vals[..n], g, m);
      assert keys[..n][..m] == keys[..m] && vals[..n][..m] == vals[..m];
      assert Causal(keys, vals, g)[..n] == Causal(keys[..n], vals[..n], g);
    } else {
      assert keys[..m] == keys && vals[..m] == vals;
    }
  }

  lemma CausalAt(keys: seq<Cell>, vals: seq<Cell>, g: seq<Cell> -> Cell, k: nat)
    requires |keys| == |vals| && k < |keys|
    ensures Causal(keys, vals, g)[k]
         == if keys[k] == Null then Null else g(History(keys[..k + 1], vals[..k + 1], keys[k]))
  {
    CausalPrefix(keys, vals, g, k + 1);
    assert keys[..k + 1][..k] == keys[..k] && vals[..k + 1][..k] == vals[..k];
    assert Causal(keys, vals, g)[k] == Causal(keys, vals, g)[..k + 1][k];
  }

  lemma {:induction false} AnticausalAt(keys: seq<Cell>, vals: seq<Cell>, g: seq<Cell> -> Cell, k: nat)
    requires |keys| == |vals| && k < |keys|
    ensures Anticausal(keys, vals, g)[k]
         == if keys[k] == Null then Null else g(History(keys[k..], vals[k..], keys[k]))
  {
    if k == 0 {
      assert keys[0..] == keys && vals[0..] == vals;
    } else {
      AnticausalAt(keys[1..], vals[1..], g, k - 1);
      assert keys[1..][k - 1..] == keys[k..] && vals[1..][k - 1..] == vals[k..];
    }
  }

  /** No leakage: a causal cell depends only on the values of its own group's
      rows at or before it. */
  lemma CausalOwnPast(keys: seq<Cell>, vals: seq<Cell>, vals': seq<Cell>, g: seq<Cell> -> Cell, k: nat)
    requires |keys| == |vals| == |vals'| && k < |keys|
    requires forall j :: 0 <= j <= k && keys[j] == keys[k] ==> vals[j] == vals'[j]
    ensures Causal(keys, vals, g)[k] == Causal(keys, vals', g)[k]
  {
    CausalAt(keys, vals, g, k);
    CausalAt(keys, vals', g, k);
    HistoryOwnGroup(keys[..k + 1], vals[..k + 1], vals'[..k + 1], keys[k]);
  }

  /** `g` applied to every non-empty prefix of `h`. */
  function Scan(h: seq<Cell>, g: seq<Cell> -> Cell): (r: seq<Cell>)
    ensures |r| == |h|
  {
    if |h| == 0 then [] else Scan(h[..|h| - 1], g) + [g(h)]
  }

  lemma {:induction false} ScanAt(h: seq<Cell>, g: seq<Cell> -> Cell, t: nat)
    requires t < |h|
    ensures Scan(h, g)[t] == g(h[..t + 1])
  {
    var n := |h| - 1;
    if t < n {
      ScanAt(h[..n], g, t);
      assert h[..n][..t + 1] == h[..t + 1];
    } else {
      assert h[..t + 1] == h;
    }
  }

  /** A group's history of a causal column is `g` over the prefixes of the
      group's history of the input. */
  lemma {:induction false} HistoryOfCausal(keys: seq<Cell>, vals: seq<Cell>, g: seq<Cell> -> Cell, key: Cell)
    requires |keys| == |vals| && key != Null
    ensures History(keys, Causal(keys, vals, g), key) == Scan(History(keys, vals, key), g)
  {
    if |keys| > 0 {
      var n := |keys| - 1;
      var c := Causal(keys, vals, g);
      assert c[..n] == Causal(keys[..n], vals[..n], g);
      HistoryOfCausal(keys[..n], vals[..n], g, key);
      assert History(keys, c, key) == History(keys[..n], c[..n], key) + (if keys[n] == key then [c[n]] else []);
      if keys[n] == key {
        var h := History(keys, vals, key);
        assert h == History(keys[..n], vals[..n], key) + [vals[n]];
        assert h[..|h| - 1] == History(keys[..n], vals[..n], key);
        assert Scan(h, g) == Scan(h[..|h| - 1], g) + [g(h)];
        assert c[n] == g(h);
      } else {
        assert History(keys, vals, key) == History(keys[..n], vals[..n], key);
      }
    }
  }

  /** The mask keeps or drops whole groups. */
  ghost predicate KeepsGroups(keys: seq<Cell>, keep: seq<bool>)
    requires |keys| == |keep|
  {
    forall i, j :: 0 <= i < |keys| && 0 <= j < |keys| && keys[i] == keys[j] ==> keep[i] == keep[j]
  }

  /** Removing rows of other groups leaves a kept group's history as it was. */
  lemma {:induction false} HistorySelect(keys: seq<Cell>, vals: seq<Cell>, keep: seq<bool>, key: Cell)
    requires |keys| == |vals| == |keep|
    requires forall i :: 0 <= i < |keys| && keys[i] == key ==> keep[i]
    ensures History(Select(keys, keep), Select(vals, keep), key) == History(keys, vals, key)
  {
    if |keys| > 0 {
      var n := |keys| - 1;
      HistorySelect(keys[..n], vals[..n], keep[..n], key);
      var sk, sv := Select(keys[..n], keep[..n]), Select(vals[..n], keep[..n]);
      if keep[n] {
        assert Select(keys, keep) == sk + [keys[n]] && Select(vals, keep) == sv + [vals[n]];
        assert (sk + [keys[n]])[..|sk|] == sk && (sv + [vals[n]])[..|sv|] == sv;
        assert History(sk + [keys[n]], sv + [vals[n]], key)
            == History(sk, sv, key) + (if keys[n] == key then [vals[n]] else []);
      } else {
        assert Select(keys, keep) == sk && Select(vals, keep) == sv;
        assert keys[n] != key;
      }
    }
  }

  /** Filtering whole groups commutes with every causal column. */
  lemma {:induction false} CausalSelect(keys: seq<Cell>, vals: seq<Cell>, keep: seq<bool>, g: seq<Cell> -> Cell)
    requires |keys| == |vals| == |keep| && KeepsGroups(keys, keep)
    ensures Select(Causal(keys, vals, g), keep) == Causal(Select(keys, keep), Select(vals, keep), g)
  {
    if |keys| > 0 {
      var n := |keys| - 1;
      var c := Causal(keys, vals, g);
      assert c[..n] == Causal(keys[..n], vals[..n], g);
      assert KeepsGroups(keys[..n], keep[..n]);
      CausalSelect(keys[..n], vals[..n], keep[..n], g);
      var sk, sv := Select(keys, keep), Select(vals, keep);
      if keep[n] {
        var m := |sk| - 1;
        assert sk == Select(keys[..n], keep[..n]) + [keys[n]];
        assert sv == Select(vals[..n], keep[..n]) + [vals[n]];
        assert sk[..m] == Select(keys[..n], keep[..n]);
        assert sv[..m] == Select(vals[..n], keep[..n]);
        assert sk[m] == keys[n];
        HistorySelect(keys, vals, keep, keys[n]);
        var cell := if keys[n] == Null then Null else g(History(keys, vals, keys[n]));
        assert c == Causal(keys[..n], vals[..n], g) + [cell];
        assert Select(c, keep) == Select(c[..n], keep[..n]) + [cell];
        assert Causal(sk, sv, g) == Causal(sk[..m], sv[..m], g) + [cell];
      } else {
        assert sk == Select(keys[..n], keep[..n]) && sv == Select(vals[..n], keep[..n]);
        assert Select(c, keep) == Select(c[..n], keep[..n]);
      }
    }
  }
}
