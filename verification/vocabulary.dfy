/** The label vocabulary (`TYPES`): one pass over the training manifest adds every
    label-column value to a `Set`, and `Array.from` of that set is the vocabulary,
    so it lists each value once, in the order it was first met. */
module Vocabulary {
  import opened Arrays
  import opened Manifest

  /** `typeSet.add(v)`, with the set represented by its insertion order. */
  function AddValue(seen: seq<string>, v: string): (r: seq<string>)
    ensures forall x :: x in r <==> x in seen || x == v
    ensures NoDuplicates(seen) ==> NoDuplicates(r)
    ensures |seen| <= |r| && r[..|seen|] == seen
  {
    if v in seen then seen else seen + [v]
  }

  /** Adding a list of values to the set one by one, from left to right. */
  function AddAll(seen: seq<string>, vals: seq<string>): seq<string> {
    if vals == [] then seen
    else AddValue(AddAll(seen, vals[..|vals| - 1]), vals[|vals| - 1])
  }

  /** The `forEach` over one row's keys: every label column's value is added. */
  function ScanRow(seen: seq<string>, cols: seq<Column>): (r: seq<string>)
    ensures forall x :: x in r <==> x in seen || x in LabelValues(cols)
    ensures NoDuplicates(seen) ==> NoDuplicates(r)
    ensures |seen| <= |r| && r[..|seen|] == seen
  {
    if cols == [] then seen
    else
      var last := cols[|cols| - 1];
      var s := ScanRow(seen, cols[..|cols| - 1]);
      if IsLabelColumn(last.0) then AddValue(s, last.1) else s
  }

  /** The vocabulary pass over the whole manifest, row after row. */
  function BuildVocabulary(rows: seq<Row>): (r: seq<string>)
    ensures NoDuplicates(r)
    ensures forall x :: x in r <==> x in LabelStream(rows)
  {
    if rows == [] then []
    else ScanRow(BuildVocabulary(rows[..|rows| - 1]), rows[|rows| - 1])
  }

  /** Every label-column value of the manifest, row by row and column by column. */
  function LabelStream(rows: seq<Row>): (s: seq<string>)
    ensures forall v :: v in s <==>
      exists k, i :: 0 <= k < |rows| && 0 <= i < |rows[k]| && IsLabelColumn(rows[k][i].0) && rows[k][i].1 == v
  {
    if rows == [] then []
    else
      var n := |rows| - 1;
      assert forall k :: 0 <= k < n ==> rows[..n][k] == rows[k];
      LabelStream(rows[..n]) + LabelValues(rows[n])
  }

  /** The values are seen in the order the set records them: the result of adding
      `vals` to an empty set has no duplicates, holds exactly the values of `vals`,
      and lists them by position of first occurrence. */
  lemma {:induction false} AddAllFirstSeen(vals: seq<string>)
    ensures NoDuplicates(AddAll([], vals))
    ensures forall x :: x in AddAll([], vals) <==> x in vals
    ensures forall i, j :: 0 <= i < j < |AddAll([], vals)| ==>
      IndexOf(vals, AddAll([], vals)[i]) < IndexOf(vals, AddAll([], vals)[j])
  {
    if vals != [] {
      var n := |vals| - 1;
      var p, x := vals[..n], vals[n];
      assert vals == p + [x];
      AddAllFirstSeen(p);
      var r' := AddAll([], p);
      var r := AddAll([], vals);
      assert r == AddValue(r', x);
      forall y | y in p
        ensures IndexOf(vals, y) == IndexOf(p, y)
      {
        IndexOfPrefix(p, [x], y);
      }
      forall i, j | 0 <= i < j < |r|
        ensures IndexOf(vals, r[i]) < IndexOf(vals, r[j])
      {
        if j < |r'| {
          assert r[i] == r'[i] && r[j] == r'[j];
        } else {
          assert r[j] == x && x !in p && r[i] == r'[i];
          assert IndexOf(vals, r[i]) == IndexOf(p, r[i]) < |p|;
        }
      }
    }
  }

  /** Adding two lists in a row is adding their concatenation. */
  lemma {:induction false} AddAllAppend(seen: seq<string>, a: seq<string>, b: seq<string>)
    ensures AddAll(seen, a + b) == AddAll(AddAll(seen, a), b)
  {
    if b == [] {
      assert a + b == a;
    } else {
      var n := |b| - 1;
      assert (a + b)[..|a + b| - 1] == a + b[..n];
      AddAllAppend(seen, a, b[..n]);
    }
  }

  /** Scanning one row adds its label values, in column order. */
  lemma {:induction false} ScanRowAddsLabelValues(seen: seq<string>, cols: seq<Column>)
    ensures ScanRow(seen, cols) == AddAll(seen, LabelValues(cols))
  {
    if cols != [] {
      var n := |cols| - 1;
      ScanRowAddsLabelValues(seen, cols[..n]);
      var lv := LabelValues(cols[..n]);
      if IsLabelColumn(cols[n].0) {
        assert (lv + [cols[n].1])[..|lv|] == lv;
      }
    }
  }

  /** The row-by-row, column-by-column pass adds the manifest's label stream in order. */
  lemma {:induction false} BuildVocabularyAddsStream(rows: seq<Row>)
    ensures BuildVocabulary(rows) == AddAll([], LabelStream(rows))
  {
    if rows != [] {
      var n := |rows| - 1;
      BuildVocabularyAddsStream(rows[..n]);
      ScanRowAddsLabelValues(BuildVocabulary(rows[..n]), rows[n]);
      AddAllAppend([], LabelStream(rows[..n]), LabelValues(rows[n]));
    }
  }

  /** The vocabulary has no duplicates, holds every label-column value of the
      manifest (the empty string included, when a label cell is empty), and lists
      the values in the order of their first appearance. */
  lemma VocabularyFirstSeen(rows: seq<Row>)
    ensures NoDuplicates(BuildVocabulary(rows))
    ensures forall v :: v in BuildVocabulary(rows) <==>
      exists k, i :: 0 <= k < |rows| && 0 <= i < |rows[k]| && IsLabelColumn(rows[k][i].0) && rows[k][i].1 == v
    ensures forall i, j :: 0 <= i < j < |BuildVocabulary(rows)| ==>
      IndexOf(LabelStream(rows), BuildVocabulary(rows)[i]) < IndexOf(LabelStream(rows), BuildVocabulary(rows)[j])
  {
    BuildVocabularyAddsStream(rows);
    AddAllFirstSeen(LabelStream(rows));
  }

  /** An empty label cell puts the empty string into the vocabulary: the pass does
      not filter values. */
  lemma EmptyCellEntersVocabulary(rows: seq<Row>, k: int, i: int)
    requires 0 <= k < |rows| && 0 <= i < |rows[k]|
    requires IsLabelColumn(rows[k][i].0) && rows[k][i].1 == ""
    ensures "" in BuildVocabulary(rows)
  {
    VocabularyFirstSeen(rows);
  }
}
