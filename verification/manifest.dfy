/** Manifest rows as the CSV reader hands them over: one JavaScript object per line,
    that is, a list of (column name, value) pairs with distinct names, in the order
    `Object.keys` enumerates them. */
module Manifest {
  import opened Arrays

  type Column = (string, string)

  /** Two columns of one row never share a name: a JavaScript object has each key once. */
  predicate DistinctKeys(cols: seq<Column>) {
    forall i, j :: 0 <= i < j < |cols| ==> cols[i].0 != cols[j].0
  }

  type Row = cols: seq<Column> | DistinctKeys(cols)

  /** Columns whose name starts with this prefix hold label tokens. */
  const LabelPrefix: string := "Type"

  /** The column naming the image file, without its extension. */
  const NameColumn: string := "Name"

  /** `String.prototype.startsWith`. */
  predicate StartsWith(s: string, prefix: string) {
    |prefix| <= |s| && s[..|prefix|] == prefix
  }

  predicate IsLabelColumn(key: string) {
    StartsWith(key, LabelPrefix)
  }

  /** `Object.keys(data)`. */
  function Keys(cols: seq<Column>): (keys: seq<string>)
    ensures |keys| == |cols|
    ensures forall i :: 0 <= i < |cols| ==> keys[i] == cols[i].0
  {
    seq(|cols|, i requires 0 <= i < |cols| => cols[i].0)
  }

  /** `data.Name` as a template literal renders it: the value of the `Name` column,
      or "undefined" when the row has no such column. */
  function NameOf(row: Row): (name: string)
    ensures forall i :: 0 <= i < |row| && row[i].0 == NameColumn ==> name == row[i].1
    ensures (forall i :: 0 <= i < |row| ==> row[i].0 != NameColumn) ==> name == Undefined
  {
    var k := IndexOf(Keys(row), NameColumn);
    if k < 0 then Undefined else row[k].1
  }

  /** The values of the label columns, in column order, empty values included:
      what the vocabulary pass adds to its set for one row. */
  function LabelValues(cols: seq<Column>): (vals: seq<string>)
    ensures |vals| <= |cols|
    ensures forall v :: v in vals <==>
      exists i :: 0 <= i < |cols| && IsLabelColumn(cols[i].0) && cols[i].1 == v
  {
    if cols == [] then []
    else
      var last := cols[|cols| - 1];
      var init := LabelValues(cols[..|cols| - 1]);
      assert forall i :: 0 <= i < |cols| - 1 ==> cols[..|cols| - 1][i] == cols[i];
      if IsLabelColumn(last.0) then init + [last.1] else init
  }

  /** `filter(type => type)`: drop the empty strings, keep the order. */
  function DropEmpty(vals: seq<string>): (r: seq<string>)
    ensures |r| <= |vals|
    ensures forall v :: v in r <==> v in vals && v != ""
  {
    if vals == [] then []
    else
      var init := DropEmpty(vals[..|vals| - 1]);
      var last := vals[|vals| - 1];
      assert vals == vals[..|vals| - 1] + [last];
      if last == "" then init else init + [last]
  }

  /** Filtering a single value keeps it exactly when it is non-empty. */
  lemma DropEmptySingle(v: string)
    ensures DropEmpty([v]) == if v == "" then [] else [v]
  {
    assert [v][..0] == [];
  }

  /** Filtering distributes over concatenation, so the kept values stay in the
      order of the input. */
  lemma {:induction false} DropEmptyAppend(a: seq<string>, b: seq<string>)
    ensures DropEmpty(a + b) == DropEmpty(a) + DropEmpty(b)
  {
    if b == [] {
      assert a + b == a;
    } else {
      var n := |b| - 1;
      assert (a + b)[..|a + b| - 1] == a + b[..n];
      DropEmptyAppend(a, b[..n]);
      assert b == b[..n] + [b[n]];
    }
  }

  /** The label tokens of one row: the non-empty values of its label columns, in column order. */
  function ExtractTokens(row: seq<Column>): (tokens: seq<string>)
    ensures forall t :: t in tokens ==> t != ""
    ensures forall t :: t in tokens <==>
      t != "" && exists i :: 0 <= i < |row| && IsLabelColumn(row[i].0) && row[i].1 == t
  {
    DropEmpty(LabelValues(row))
  }

  /** A column contributes a token when it is a label column with a non-empty value. */
  predicate IsTokenColumn(c: Column) {
    IsLabelColumn(c.0) && c.1 != ""
  }

  predicate StrictlyIncreasing(s: seq<nat>) {
    forall i, j :: 0 <= i < j < |s| ==> s[i] < s[j]
  }

  /** The positions of the token-carrying columns, in increasing order. */
  function TokenColumns(cols: seq<Column>): (idx: seq<nat>)
    ensures StrictlyIncreasing(idx)
    ensures forall k :: 0 <= k < |idx| ==> idx[k] < |cols|
    ensures forall i :: 0 <= i < |cols| ==> (IsTokenColumn(cols[i]) <==> i in idx)
  {
    if cols == [] then []
    else
      var n := |cols| - 1;
      var init := TokenColumns(cols[..n]);
      assert forall i :: 0 <= i < n ==> cols[..n][i] == cols[i];
      if IsTokenColumn(cols[n]) then init + [n] else init
  }

  /** The values found at the given column positions. */
  function ValuesAt(cols: seq<Column>, idx: seq<nat>): (vals: seq<string>)
    requires forall k :: 0 <= k < |idx| ==> idx[k] < |cols|
    ensures |vals| == |idx|
    ensures forall k :: 0 <= k < |idx| ==> vals[k] == cols[idx[k]].1
  {
    seq(|idx|, k requires 0 <= k < |idx| => cols[idx[k]].1)
  }

  /** Token extraction is exactly "the values of the token columns, read left to right":
      nothing is reordered, nothing kept that is empty or outside a label column. */
  lemma {:induction false} TokensInColumnOrder(row: seq<Column>)
    ensures ExtractTokens(row) == ValuesAt(row, TokenColumns(row))
  {
    if row != [] {
      var n := |row| - 1;
      assert row[..n] + [row[n]] == row;
      TokensInColumnOrder(row[..n]);
      var lv := LabelValues(row[..n]);
      assert ExtractTokens(row) == DropEmpty(if IsLabelColumn(row[n].0) then lv + [row[n].1] else lv);
      if IsLabelColumn(row[n].0) {
        assert (lv + [row[n].1])[..|lv|] == lv;
      }
    }
  }
}
