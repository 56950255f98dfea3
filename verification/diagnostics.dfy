/** The per-example comparison in `evaluateModel`: the predicted class is the
    first position of the highest score, the true class the first position of a
    1 in the label vector, and a mismatch line is printed for every example where
    the two differ. Scores are modelled as reals (no NaN or infinities). */
module Diagnostics {
  import opened Arrays

  /** `Math.max(...scores)` for a non-empty row. */
  function Max(scores: seq<real>): (m: real)
    requires |scores| > 0
    ensures m in scores
    ensures forall j :: 0 <= j < |scores| ==> scores[j] <= m
  {
    if |scores| == 1 then scores[0]
    else
      var m := Max(scores[1..]);
      if scores[0] >= m then scores[0] else m
  }

  /** `scores.indexOf(Math.max(...scores))`: the smallest index holding the
      maximum score; -1 for an empty row (the maximum of nothing is -Infinity,
      which no element equals). */
  function PredictedIndex(scores: seq<real>): (r: int)
    ensures -1 <= r < |scores|
    ensures r == -1 <==> |scores| == 0
  {
    if |scores| == 0 then -1 else IndexOf(scores, Max(scores))
  }

  /** The predicted index is the first position of a highest score. */
  lemma PredictedIndexIsFirstMax(scores: seq<real>)
    ensures |scores| == 0 ==> PredictedIndex(scores) == -1
    ensures |scores| > 0 ==> 0 <= PredictedIndex(scores) < |scores|
    ensures |scores| > 0 ==> forall j :: 0 <= j < |scores| ==> scores[j] <= scores[PredictedIndex(scores)]
    ensures |scores| > 0 ==> forall j :: 0 <= j < PredictedIndex(scores) ==> scores[j] < scores[PredictedIndex(scores)]
  {
  }

  /** `label.indexOf(1)`: the first position holding 1, or -1 when there is none. */
  function TrueIndex(vector: seq<int>): (r: int)
    ensures r == -1 <==> forall j :: 0 <= j < |vector| ==> vector[j] != 1
    ensures r != -1 ==> 0 <= r < |vector| && vector[r] == 1 && forall j :: 0 <= j < r ==> vector[j] != 1
  {
    IndexOf(vector, 1)
  }

  /** Example `i`'s top-1 prediction differs from its ground truth. */
  predicate Disagrees(preds: seq<seq<real>>, labels: seq<seq<int>>, i: int)
    requires 0 <= i < |preds| <= |labels|
  {
    PredictedIndex(preds[i]) != TrueIndex(labels[i])
  }

  /** One mismatch line: the example's position, `NAMES[i]`, and the vocabulary
      entries at the predicted and the true index ("undefined" when out of range). */
  datatype Mismatch = Mismatch(index: nat, image: string, predicted: string, actual: string)

  /** The text printed for a mismatch. */
  function Line(m: Mismatch): (r: string)
    ensures |r| == |LinePrefix| + |m.image| + |PredictedLabel| + |m.predicted| + |ActualLabel| + |m.actual|
    ensures OccursAt(r, LinePrefix, 0)
    ensures OccursAt(r, m.image, |LinePrefix|)
    ensures OccursAt(r, PredictedLabel, |LinePrefix| + |m.image|)
    ensures OccursAt(r, m.predicted, |LinePrefix| + |m.image| + |PredictedLabel|)
    ensures OccursAt(r, ActualLabel, |LinePrefix| + |m.image| + |PredictedLabel| + |m.predicted|)
    ensures OccursAt(r, m.actual, |r| - |m.actual|)
  {
    LinePrefix + m.image + PredictedLabel + m.predicted + ActualLabel + m.actual
  }

  const LinePrefix: string := "Mismatch on image "
  const PredictedLabel: string := ": Predicted: "
  const ActualLabel: string := ", Actual: "

  /** The line that example `i` would produce. */
  function MismatchAt(preds: seq<seq<real>>, labels: seq<seq<int>>, names: seq<string>,
                      vocab: seq<string>, i: nat): Mismatch
    requires i < |preds| <= |labels|
  {
    Mismatch(i, Show(names, i), Show(vocab, PredictedIndex(preds[i])), Show(vocab, TrueIndex(labels[i])))
  }

  /** The `for` loop over the first `n` examples: a line for each disagreeing
      example, in increasing example order, and none for the others. */
  function MismatchReport(preds: seq<seq<real>>, labels: seq<seq<int>>, names: seq<string>,
                          vocab: seq<string>, n: nat): (report: seq<Mismatch>)
    requires n <= |preds| <= |labels|
    ensures forall k :: 0 <= k < |report| ==>
      report[k].index < n && Disagrees(preds, labels, report[k].index)
    ensures forall k, l :: 0 <= k < l < |report| ==> report[k].index < report[l].index
  {
    if n == 0 then []
    else
      var prev := MismatchReport(preds, labels, names, vocab, n - 1);
      if Disagrees(preds, labels, n - 1) then
        prev + [MismatchAt(preds, labels, names, vocab, n - 1)]
      else prev
  }

  /** The report of a whole prediction batch: the loop runs over every prediction row. */
  function Report(preds: seq<seq<real>>, labels: seq<seq<int>>, names: seq<string>,
                  vocab: seq<string>): seq<Mismatch>
    requires |preds| <= |labels|
  {
    MismatchReport(preds, labels, names, vocab, |preds|)
  }

  /** Each line carries `NAMES[i]` and the vocabulary entries at example `i`'s
      predicted and true index, "undefined" where an index falls outside. */
  lemma {:induction false} ReportLineContent(preds: seq<seq<real>>, labels: seq<seq<int>>, names: seq<string>,
                                             vocab: seq<string>, n: nat, k: int)
    requires n <= |preds| <= |labels|
    requires 0 <= k < |MismatchReport(preds, labels, names, vocab, n)|
    ensures var m := MismatchReport(preds, labels, names, vocab, n)[k];
      && m.image == Show(names, m.index)
      && m.predicted == Show(vocab, PredictedIndex(preds[m.index]))
      && m.actual == Show(vocab, TrueIndex(labels[m.index]))
  {
    var prev := MismatchReport(preds, labels, names, vocab, n - 1);
    if k < |prev| {
      ReportLineContent(preds, labels, names, vocab, n - 1, k);
    }
  }

  /** What the loop writes to the console: one line per report entry. */
  function Printed(preds: seq<seq<real>>, labels: seq<seq<int>>, names: seq<string>,
                   vocab: seq<string>): seq<string>
    requires |preds| <= |labels|
  {
    var report := Report(preds, labels, names, vocab);
    seq(|report|, k requires 0 <= k < |report| => Line(report[k]))
  }

  /** Every printed line is about a disagreeing example `i`, names `NAMES[i]`
      right after the fixed opening words, and ends with the true class. */
  lemma PrintedLineNamesExample(preds: seq<seq<real>>, labels: seq<seq<int>>, names: seq<string>,
                                vocab: seq<string>, k: int)
    requires |preds| <= |labels|
    requires 0 <= k < |Printed(preds, labels, names, vocab)|
    ensures var i := Report(preds, labels, names, vocab)[k].index;
      var line := Printed(preds, labels, names, vocab)[k];
      && i < |preds| && Disagrees(preds, labels, i)
      && OccursAt(line, Show(names, i), |LinePrefix|)
      && OccursAt(line, Show(vocab, TrueIndex(labels[i])), |line| - |Show(vocab, TrueIndex(labels[i]))|)
  {
    ReportLineContent(preds, labels, names, vocab, |preds|, k);
  }

  /** Every disagreeing example among the first `n` gets a line. */
  lemma {:induction false} ReportCoversMismatches(preds: seq<seq<real>>, labels: seq<seq<int>>, names: seq<string>,
                                                  vocab: seq<string>, n: nat, i: nat)
    requires n <= |preds| <= |labels|
    requires i < n && Disagrees(preds, labels, i)
    ensures exists k ::
      0 <= k < |MismatchReport(preds, labels, names, vocab, n)| && MismatchReport(preds, labels, names, vocab, n)[k].index == i
  {
    var prev := MismatchReport(preds, labels, names, vocab, n - 1);
    var report := MismatchReport(preds, labels, names, vocab, n);
    if i == n - 1 {
      assert report[|prev|].index == i;
    } else {
      ReportCoversMismatches(preds, labels, names, vocab, n - 1, i);
      var k :| 0 <= k < |prev| && prev[k].index == i;
      assert report[k] == prev[k];
    }
  }

  /** A label vector with no 1 never matches a non-empty prediction row: the true
      index is -1 while the predicted index is a real position. */
  lemma AllZeroLabelIsMismatch(preds: seq<seq<real>>, labels: seq<seq<int>>, i: nat)
    requires i < |preds| <= |labels|
    requires |preds[i]| > 0
    requires forall j :: 0 <= j < |labels[i]| ==> labels[i][j] != 1
    ensures Disagrees(preds, labels, i)
    ensures TrueIndex(labels[i]) == -1
  {
    PredictedIndexIsFirstMax(preds[i]);
  }

  /** Two examples, the first predicted right and the second wrong: exactly one
      line, naming the second example's image, predicted token and actual token. */
  lemma ReportExample()
    ensures MismatchReport([[0.9, 0.1], [0.8, 0.2]], [[1, 0], [0, 1]], ["x.png", "y.png"], ["A", "B"], 2)
      == [Mismatch(1, "y.png", "A", "B")]
  {
    var preds: seq<seq<real>> := [[0.9, 0.1], [0.8, 0.2]];
    var labels: seq<seq<int>> := [[1, 0], [0, 1]];
    PredictedIndexIsFirstMax(preds[0]);
    PredictedIndexIsFirstMax(preds[1]);
    assert PredictedIndex(preds[0]) == 0;
    assert PredictedIndex(preds[1]) == 0;
    assert TrueIndex(labels[0]) == 0;
    assert TrueIndex(labels[1]) == 1;
  }
}
