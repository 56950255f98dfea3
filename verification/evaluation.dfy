/** `loadTestData`: the held-out rows are encoded against the vocabulary of the
    TRAINING manifest. Each row task pushes its image path onto `NAMES` (inside
    `readAndPreprocessImage`) and, after the label is encoded, its image and label
    vector onto two shared arrays. Between those pushes a task only waits for
    promise continuations (microtasks), while other tasks resume from their own
    codec callbacks, so all three arrays are filled in the same completion order. */
module Evaluation {
  import opened Results
  import opened Arrays
  import opened Manifest
  import opened Vocabulary
  import opened Encoding
  import opened Images
  import opened Assembly
  import opened Diagnostics

  /** The outcome of held-out row `k`. */
  function TestEntry<I>(existing: set<string>, preprocess: string -> Option<I>,
                        trainRows: seq<Row>, testRows: seq<Row>, k: int): Result<Entry<I>, LoadError>
    requires 0 <= k < |testRows|
  {
    LoadImageForEntry(existing, preprocess, EvalSplit, BuildVocabulary(trainRows), testRows[k])
  }

  /** `testImages`, `testLabels` and `NAMES` once every row task has finished. */
  datatype TestData<I> = TestData(images: seq<I>, labels: seq<seq<int>>, names: seq<string>)

  /** Running the row task `load` on every row, each task pushing its path, image
      and label vector as it finishes, in the completion order `order`. The first
      failure in that order, or stacking an empty batch, fails the load. */
  function PushAll<I>(load: Row -> Result<Entry<I>, LoadError>, rows: seq<Row>, order: seq<nat>): (r: Result<TestData<I>, LoadError>)
    requires IsCompletionOrder(order, |rows|)
    ensures r.Ok? <==> 0 < |rows| && forall k :: 0 <= k < |rows| ==> load(rows[k]).Ok?
    ensures r.Ok? ==> |r.value.images| == |rows| && |r.value.labels| == |rows| && |r.value.names| == |rows|
    ensures r.Ok? ==> forall j :: 0 <= j < |rows| ==>
      load(rows[order[j]]) == Ok(Entry(r.value.names[j], r.value.images[j], r.value.labels[j]))
    ensures r.Err? && 0 < |rows| ==>
      exists j :: 0 <= j < |rows| && load(rows[order[j]]) == Err(r.error) && forall j' :: 0 <= j' < j ==> load(rows[order[j']]).Ok?
    ensures |rows| == 0 ==> r == Err(EmptyBatch)
  {
    var results := seq(|rows|, k requires 0 <= k < |rows| => load(rows[k]));
    assert forall k :: 0 <= k < |rows| ==> results[k] == load(rows[k]);
    match FirstFailure(results, order)
    case Some(j) => Err(results[order[j]].error)
    case None =>
      EveryRowCompleted(results, order);
      var n := |rows|;
      if n == 0 then Err(EmptyBatch) else
      Ok(TestData(seq(n, j requires 0 <= j < n => results[order[j]].value.image),
                  seq(n, j requires 0 <= j < n => results[order[j]].value.labelVector),
                  seq(n, j requires 0 <= j < n => results[order[j]].value.path)))
  }

  /** `loadTestData`: the held-out rows, encoded against the training vocabulary.
      A failure leaves the returned promise unsettled and aborts the run: no
      dataset is produced. */
  function LoadTestData<I>(existing: set<string>, preprocess: string -> Option<I>,
                           trainRows: seq<Row>, testRows: seq<Row>, order: seq<nat>): (r: Result<TestData<I>, LoadError>)
    requires IsCompletionOrder(order, |testRows|)
    ensures r.Ok? <==> 0 < |testRows| && forall k :: 0 <= k < |testRows| ==> TestEntry(existing, preprocess, trainRows, testRows, k).Ok?
    ensures r.Ok? ==> |r.value.images| == |testRows| && |r.value.labels| == |testRows| && |r.value.names| == |testRows|
    ensures r.Ok? ==> forall j :: 0 <= j < |testRows| ==>
      TestEntry(existing, preprocess, trainRows, testRows, order[j]) == Ok(Entry(r.value.names[j], r.value.images[j], r.value.labels[j]))
    ensures r.Err? && 0 < |testRows| ==>
      exists j :: 0 <= j < |testRows| && TestFailsFirst(existing, preprocess, trainRows, testRows, order, j, r.error)
    ensures |testRows| == 0 ==> r == Err(EmptyBatch)
  {
    var vocab := BuildVocabulary(trainRows);
    var load := (row: Row) => LoadImageForEntry(existing, preprocess, EvalSplit, vocab, row);
    assert forall k :: 0 <= k < |testRows| ==> load(testRows[k]) == TestEntry(existing, preprocess, trainRows, testRows, k);
    var r := PushAll(load, testRows, order);
    assert r.Err? && 0 < |testRows| ==>
      exists j :: 0 <= j < |testRows| && TestFailsFirst(existing, preprocess, trainRows, testRows, order, j, r.error) by {
      if r.Err? && 0 < |testRows| {
        var j :| 0 <= j < |testRows| && load(testRows[order[j]]) == Err(r.error)
          && forall j' :: 0 <= j' < j ==> load(testRows[order[j']]).Ok?;
        assert TestFailsFirst(existing, preprocess, trainRows, testRows, order, j, r.error);
      }
    }
    r
  }

  /** Held-out row `order[j]` is the first to fail in the completion order, with `e`. */
  predicate TestFailsFirst<I>(existing: set<string>, preprocess: string -> Option<I>,
                              trainRows: seq<Row>, testRows: seq<Row>, order: seq<nat>, j: int, e: LoadError)
    requires IsCompletionOrder(order, |testRows|)
  {
    && 0 <= j < |testRows|
    && TestEntry(existing, preprocess, trainRows, testRows, order[j]) == Err(e)
    && forall j' :: 0 <= j' < j ==> TestEntry(existing, preprocess, trainRows, testRows, order[j']).Ok?
  }

  /** When every task finishes in manifest order, position `k` of all three arrays
      is manifest row `k`. */
  lemma ManifestOrderCorrespondence<I>(existing: set<string>, preprocess: string -> Option<I>,
                                       trainRows: seq<Row>, testRows: seq<Row>)
    requires LoadTestData(existing, preprocess, trainRows, testRows, ManifestOrder(|testRows|)).Ok?
    ensures forall k :: 0 <= k < |testRows| ==>
      var d := LoadTestData(existing, preprocess, trainRows, testRows, ManifestOrder(|testRows|)).value;
      TestEntry(existing, preprocess, trainRows, testRows, k) == Ok(Entry(d.names[k], d.images[k], d.labels[k]))
  {
  }

  /** A different completion order permutes the held-out dataset as a whole: it
      loads in both or in neither, and every position of one load holds the path,
      image and label of some position of the other. */
  lemma TestDataPermutedByOrder<I>(existing: set<string>, preprocess: string -> Option<I>,
                                   trainRows: seq<Row>, testRows: seq<Row>, order1: seq<nat>, order2: seq<nat>)
    requires IsCompletionOrder(order1, |testRows|) && IsCompletionOrder(order2, |testRows|)
    requires LoadTestData(existing, preprocess, trainRows, testRows, order1).Ok?
    ensures LoadTestData(existing, preprocess, trainRows, testRows, order2).Ok?
    ensures var d1 := LoadTestData(existing, preprocess, trainRows, testRows, order1).value;
      var d2 := LoadTestData(existing, preprocess, trainRows, testRows, order2).value;
      forall j :: 0 <= j < |testRows| ==>
        exists i :: 0 <= i < |testRows| && d2.names[j] == d1.names[i] && d2.images[j] == d1.images[i] && d2.labels[j] == d1.labels[i]
  {
    var d1 := LoadTestData(existing, preprocess, trainRows, testRows, order1).value;
    var d2 := LoadTestData(existing, preprocess, trainRows, testRows, order2).value;
    forall j | 0 <= j < |testRows|
      ensures
        exists i :: 0 <= i < |testRows| && d2.names[j] == d1.names[i] && d2.images[j] == d1.images[i] && d2.labels[j] == d1.labels[i]
    {
      var k := order2[j];
      assert k in order1;
      var i :| 0 <= i < |order1| && order1[i] == k;
      assert TestEntry(existing, preprocess, trainRows, testRows, k) == Ok(Entry(d1.names[i], d1.images[i], d1.labels[i]));
    }
  }

  /** Held-out label vectors are multi-hot over the training vocabulary: entry `i`
      of example `j` is 1 exactly when training token `i` is a non-empty token of
      the row; tokens the training manifest never used are dropped. */
  lemma TestLabelsOverTrainingVocabulary<I>(existing: set<string>, preprocess: string -> Option<I>,
                                            trainRows: seq<Row>, testRows: seq<Row>,
                                            order: seq<nat>, j: int)
    requires IsCompletionOrder(order, |testRows|)
    requires LoadTestData(existing, preprocess, trainRows, testRows, order).Ok?
    requires 0 <= j < |testRows|
    ensures IsMultiHot(LoadTestData(existing, preprocess, trainRows, testRows, order).value.labels[j],
                       BuildVocabulary(trainRows), ExtractTokens(testRows[order[j]]))
  {
    VocabularyFirstSeen(trainRows);
    DistinctVocabularyEncoding(BuildVocabulary(trainRows), ExtractTokens(testRows[order[j]]));
  }

  /** Whatever the completion order, every mismatch line names the image of the
      very row whose label vector was compared, and its "actual" token is read from
      that row's own label vector: the three arrays are permuted consistently. */
  lemma ReportNamesComparedRow<I>(existing: set<string>, preprocess: string -> Option<I>,
                                  trainRows: seq<Row>, testRows: seq<Row>, order: seq<nat>,
                                  preds: seq<seq<real>>)
    requires IsCompletionOrder(order, |testRows|)
    requires LoadTestData(existing, preprocess, trainRows, testRows, order).Ok?
    requires |preds| <= |testRows|
    ensures var d := LoadTestData(existing, preprocess, trainRows, testRows, order).value;
      var vocab := BuildVocabulary(trainRows);
      var report := Report(preds, d.labels, d.names, vocab);
      forall k :: 0 <= k < |report| ==>
        && TestEntry(existing, preprocess, trainRows, testRows, order[report[k].index]).Ok?
        && report[k].image == TestEntry(existing, preprocess, trainRows, testRows, order[report[k].index]).value.path
        && report[k].actual == Show(vocab, TrueIndex(TestEntry(existing, preprocess, trainRows, testRows, order[report[k].index]).value.labelVector))
  {
    var d := LoadTestData(existing, preprocess, trainRows, testRows, order).value;
    var vocab := BuildVocabulary(trainRows);
    var report := Report(preds, d.labels, d.names, vocab);
    forall k | 0 <= k < |report|
      ensures report[k].image == Show(d.names, report[k].index)
      ensures report[k].actual == Show(vocab, TrueIndex(d.labels[report[k].index]))
    {
      ReportLineContent(preds, d.labels, d.names, vocab, |preds|, k);
    }
  }
}
