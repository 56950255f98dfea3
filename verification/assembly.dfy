/** Dataset assembly. Every manifest row is turned into an image and a label
    vector by its own asynchronous task; the tasks finish in some order that the
    scripts do not control, modelled here as an explicit completion order. */
module Assembly {
  import opened Results
  import opened Arrays
  import opened Manifest
  import opened Vocabulary
  import opened Encoding
  import opened Images

  /** What one row yields: the path of its image file, the preprocessed image
      (opaque: the codec and tensor calls are not modelled) and its label vector. */
  datatype Entry<I> = Entry(path: string, image: I, labelVector: seq<int>)

  /** `loadImageForEntry` (and the body of each row task in the evaluation script):
      find the image file, preprocess it, then encode the row's label tokens.
      `preprocess` stands for `readAndPreprocessImage`; `None` is its failure. */
  function LoadImageForEntry<I>(existing: set<string>, preprocess: string -> Option<I>, split: string,
                                vocab: seq<string>, row: Row): (r: Result<Entry<I>, LoadError>)
    ensures ResolveImage(existing, split, NameOf(row)).Err? ==> r == Err(ImageNotFound(NameOf(row)))
    ensures ResolveImage(existing, split, NameOf(row)).Ok? ==>
      var path := ResolveImage(existing, split, NameOf(row)).value;
      && (preprocess(path).None? ==> r == Err(ImageProcessing(path)))
      && (preprocess(path).Some? ==> r.Ok? && r.value.path == path && r.value.image == preprocess(path).value)
    ensures r.Ok? ==> r.value.path in existing
    ensures r.Ok? ==> r.value.labelVector == EncodeTypesToOneHot(vocab, ExtractTokens(row))
  {
    var path :- ResolveImage(existing, split, NameOf(row));
    match preprocess(path)
    case None => Err(ImageProcessing(path))
    case Some(image) => Ok(Entry(path, image, EncodeTypesToOneHot(vocab, ExtractTokens(row))))
  }

  /** An order in which `n` concurrent row tasks finish: position `j` holds the row
      index of the `j`-th task to finish, and every row finishes exactly once. */
  predicate IsCompletionOrder(order: seq<nat>, n: nat) {
    && |order| == n
    && (forall j :: 0 <= j < n ==> order[j] < n)
    && (forall k :: 0 <= k < n ==> k in order)
  }

  /** Finishing in manifest order. */
  function ManifestOrder(n: nat): (order: seq<nat>)
    ensures IsCompletionOrder(order, n)
    ensures forall j :: 0 <= j < n ==> order[j] == j
  {
    var order: seq<nat> := seq(n, j requires 0 <= j => j as nat);
    forall k | 0 <= k < n
      ensures k in order
    {
      assert order[k] == k;
    }
    order
  }

  /** The position in the completion order of the first task that fails, if any:
      the rejection that `Promise.all` (or the unhandled rejection) reports. */
  function FirstFailure<T>(results: seq<Result<T, LoadError>>, order: seq<nat>): (r: Option<nat>)
    requires forall j :: 0 <= j < |order| ==> order[j] < |results|
    ensures r.None? <==> forall j :: 0 <= j < |order| ==> results[order[j]].Ok?
    ensures r.Some? ==> r.value < |order| && results[order[r.value]].Err?
    ensures r.Some? ==> forall j :: 0 <= j < r.value ==> results[order[j]].Ok?
  {
    if order == [] then None
    else if results[order[0]].Err? then Some(0)
    else
      match FirstFailure(results, order[1..])
      case None => None
      case Some(j) => Some(j + 1)
  }

  /** When no task in the completion order failed, no row failed: each row occurs in the order. */
  lemma EveryRowCompleted<T>(results: seq<Result<T, LoadError>>, order: seq<nat>)
    requires IsCompletionOrder(order, |results|)
    requires forall j :: 0 <= j < |order| ==> results[order[j]].Ok?
    ensures forall k :: 0 <= k < |results| ==> results[k].Ok?
  {
    forall k | 0 <= k < |results|
      ensures results[k].Ok?
    {
      assert k in order;
      var j :| 0 <= j < |order| && order[j] == k;
    }
  }

  /** The outcome of training row `k`, encoded against the vocabulary of the training manifest. */
  function TrainingEntry<I>(existing: set<string>, preprocess: string -> Option<I>, rows: seq<Row>, k: int): Result<Entry<I>, LoadError>
    requires 0 <= k < |rows|
  {
    LoadImageForEntry(existing, preprocess, TrainSplit, BuildVocabulary(rows), rows[k])
  }

  /** A row outcome that succeeded with this image and label vector. */
  ghost predicate Yields<I>(e: Result<Entry<I>, LoadError>, image: I, labelVector: seq<int>) {
    e.Ok? && e.value.image == image && e.value.labelVector == labelVector
  }

  datatype TrainingData<I> = TrainingData(images: seq<I>, labels: seq<seq<int>>)

  /** Running the row task `load` on every row, then the `Promise.all` continuation:
      the first failure in completion order rejects; otherwise the entries are read
      off in manifest order and stacked, which fails when there are none. */
  function LoadAll<I>(load: Row -> Result<Entry<I>, LoadError>, rows: seq<Row>, order: seq<nat>): (r: Result<TrainingData<I>, LoadError>)
    requires IsCompletionOrder(order, |rows|)
    ensures r.Ok? <==> 0 < |rows| && forall k :: 0 <= k < |rows| ==> load(rows[k]).Ok?
    ensures r.Ok? ==> |r.value.images| == |rows| && |r.value.labels| == |rows|
    ensures r.Ok? ==> forall k :: 0 <= k < |rows| ==> Yields(load(rows[k]), r.value.images[k], r.value.labels[k])
    ensures r.Err? && 0 < |rows| ==>
      exists j :: 0 <= j < |rows| && load(rows[order[j]]) == Err(r.error) && forall j' :: 0 <= j' < j ==> load(rows[order[j']]).Ok?
    ensures |rows| == 0 ==> r == Err(EmptyBatch)
  {
    var results := seq(|rows|, k requires 0 <= k < |rows| => load(rows[k]));
    assert forall k :: 0 <= k < |rows| ==> results[k] == load(rows[k]);
    match FirstFailure(results, order)
    case Some(j) => Err(results[order[j]].error)
    case None =>
      EveryRowCompleted(results, order);
      var n := |rows|;
      if n == 0 then Err(EmptyBatch) else
      Ok(TrainingData(seq(n, k requires 0 <= k < n => results[k].value.image),
                      seq(n, k requires 0 <= k < n => results[k].value.labelVector)))
  }

  /** `loadData`: build the vocabulary from the training manifest, run every row
      task, and — once all have succeeded — read the results off the array that
      `Promise.all` returns, which is in manifest order whatever the completion order.
      Stacking the results fails on an empty manifest, and `loadData` rejects. */
  function LoadData<I>(existing: set<string>, preprocess: string -> Option<I>, rows: seq<Row>,
                       order: seq<nat>): (r: Result<TrainingData<I>, LoadError>)
    requires IsCompletionOrder(order, |rows|)
    ensures r.Ok? <==> 0 < |rows| && forall k :: 0 <= k < |rows| ==> TrainingEntry(existing, preprocess, rows, k).Ok?
    ensures r.Ok? ==> |r.value.images| == |rows| && |r.value.labels| == |rows|
    ensures r.Ok? ==> forall k :: 0 <= k < |rows| ==> Yields(TrainingEntry(existing, preprocess, rows, k), r.value.images[k], r.value.labels[k])
    ensures r.Err? && 0 < |rows| ==> exists j :: 0 <= j < |rows| && FailsFirst(existing, preprocess, rows, order, j, r.error)
    ensures |rows| == 0 ==> r == Err(EmptyBatch)
  {
    var vocab := BuildVocabulary(rows);
    var load := (row: Row) => LoadImageForEntry(existing, preprocess, TrainSplit, vocab, row);
    assert forall k :: 0 <= k < |rows| ==> load(rows[k]) == TrainingEntry(existing, preprocess, rows, k);
    var r := LoadAll(load, rows, order);
    assert r.Err? && 0 < |rows| ==> exists j :: 0 <= j < |rows| && FailsFirst(existing, preprocess, rows, order, j, r.error) by {
      if r.Err? && 0 < |rows| {
        var j :| 0 <= j < |rows| && load(rows[order[j]]) == Err(r.error) && forall j' :: 0 <= j' < j ==> load(rows[order[j']]).Ok?;
        assert FailsFirst(existing, preprocess, rows, order, j, r.error);
      }
    }
    r
  }

  /** Training row `order[j]` is the first to fail in the completion order, with `e`. */
  predicate FailsFirst<I>(existing: set<string>, preprocess: string -> Option<I>, rows: seq<Row>,
                          order: seq<nat>, j: int, e: LoadError)
    requires IsCompletionOrder(order, |rows|)
  {
    && 0 <= j < |rows|
    && TrainingEntry(existing, preprocess, rows, order[j]) == Err(e)
    && forall j' :: 0 <= j' < j ==> TrainingEntry(existing, preprocess, rows, order[j']).Ok?
  }

  /** Whether training data loads, and what it holds, does not depend on the order
      in which the row tasks finish; only which failure is reported does. */
  lemma TrainingIgnoresCompletionOrder<I>(existing: set<string>, preprocess: string -> Option<I>,
                                          rows: seq<Row>, order1: seq<nat>, order2: seq<nat>)
    requires IsCompletionOrder(order1, |rows|)
    requires IsCompletionOrder(order2, |rows|)
    ensures LoadData(existing, preprocess, rows, order1).Ok? == LoadData(existing, preprocess, rows, order2).Ok?
    ensures LoadData(existing, preprocess, rows, order1).Ok? ==>
      LoadData(existing, preprocess, rows, order1) == LoadData(existing, preprocess, rows, order2)
  {
    var r1, r2 := LoadData(existing, preprocess, rows, order1), LoadData(existing, preprocess, rows, order2);
    if r1.Ok? {
      assert r1.value.images == r2.value.images;
      assert r1.value.labels == r2.value.labels;
    }
  }

  /** Training label `k`, when the load succeeds, is the multi-hot vector of row
      `k`'s tokens over the vocabulary of the same manifest, and every token of the
      row has its entry in that vocabulary. */
  lemma TrainingLabelsMultiHot<I>(existing: set<string>, preprocess: string -> Option<I>,
                                  rows: seq<Row>, order: seq<nat>, k: int)
    requires IsCompletionOrder(order, |rows|)
    requires 0 <= k < |rows|
    ensures LoadData(existing, preprocess, rows, order).Ok? ==>
      IsMultiHot(LoadData(existing, preprocess, rows, order).value.labels[k], BuildVocabulary(rows), ExtractTokens(rows[k]))
    ensures forall t :: t in ExtractTokens(rows[k]) ==> t in BuildVocabulary(rows)
  {
    VocabularyFirstSeen(rows);
    DistinctVocabularyEncoding(BuildVocabulary(rows), ExtractTokens(rows[k]));
  }
}
