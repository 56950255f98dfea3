# Multi-label image classifier: data pipeline model

A Dafny model of the pure data logic shared by the two scripts of a small
TensorFlow.js image classifier: `index.js` builds a training set and trains the
network, and `evaluate.js` loads a held-out set and reports per-example top-1
mismatches. The model covers the following:

- **Vocabulary** (`TYPES`). One pass over the training manifest adds every value of
  every column whose name starts with `Type` to a `Set`. `Array.from` of that set
  lists each value once, in first-seen order. The empty string is included.
- **Token extraction.** The non-empty values of a row's `Type*` columns, in column order.
- **Multi-hot encoding** (`encodeTypesToOneHot`). The vocabulary is an explicit
  parameter here instead of the global `TYPES`.
- **Image resolution.** `<dir>/<split>/images/<Name>.png` is used if it exists,
  else the `.jpg` file. If neither exists, an error names the row.
- **Dataset assembly.** Training reads the results of `Promise.all`, which are in
  manifest order. Evaluation pushes onto shared arrays as each row task finishes.
  Task completion is an explicit *completion order*: a sequence that lists every
  row index once. A row task pushes its path onto `NAMES` and, later, its image and
  label; in between it waits only for promise continuations, so all three arrays
  follow the same completion order. Stacking an empty batch fails.
- **Top-1 mismatch report.** The predicted index is `indexOf(max)` and the true
  index is `indexOf(1)`. One line is printed per disagreeing example, in example order.

Rows are sequences of `(column, value)` pairs with distinct column names, in
`Object.keys` order. The file system is the set of existing paths. The image
preprocessing (`readAndPreprocessImage`) is an opaque parameter
`preprocess: string -> Option<I>`, where `None` is its failure. A failed row makes
the whole load fail with a `LoadError`. No partial dataset is ever produced.

Modules: `Results` (Option/Result), `Arrays` (`indexOf`, template-literal
rendering of missing elements), `Manifest`, `Vocabulary`, `Encoding`, `Images`,
`Assembly` (row encoding and the training load), `Evaluation` (the held-out load),
`Diagnostics` (the mismatch report).

Both scripts contain the same `encodeTypesToOneHot` (index.js:40-50,
evaluate.js:44-54), the same vocabulary pass (index.js:84-100, evaluate.js:60-74)
and the same png/jpg chain (index.js:54-64, evaluate.js:83-93). Each is modelled
once. The split directory (`train` or `evaluate`) is a parameter.

Three facts about the code shape the model:
- The vocabulary pass (index.js:91-95) does not filter empty values, so "" can be
  a vocabulary entry; token extraction (index.js:70) does drop them.
- The evaluation arrays (evaluate.js:33, 109-110) are filled by push-on-completion,
  not by row index.
- The strings recorded for the mismatch lines (`NAMES`, evaluate.js:33) are image
  paths, not `Name` values.

## Model

| member | source | states |
|---|---|---|
| Arrays.IndexOf | index.js:45 | -1 exactly when the value is absent; otherwise the position of its first occurrence |
| Arrays.Show | evaluate.js:135 | an index inside the array renders the element; any other index (including -1) renders "undefined" |
| Manifest.NameOf | index.js:54-55 | `data.Name` is the value of the `Name` column, or "undefined" when the row has none |
| Manifest.LabelValues | index.js:91-95 | a value is listed exactly when some column whose name starts with `Type` holds it, empty values included |
| Manifest.ExtractTokens | index.js:67-70 | tokens are never empty, and a string is a token exactly when it is the non-empty value of a `Type*` column |
| Manifest.TokenColumns | index.js:67-68 | the token-carrying column positions, strictly increasing, each a `Type*` column with a non-empty value, and all of them |
| Manifest.TokensInColumnOrder | index.js:67-70 | the tokens are the values of the token columns read left to right, so nothing is reordered |
| Manifest.DropEmpty | index.js:70 | a value is kept exactly when it is a non-empty value of the input, and its order is fixed by `DropEmptyAppend` |
| Manifest.DropEmptySingle | index.js:70 | a single value is kept exactly when it is non-empty |
| Manifest.DropEmptyAppend | index.js:70 | filtering a concatenation is the concatenation of the filtered parts, so kept values stay in input order |
| Vocabulary.AddValue | index.js:93 | `Set.add` keeps the earlier insertion order, adds the value, and keeps the set duplicate-free |
| Vocabulary.LabelStream | index.js:90-95 | the values the pass adds are exactly the `Type*` cells of all rows |
| Vocabulary.ScanRow | index.js:91-95 | one row's pass keeps the earlier entries in place, adds exactly that row's `Type*` values, and keeps the set duplicate-free |
| Vocabulary.BuildVocabulary | index.js:84-100 | the vocabulary is duplicate-free and holds exactly the `Type*` values of the manifest |
| Vocabulary.ScanRowAddsLabelValues | index.js:91-95 | scanning one row's keys adds that row's `Type*` values in column order |
| Vocabulary.BuildVocabularyAddsStream | index.js:87-100 | the row-by-row pass adds the manifest's label values in reading order |
| Vocabulary.AddAllFirstSeen | index.js:84-100 | adding values to an empty set gives no duplicates, exactly the values seen, ordered by first occurrence |
| Vocabulary.VocabularyFirstSeen | index.js:84-100 | the vocabulary has no duplicates, holds every `Type*` value of the manifest (and nothing else), and lists values in first-seen order |
| Vocabulary.EmptyCellEntersVocabulary | index.js:92-93 | an empty `Type*` cell puts "" into the vocabulary |
| Encoding.MarkToken | index.js:44-45 | a non-empty known token sets the entry `indexOf` finds for it to 1; entries for other strings are unchanged; an empty or unknown token changes nothing |
| Encoding.EncodeTypesToOneHot | index.js:40-50 | the vector has one entry per vocabulary entry, each 0 or 1; entry i is 1 exactly when vocabulary entry i is a non-empty token and `indexOf` finds it at i |
| Encoding.EncodingIgnoresOrderAndRepeats | index.js:43-47 | token lists with the same members encode to the same vector, whatever the order or repetition |
| Encoding.UnknownTokensEncodeToZero | index.js:43-47 | the vector is all zero exactly when every token is empty or outside the vocabulary: such tokens are dropped without error |
| Encoding.DistinctVocabularyEncoding | index.js:40-50 | over a duplicate-free vocabulary, entry i is 1 exactly when vocab[i] is a non-empty token; an empty vocabulary entry is never set |
| Encoding.EncodeExample | index.js:40-50 | tokens {A, C} over [A, B, C, D] give [1, 0, 1, 0] |
| Images.Message | index.js:63 | the missing-image message is the fixed prefix followed by the row's `Name`, which ends it |
| Images.ImagePath | index.js:54-55 | the path lies in the split's image directory, and its file name is the row's `Name` followed by `.` and the extension |
| Images.ImagePathDistinguishes | index.js:54-55 | two rows with different `Name`s never share a candidate path, and `.png` and `.jpg` candidates differ |
| Images.FirstExisting | index.js:58-64 | first-match-wins: the chosen path exists, every earlier candidate is absent, and nothing is chosen only when no candidate exists |
| Images.ResolveImage | index.js:54-64 | `.png` is chosen whenever it exists; `.jpg` only when `.png` is absent and `.jpg` exists; otherwise the error names the row |
| Images.ResolveIsFirstExisting | index.js:54-64 | the two-branch chain equals first-match-wins over the candidate list [png, jpg] |
| Assembly.LoadImageForEntry | index.js:52-81 | a missing image or a failed preprocessing fails the row with that error; otherwise the entry carries the resolved path, its image and the encoding of the row's tokens |
| Assembly.FirstFailure | index.js:112 | the reported failure is the first failing task in completion order; no failure means every task succeeded |
| Assembly.LoadAll | index.js:110-122 | with the row task as a parameter: the load succeeds exactly when there are rows and every row task succeeds; then position k holds row k's image and label, for any completion order; otherwise the first failure in completion order, or `EmptyBatch` for no rows |
| Assembly.LoadData | index.js:103-124 | loading succeeds exactly when the manifest is non-empty and every row succeeds; then images[k] and labels[k] both come from manifest row k, for any completion order; an empty manifest fails with `EmptyBatch` (`tf.stack([])` throws); otherwise the error is the first failure in completion order |
| Assembly.TrainingIgnoresCompletionOrder | index.js:112-114 | success and the dataset produced do not depend on the completion order |
| Assembly.TrainingLabelsMultiHot | index.js:67-75 | training label k is a 0/1 vector over the training vocabulary with entry i set exactly when vocab[i] is a token of row k; every token of a training row is in the vocabulary |
| Evaluation.PushAll | evaluate.js:80-121 | with the row task as a parameter: the load succeeds exactly when there are rows and every row task succeeds; then position j holds the path, image and label of the j-th row to finish; otherwise the first failure in completion order, or `EmptyBatch` for no rows |
| Evaluation.LoadTestData | evaluate.js:76-122 | succeeds exactly when the held-out manifest is non-empty and every row succeeds; then names[j], images[j] and labels[j] are the path, image and label of one row, the j-th to finish, for every completion order; an empty manifest fails with `EmptyBatch`; otherwise the error is the first failure in completion order; rows are encoded against the training vocabulary |
| Evaluation.ManifestOrderCorrespondence | evaluate.js:82-110 | when every task finishes in manifest order, position k of all three arrays is manifest row k |
| Evaluation.TestDataPermutedByOrder | evaluate.js:109-114 | the completion order decides only the arrangement: loading succeeds for every order or for none, and each position of one load holds the path, image and label of some position of another |
| Evaluation.TestLabelsOverTrainingVocabulary | evaluate.js:60-101 | held-out label j is a 0/1 vector over the training vocabulary; entry i is 1 exactly when training token i is a token of the row it came from, so unseen tokens are dropped |
| Evaluation.ReportNamesComparedRow | evaluate.js:130-136 | whatever the completion order, each mismatch line names the image of the row whose label was compared, and its actual token comes from that row's label |
| Diagnostics.Max | evaluate.js:131 | `Math.max` of a non-empty row is one of its scores and no score exceeds it |
| Diagnostics.PredictedIndex | evaluate.js:131 | the predicted index lies inside the row, or is -1 exactly for an empty row |
| Diagnostics.PredictedIndexIsFirstMax | evaluate.js:131 | the smallest index holding the row maximum; -1 for an empty row |
| Diagnostics.TrueIndex | evaluate.js:132 | the first position holding 1, or -1 exactly when no entry is 1 |
| Diagnostics.MismatchReport | evaluate.js:130-137 | every line is for an example whose predicted and true index differ, and lines are in strictly increasing example order, so no example gets two |
| Diagnostics.ReportCoversMismatches | evaluate.js:130-137 | every disagreeing example gets a line; with the strictly increasing order, exactly one |
| Diagnostics.Line | evaluate.js:135 | the printed line is exactly the fixed opening words, the image name, `: Predicted: `, the predicted token, `, Actual: ` and the actual token, in that order and with nothing else |
| Diagnostics.PrintedLineNamesExample | evaluate.js:130-136 | each printed line is about a disagreeing example i, names `NAMES[i]` right after the opening words, and ends with the true class of example i |
| Diagnostics.ReportLineContent | evaluate.js:135 | each line carries NAMES[i] and the vocabulary entries at the predicted and true index, or "undefined" where the index falls outside |
| Diagnostics.AllZeroLabelIsMismatch | evaluate.js:132-134 | a label vector with no 1 against a non-empty prediction row is always a mismatch (true index -1) |
| Diagnostics.ReportExample | evaluate.js:130-137 | two examples, the first right and the second wrong, give exactly one line naming the second |

## Left out

- `readAndPreprocessImage` (index.js:21-38) is left out: the sharp resize, alpha channel, PNG re-encode, decode and division by 255. These are codec and floating-point library calls, so the image is an opaque value. As a result, the [0, 1] range of pixel values is not stated.
- CSV parsing, file streams and `fs.existsSync` are I/O. A manifest is a sequence of rows, and existence is membership in a set of paths.
- `Object.keys` lists integer-like keys first. That reordering is not modelled: column order is the order of the row's pairs.
- `createModel`, `trainModel`, `main`, `evaluateModel`'s `model.predict`/`model.evaluate`, and the loss, accuracy and model save/load are left out. They are TensorFlow behaviour with floating-point results; predictions enter the report as given rows of scores.
- Console output is left out: the `console.error` lines, the accuracy and loss lines, and how the `.then` callbacks interleave with them.
- The `Array.isArray` check (evaluate.js:103-104) is left out. The encoder always returns an array, so the branch cannot be taken.
- `tf.stack` and `tf.tensor1d` are left out: the batch tensors are the per-row sequences they would stack. The one failure of `tf.stack` that depends on the data, an empty list, is modelled as the `EmptyBatch` error.
- Diagnostics.PredictedIndexIsFirstMax: scores are reals, so the NaN and ±Infinity cases of `Math.max`/`indexOf` are not modelled.
- Diagnostics.MismatchReport: requires no more prediction rows than label rows. With more, the script would read `undefined[...]` and throw, and that crash is not modelled.
- Evaluation.LoadTestData: a failed row or an empty manifest leaves the returned promise unsettled, and the rejection goes unhandled. This is modelled as a load that produces no dataset and reports the first failure in completion order, or `EmptyBatch`.
- Evaluation.LoadTestData: the `NAMES` push (evaluate.js:33) and the image/label pushes (evaluate.js:109-110) of one row task are modelled as happening at the same point in the completion order. Between them the task waits only for promise continuations of synchronous work, which run before any other task's I/O callback; a scheduler that interleaved another task there is not modelled.
