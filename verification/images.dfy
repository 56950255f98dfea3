/** Locating a row's image file: `<dir>/<split>/images/<Name>.png` if it exists,
    otherwise the `.jpg` variant, otherwise an error naming the row. The file
    system is a set of existing paths. */
module Images {
  import opened Results
  import opened Arrays

  /** The dataset root directory (`DIR`). */
  const DataDir: string := "pokemon"
  /** The training images and manifest live under this sub-directory... */
  const TrainSplit: string := "train"
  /** ...and the held-out ones under this one. */
  const EvalSplit: string := "evaluate"

  datatype LoadError =
    | ImageNotFound(name: string)   // neither candidate file exists
    | ImageProcessing(path: string) // reading, resizing or decoding the file failed
    | EmptyBatch                    // `tf.stack` of no tensors: the manifest had no rows

  const NotFoundPrefix: string := "Image file not found for "

  /** The message of the error thrown for a missing image: the fixed prefix, then
      the row's identifier, which ends the message. */
  function Message(e: LoadError): (r: string)
    requires e.ImageNotFound?
    ensures OccursAt(r, NotFoundPrefix, 0)
    ensures OccursAt(r, e.name, |NotFoundPrefix|) && |r| == |NotFoundPrefix| + |e.name|
  {
    NotFoundPrefix + e.name
  }

  /** The directory holding a split's images. */
  function ImageDir(split: string): string {
    DataDir + "/" + split + "/images/"
  }

  /** The template `${DIR}/<split>/images/${Name}.<ext>`: the file name is the
      row's identifier followed by the extension, inside the split's image directory. */
  function ImagePath(split: string, name: string, ext: string): (r: string)
    ensures |r| == |ImageDir(split)| + |name| + 1 + |ext|
    ensures OccursAt(r, ImageDir(split), 0)
    ensures OccursAt(r, name, |ImageDir(split)|)
    ensures OccursAt(r, "." + ext, |ImageDir(split)| + |name|)
  {
    ImageDir(split) + name + "." + ext
  }

  /** Different identifiers (or extensions of the same length) give different files:
      one row's candidate can never be another row's. */
  lemma ImagePathDistinguishes(split: string, a: string, b: string, ea: string, eb: string)
    requires ImagePath(split, a, ea) == ImagePath(split, b, eb)
    requires |ea| == |eb|
    ensures a == b && ea == eb
  {
    var p := ImagePath(split, a, ea);
    var d := |ImageDir(split)|;
    assert |a| == |b|;
    assert a == p[d..d + |a|] == b;
    assert "." + ea == p[d + |a|..] == "." + eb;
    assert ea == ("." + ea)[1..] == ("." + eb)[1..] == eb;
  }

  /** The candidate files, in order of preference. */
  function Candidates(split: string, name: string): seq<string> {
    [ImagePath(split, name, "png"), ImagePath(split, name, "jpg")]
  }

  /** First-match-wins over an ordered candidate list. */
  function FirstExisting(existing: set<string>, candidates: seq<string>): (r: Option<string>)
    ensures r.None? <==> forall c :: c in candidates ==> c !in existing
    ensures r.Some? ==> r.value in existing && r.value in candidates
    ensures r.Some? ==> forall j :: 0 <= j < IndexOf(candidates, r.value) ==> candidates[j] !in existing
  {
    if candidates == [] then None
    else if candidates[0] in existing then Some(candidates[0])
    else FirstExisting(existing, candidates[1..])
  }

  /** The `existsSync` chain of `loadImageForEntry`. */
  function ResolveImage(existing: set<string>, split: string, name: string): (r: Result<string, LoadError>)
    ensures r.Ok? ==> r.value in existing
    ensures ImagePath(split, name, "png") in existing ==> r == Ok(ImagePath(split, name, "png"))
    ensures r.Ok? && r.value != ImagePath(split, name, "png") ==>
      r.value == ImagePath(split, name, "jpg") && ImagePath(split, name, "png") !in existing
    ensures r.Err? <==> ImagePath(split, name, "png") !in existing && ImagePath(split, name, "jpg") !in existing
    ensures r.Err? ==> r.error == ImageNotFound(name)
  {
    var png := ImagePath(split, name, "png");
    var jpg := ImagePath(split, name, "jpg");
    if png in existing then Ok(png)
    else if jpg in existing then Ok(jpg)
    else Err(ImageNotFound(name))
  }

  /** The two-branch chain is the ordered-candidates rule: it picks the first
      candidate that exists and fails exactly when none does. */
  lemma ResolveIsFirstExisting(existing: set<string>, split: string, name: string)
    ensures ResolveImage(existing, split, name) ==
      match FirstExisting(existing, Candidates(split, name))
      case Some(p) => Ok(p)
      case None => Err(ImageNotFound(name))
  {
    var c := Candidates(split, name);
    assert c[1..] == [c[1]];
  }
}
