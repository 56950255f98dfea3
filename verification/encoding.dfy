/** `encodeTypesToOneHot`: a row's label tokens as a multi-hot vector over the
    vocabulary, which is passed explicitly instead of read from the global `TYPES`. */
module Encoding {
  import opened Arrays

  /** Entry `i` of the vector is switched on by `tokens`: the vocabulary entry is a
      non-empty token of the list, and `indexOf` finds it at `i` (its first place). */
  predicate Marks(vocab: seq<string>, tokens: seq<string>, i: int)
    requires 0 <= i < |vocab|
  {
    vocab[i] != "" && vocab[i] in tokens && IndexOf(vocab, vocab[i]) == i
  }

  /** One step of the `forEach`: a non-empty token found in the vocabulary sets
      the entry `indexOf` gives it; any other token leaves the vector unchanged. */
  function MarkToken(hot: seq<int>, vocab: seq<string>, t: string): (r: seq<int>)
    requires |hot| == |vocab|
    ensures |r| == |hot|
    ensures t != "" && t in vocab ==> r[IndexOf(vocab, t)] == 1
    ensures forall i :: 0 <= i < |hot| && vocab[i] != t ==> r[i] == hot[i]
    ensures t == "" || t !in vocab ==> r == hot
  {
    if t != "" && t in vocab then hot[IndexOf(vocab, t) := 1] else hot
  }

  /** The zero vector of the vocabulary's length, then one `forEach` step per token. */
  function EncodeTypesToOneHot(vocab: seq<string>, tokens: seq<string>): (hot: seq<int>)
    ensures |hot| == |vocab|
    ensures forall i :: 0 <= i < |vocab| ==> hot[i] == 0 || hot[i] == 1
    ensures forall i :: 0 <= i < |vocab| ==> (hot[i] == 1 <==> Marks(vocab, tokens, i))
  {
    if tokens == [] then seq(|vocab|, _ => 0)
    else
      var n := |tokens| - 1;
      assert forall t :: t in tokens <==> t in tokens[..n] || t == tokens[n] by {
        assert tokens == tokens[..n] + [tokens[n]];
      }
      MarkToken(EncodeTypesToOneHot(vocab, tokens[..n]), vocab, tokens[n])
  }

  /** The encoding depends only on which tokens occur: reordering or repeating
      them gives the same vector. */
  lemma EncodingIgnoresOrderAndRepeats(vocab: seq<string>, a: seq<string>, b: seq<string>)
    requires forall t :: t in a <==> t in b
    ensures EncodeTypesToOneHot(vocab, a) == EncodeTypesToOneHot(vocab, b)
  {
    var ha, hb := EncodeTypesToOneHot(vocab, a), EncodeTypesToOneHot(vocab, b);
    forall i | 0 <= i < |vocab|
      ensures ha[i] == hb[i]
    {
      assert Marks(vocab, a, i) == Marks(vocab, b, i);
    }
  }

  /** Tokens missing from the vocabulary are dropped without error: the encoding is
      the zero vector exactly when every token is empty or unknown. */
  lemma UnknownTokensEncodeToZero(vocab: seq<string>, tokens: seq<string>)
    ensures (forall i :: 0 <= i < |vocab| ==> EncodeTypesToOneHot(vocab, tokens)[i] == 0)
        <==> (forall t :: t in tokens ==> t == "" || t !in vocab)
  {
    var hot := EncodeTypesToOneHot(vocab, tokens);
    if forall t :: t in tokens ==> t == "" || t !in vocab {
      forall i | 0 <= i < |vocab|
        ensures hot[i] == 0
      {
        assert !Marks(vocab, tokens, i);
      }
    } else {
      var t :| t in tokens && t != "" && t in vocab;
      var i := IndexOf(vocab, t);
      assert IndexOf(vocab, vocab[i]) == i;
      assert Marks(vocab, tokens, i);
      assert 0 <= i < |vocab| && EncodeTypesToOneHot(vocab, tokens)[i] != 0;
    }
  }

  /** `hot` is the multi-hot vector of `tokens` over `vocab`: one 0/1 entry per
      vocabulary entry, 1 exactly for the non-empty entries that are tokens. */
  predicate IsMultiHot(hot: seq<int>, vocab: seq<string>, tokens: seq<string>) {
    && |hot| == |vocab|
    && (forall i :: 0 <= i < |vocab| ==> hot[i] == 0 || hot[i] == 1)
    && (forall i :: 0 <= i < |vocab| ==> (hot[i] == 1 <==> vocab[i] != "" && vocab[i] in tokens))
  }

  /** Over a vocabulary without duplicates, entry `i` is 1 exactly when `vocab[i]`
      is a non-empty token of the list; an empty vocabulary entry is never set. */
  lemma DistinctVocabularyEncoding(vocab: seq<string>, tokens: seq<string>)
    requires NoDuplicates(vocab)
    ensures IsMultiHot(EncodeTypesToOneHot(vocab, tokens), vocab, tokens)
  {
    forall i | 0 <= i < |vocab|
      ensures IndexOf(vocab, vocab[i]) == i
    {
      IndexOfDistinct(vocab, i);
    }
  }

  /** The worked example: tokens {A, C} over [A, B, C, D] encode to [1, 0, 1, 0]. */
  lemma EncodeExample()
    ensures EncodeTypesToOneHot(["A", "B", "C", "D"], ["A", "C"]) == [1, 0, 1, 0]
  {
    var vocab := ["A", "B", "C", "D"];
    DistinctVocabularyEncoding(vocab, ["A", "C"]);
    var hot := EncodeTypesToOneHot(vocab, ["A", "C"]);
    assert hot[1] == 0 by {
      assert "B" !in ["A", "C"];
    }
    assert hot[3] == 0 by {
      assert "D" !in ["A", "C"];
    }
  }
}
