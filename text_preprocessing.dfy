/** Punctuation removal, the first step of the text pipeline, and the pipeline's guard that
    refuses to transform before it has been fitted. */
module TextPreprocessing {
  import opened Seqs

  /** Python's `string.punctuation`: the 32 ASCII punctuation characters. */
  const Punctuation: string := "!\"#$%&'()*+,-./:;<=>?@[\\]^_`{|}~"

  lemma PunctuationSize()
    ensures |Punctuation| == 32
  {
  }

  predicate Kept(c: char) {
    c !in Punctuation
  }

  /** `x.translate(str.maketrans('', '', string.punctuation))`. */
  function RemovePunctuation(s: string): string {
    Filter(Kept, s)
  }

  /** No punctuation is left, every other character is kept as often as it occurs, and the
      string does not grow. */
  lemma RemovePunctuationFacts(s: string)
    ensures forall c :: c in RemovePunctuation(s) ==> c !in Punctuation
    ensures forall c :: c !in Punctuation ==> multiset(RemovePunctuation(s))[c] == multiset(s)[c]
    ensures |RemovePunctuation(s)| <= |s|
  {
    FilterMembers(Kept, s);
    FilterMultiset(Kept, s);
  }

  /** The removal works character by character: on a concatenation it is the concatenation of
      the removals, and a single character is dropped exactly when it is punctuation. So the
      characters kept stay in their original order. */
  lemma RemovePunctuationPerCharacter(a: string, b: string, c: char)
    ensures RemovePunctuation(a + b) == RemovePunctuation(a) + RemovePunctuation(b)
    ensures RemovePunctuation([c]) == if c in Punctuation then [] else [c]
  {
    FilterAppend(Kept, a, b);
    assert [c][1..] == [];
  }

  /** Removing punctuation twice is removing it once. */
  lemma RemovePunctuationIdempotent(s: string)
    ensures RemovePunctuation(RemovePunctuation(s)) == RemovePunctuation(s)
  {
    FilterMembers(Kept, s);
    FilterAll(Kept, RemovePunctuation(s));
  }

  /** `X.apply(...)` on a column of strings. */
  function RemoveColumnPunctuation(xs: seq<string>): (ys: seq<string>)
    ensures |ys| == |xs|
  {
    seq(|xs|, i requires 0 <= i < |xs| => RemovePunctuation(xs[i]))
  }

  /** The column transform is idempotent and leaves no punctuation in any entry. */
  lemma ColumnFacts(xs: seq<string>)
    ensures RemoveColumnPunctuation(RemoveColumnPunctuation(xs)) == RemoveColumnPunctuation(xs)
    ensures forall i, c :: 0 <= i < |xs| && c in RemoveColumnPunctuation(xs)[i] ==> c !in Punctuation
  {
    forall i | 0 <= i < |xs|
      ensures RemovePunctuation(RemovePunctuation(xs[i])) == RemovePunctuation(xs[i])
      ensures forall c :: c in RemovePunctuation(xs[i]) ==> c !in Punctuation
    {
      RemovePunctuationIdempotent(xs[i]);
      RemovePunctuationFacts(xs[i]);
    }
  }

  /** The stateless transformer. */
  class RemovePunctuationTransformer {
    constructor () {
    }

    /** `fit` learns nothing and returns the transformer itself. */
    method Fit(xs: seq<string>) returns (t: RemovePunctuationTransformer)
      ensures t == this
    {
      t := this;
    }

    method Transform(xs: seq<string>) returns (ys: seq<string>)
      ensures ys == RemoveColumnPunctuation(xs)
    {
      ys := RemoveColumnPunctuation(xs);
    }

    /** `fit_transform` is `fit` followed by `transform` on the transformer `fit` returns. */
    method FitTransform(xs: seq<string>) returns (ys: seq<string>)
      ensures ys == RemoveColumnPunctuation(xs)
    {
      var t := Fit(xs);
      ys := t.Transform(xs);
    }
  }

  const NotFittedMessage := "Pipeline not fitted"

  /** The pipeline's fitted flag and its guard. The vectoriser step is not part of this
      model: a transform yields the column with punctuation removed. */
  class TextPipeline {
    var isFitted: bool

    constructor ()
      ensures !isFitted
    {
      isFitted := false;
    }

    method Fit(xs: seq<string>)
      modifies this
      ensures isFitted
    {
      isFitted := true;
    }

    /** `transform`: refused while not fitted; the flag is left as it is. */
    method Transform(xs: seq<string>) returns (r: Result<seq<string>>)
      ensures r.Err? <==> !isFitted
      ensures r.Err? ==> r.message == NotFittedMessage
      ensures r.Ok? ==> r.value == RemoveColumnPunctuation(xs)
    {
      if !isFitted {
        return Err(NotFittedMessage);
      }
      r := Ok(RemoveColumnPunctuation(xs));
    }
  }

  /** A fresh pipeline refuses to transform until it is fitted, and then transforms. */
  method FitBeforeTransform(xs: seq<string>) returns (before: Result<seq<string>>, after: Result<seq<string>>)
    ensures before == Err(NotFittedMessage)
    ensures after == Ok(RemoveColumnPunctuation(xs))
  {
    var p := new TextPipeline();
    before := p.Transform(xs);
    p.Fit(xs);
    after := p.Transform(xs);
  }
}
