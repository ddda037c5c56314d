/** Per-term language models of a document, of its expansion set, and their
    linear mixture (LanguageModelEstimator.java).

    A `DocScorer` is a function from a term and a hit to a weight or the
    exception `scoreTerm` throws (the expansion scorer throws when it has
    no expansion documents). The expansion scorer's
    `getExpansionDocs(originalDocument)` is passed in as the hit list it
    returns. Vectors are read with `Common.VectorOf`; releasing the
    expansion documents' vectors is visible as the returned `released`
    hits. Terms are scored in sorted order; the order in which a
    FeatureVector hands out its terms is not part of this model. */
module LanguageModelEstimator {
  import opened Common
  import opened Text
  import FeatureUtils

  /** Starting from an empty vector, `addTerm(t, weight(t))` for each `t`
      of `terms` in order. */
  function Accumulate(terms: seq<Term>, weight: Term -> real): (r: TermVector)
    ensures r.Keys == set t | t in terms
    decreases |terms|
  {
    if |terms| == 0 then map[]
    else
      var last := terms[|terms| - 1];
      AddTerm(Accumulate(terms[..|terms| - 1], weight), last, weight(last))
  }

  predicate Distinct(terms: seq<Term>) {
    forall i, j :: 0 <= i < j < |terms| ==> terms[i] != terms[j]
  }

  /** Over distinct terms, accumulation sets each term exactly once. */
  lemma {:induction false} AccumulateDistinct(terms: seq<Term>, weight: Term -> real)
    requires Distinct(terms)
    ensures Accumulate(terms, weight) == map t | t in terms :: weight(t)
    decreases |terms|
  {
    if |terms| > 0 {
      var init := terms[..|terms| - 1];
      var last := terms[|terms| - 1];
      assert Distinct(init) && last !in init by {
        assert forall i :: 0 <= i < |init| ==> init[i] == terms[i];
      }
      AccumulateDistinct(init, weight);
      AddFresh(init, last, weight);
      assert terms == init + [last];
    }
  }

  /** Adding a term not yet present extends the map by that term's weight. */
  lemma AddFresh(init: seq<Term>, last: Term, weight: Term -> real)
    requires last !in init
    requires Accumulate(init, weight) == map t | t in init :: weight(t)
    ensures Accumulate(init + [last], weight) == map t | t in init + [last] :: weight(t)
  {
    var terms := init + [last];
    assert terms[..|terms| - 1] == init;
    var acc := Accumulate(init, weight);
    var r := Accumulate(terms, weight);
    assert r == acc[last := weight(last)];
    var m := map t | t in terms :: weight(t);
    assert r.Keys == m.Keys;
    forall t | t in r
      ensures r[t] == m[t]
    {
      if t != last {
        assert r[t] == acc[t];
      }
    }
  }

  lemma SortedDistinct(terms: seq<Term>)
    requires StrictlySorted(terms)
    ensures Distinct(terms)
  {
    forall i, j | 0 <= i < j < |terms|
      ensures terms[i] != terms[j]
    {
      StrLessIrreflexive(terms[i]);
    }
  }

  /** Accumulating a set's terms in sorted order. */
  function FromTerms(terms: set<Term>, weight: Term -> real): (r: TermVector)
    ensures r.Keys == terms
    ensures forall t :: t in r ==> r[t] == weight(t)
  {
    var ordered := FeatureUtils.SortedTerms(terms);
    SortedDistinct(ordered);
    AccumulateDistinct(ordered, weight);
    Accumulate(ordered, weight)
  }

  /** `DocScorer.scoreTerm(term, document)`: a weight, or the exception thrown. */
  type Scorer = (Term, Hit) -> Result<real>

  /** How many of `terms`, from the front, score without throwing. */
  function Passed(terms: seq<Term>, weight: Term -> Result<real>): (k: nat)
    ensures k <= |terms|
    ensures forall i :: 0 <= i < k ==> weight(terms[i]).Ok?
    ensures k < |terms| ==> weight(terms[k]).Fail?
    decreases |terms|
  {
    if |terms| == 0 then 0
    else
      var init := terms[..|terms| - 1];
      assert forall i :: 0 <= i < |init| ==> init[i] == terms[i];
      var p := Passed(init, weight);
      if p < |init| then p
      else if weight(terms[|terms| - 1]).Ok? then |terms|
      else |init|
  }

  /** A weight function that reads a throwing term as 0; only ever applied
      to terms that score. */
  function ValueOf(weight: Term -> Result<real>): Term -> real {
    t => if weight(t).Ok? then weight(t).value else 0.0
  }

  /** What a scoring loop has built when it stops: the vector so far and,
      when a score threw, its exception. */
  datatype Scored = Scored(lm: TermVector, failure: Option<string>)

  /** `addTerm(t, scoreTerm(t, ...))` for each term in order, starting from
      an empty vector, until a score throws: the vector then holds exactly
      the terms before that one, each with its score. */
  function ScoreTerms(terms: seq<Term>, weight: Term -> Result<real>): (r: Scored)
    ensures r.failure.None? <==> forall i :: 0 <= i < |terms| ==> weight(terms[i]).Ok?
    ensures r.failure.Some? ==>
      Passed(terms, weight) < |terms| && r.failure.value == weight(terms[Passed(terms, weight)]).reason
    ensures forall t :: t in r.lm <==> t in terms[..Passed(terms, weight)]
    ensures Distinct(terms) ==> forall t :: t in r.lm ==> weight(t).Ok? && r.lm[t] == weight(t).value
  {
    var k := Passed(terms, weight);
    var done := terms[..k];
    assert Distinct(terms) ==> Accumulate(done, ValueOf(weight)) == map t | t in done :: ValueOf(weight)(t) by {
      if Distinct(terms) {
        assert Distinct(done);
        AccumulateDistinct(done, ValueOf(weight));
      }
    }
    Scored(Accumulate(done, ValueOf(weight)), if k == |terms| then None else Some(weight(terms[k]).reason))
  }

  /** When no score throws, distinct terms give the map from each term to
      its score. */
  lemma ScoreTermsComplete(terms: seq<Term>, weight: Term -> Result<real>)
    requires Distinct(terms)
    requires forall i :: 0 <= i < |terms| ==> weight(terms[i]).Ok?
    ensures ScoreTerms(terms, weight) == Scored(map t | t in terms :: weight(t).value, None)
  {
    var r := ScoreTerms(terms, weight);
    var m := map t | t in terms :: weight(t).value;
    var k := Passed(terms, weight);
    assert k == |terms|;
    assert terms[..k] == terms;
    assert r.failure == None;
    assert forall t :: t in r.lm <==> t in m;
    assert forall t :: t in r.lm ==> r.lm[t] == m[t];
    assert r.lm == m;
  }

  /** Scoring a vocabulary that lists the keys of a vector: only those keys
      are scored, and all of them when no score throws. */
  lemma ScoreVocabulary(terms: seq<Term>, weight: Term -> Result<real>, keys: set<Term>)
    requires Distinct(terms)
    requires forall t :: t in terms <==> t in keys
    ensures var sc := ScoreTerms(terms, weight);
      && sc.lm.Keys <= keys
      && (sc.failure.None? <==> forall t :: t in keys ==> weight(t).Ok?)
      && (sc.failure.None? ==> sc.lm.Keys == keys)
  {
    var sc := ScoreTerms(terms, weight);
    var k := Passed(terms, weight);
    if sc.failure.None? {
      assert terms[..k] == terms;
    } else {
      assert terms[k] in keys;
    }
  }

  /** The loop of `languageModel(document, scorer)` as far as it gets; a
      document with no vector to read throws before the loop. */
  function ScoreDocument(document: Hit, scorer: Scorer, load: Loader): (r: Result<Scored>)
    ensures r.Ok? <==> VectorOf(document, load).Some?
    ensures r.Ok? ==> r.value.lm.Keys <= VectorOf(document, load).value.Keys
    ensures r.Ok? ==> (r.value.failure.None? <==>
      forall t :: t in VectorOf(document, load).value ==> scorer(t, document).Ok?)
    ensures r.Ok? ==> forall t :: t in r.value.lm ==> scorer(t, document).Ok? && r.value.lm[t] == scorer(t, document).value
    ensures r.Ok? && r.value.failure.None? ==> r.value.lm.Keys == VectorOf(document, load).value.Keys
  {
    match VectorOf(document, load)
    case None => Fail("NullPointerException: document has no vector")
    case Some(v) =>
      var terms := FeatureUtils.SortedTerms(v.Keys);
      SortedDistinct(terms);
      var weight := t => scorer(t, document);
      ScoreVocabulary(terms, weight, v.Keys);
      Ok(ScoreTerms(terms, weight))
  }

  /** `languageModel(document, scorer)`: each term of the document's vector
      scored against the document; a document with no vector, or a score
      that throws, throws. */
  function LanguageModel(document: Hit, scorer: Scorer, load: Loader): (r: Result<TermVector>)
    ensures r.Ok? <==> VectorOf(document, load).Some? &&
                       forall t :: t in VectorOf(document, load).value ==> scorer(t, document).Ok?
    ensures r.Ok? ==> r.value.Keys == VectorOf(document, load).value.Keys
    ensures r.Ok? ==> forall t :: t in r.value ==> r.value[t] == scorer(t, document).value
  {
    match ScoreDocument(document, scorer, load)
    case Fail(e) => Fail(e)
    case Ok(sc) => if sc.failure.Some? then Fail(sc.failure.value) else Ok(sc.lm)
  }

  /** Every hit has a vector to read. */
  predicate AllReadable(hits: seq<Hit>, load: Loader) {
    forall i :: 0 <= i < |hits| ==> VectorOf(hits[i], load).Some?
  }

  /** The vectors of `hits`, read one by one. */
  function Vectors(hits: seq<Hit>, load: Loader): (r: seq<TermVector>)
    requires AllReadable(hits, load)
    ensures |r| == |hits|
    ensures forall i :: 0 <= i < |hits| ==> r[i] == VectorOf(hits[i], load).value
  {
    seq(|hits|, i requires 0 <= i < |hits| => VectorOf(hits[i], load).value)
  }

  /** The sorted vocabulary of an expansion model: `includedTerms` when
      given, otherwise every term of the expansion documents, which throws
      if one of them has no vector to read. */
  function ExpansionVocabulary(expansionDocuments: seq<Hit>, load: Loader, includedTerms: Option<set<Term>>)
    : (r: Result<seq<Term>>)
    ensures r.Ok? <==> includedTerms.Some? || AllReadable(expansionDocuments, load)
    ensures r.Ok? ==> Distinct(r.value)
    ensures r.Ok? && includedTerms.Some? ==> forall t :: t in r.value <==> t in includedTerms.value
    ensures r.Ok? && includedTerms.None? ==> forall t :: t in r.value <==>
      exists i :: 0 <= i < |expansionDocuments| && t in VectorOf(expansionDocuments[i], load).value
  {
    var vocabulary: Result<seq<Term>> :=
      if includedTerms.Some? then Ok(FeatureUtils.SortedTerms(includedTerms.value))
      else if AllReadable(expansionDocuments, load) then Ok(FeatureUtils.CreateVocabulary(Vectors(expansionDocuments, load)))
      else Fail("NullPointerException: expansion document has no vector");
    assert vocabulary.Ok? ==> Distinct(vocabulary.value) by {
      if vocabulary.Ok? {
        SortedDistinct(vocabulary.value);
      }
    }
    vocabulary
  }

  datatype ExpansionModel = ExpansionModel(lm: TermVector, released: seq<Hit>)

  /** `expansionLanguageModel(originalDocument, scorer, includedTerms)`,
      where `expansionDocuments` is what `scorer.getExpansionDocs` returned:
      every term of the vocabulary scored against the original document,
      after which every expansion document's vector is released. A score
      that throws ends the call before the release. */
  function ExpansionLanguageModel(original: Hit, expansionDocuments: seq<Hit>, scorer: Scorer, load: Loader,
                                  includedTerms: Option<set<Term>>): (r: Result<ExpansionModel>)
    ensures r.Ok? <==> (ExpansionVocabulary(expansionDocuments, load, includedTerms).Ok? &&
      forall t :: t in ExpansionVocabulary(expansionDocuments, load, includedTerms).value ==> scorer(t, original).Ok?)
    ensures r.Ok? && includedTerms.Some? ==> r.value.lm.Keys == includedTerms.value
    ensures r.Ok? && includedTerms.None? ==> forall t :: t in r.value.lm <==>
      exists i :: 0 <= i < |expansionDocuments| && t in VectorOf(expansionDocuments[i], load).value
    ensures r.Ok? ==> forall t :: t in r.value.lm ==> r.value.lm[t] == scorer(t, original).value
    ensures r.Ok? ==> r.value.released == Release(expansionDocuments)
  {
    match ExpansionVocabulary(expansionDocuments, load, includedTerms)
    case Fail(e) => Fail(e)
    case Ok(terms) =>
      var weight := t => scorer(t, original);
      var sc := ScoreTerms(terms, weight);
      if sc.failure.Some? then Fail(sc.failure.value)
      else
        ScoreTermsComplete(terms, weight);
        Ok(ExpansionModel(sc.lm, Release(expansionDocuments)))
  }

  /** With an empty expansion set and a fixed vocabulary the expansion
      scorer throws on the first term, and so does the model. */
  lemma EmptyExpansionSetThrows(original: Hit, scorer: Scorer, load: Loader, includedTerms: set<Term>)
    requires includedTerms != {}
    requires forall t :: scorer(t, original).Fail?
    ensures ExpansionLanguageModel(original, [], scorer, load, Some(includedTerms)).Fail?
  {
    var terms := ExpansionVocabulary([], load, Some(includedTerms)).value;
    var t :| t in includedTerms;
    assert t in terms;
  }

  /** Releasing the vectors frees memory and nothing else: for expansion
      documents whose vectors came from their index, building the model
      again from the released hits gives the same model. */
  lemma SecondExpansionModelAgrees(original: Hit, expansionDocuments: seq<Hit>, scorer: Scorer, load: Loader)
    requires forall i :: 0 <= i < |expansionDocuments| ==> FromIndex(expansionDocuments[i], load)
    requires ExpansionLanguageModel(original, expansionDocuments, scorer, load, None).Ok?
    ensures var first := ExpansionLanguageModel(original, expansionDocuments, scorer, load, None).value;
      ExpansionLanguageModel(original, first.released, scorer, load, None) == Ok(first)
  {
    var released := Release(expansionDocuments);
    ReleaseRereads(expansionDocuments, load);
    assert Vectors(released, load) == Vectors(expansionDocuments, load);
    assert ExpansionVocabulary(released, load, None) == ExpansionVocabulary(expansionDocuments, load, None);
    assert Release(released) == released;
  }

  /** The weight `combinedLanguageModel` gives a term. */
  function Mix(lm1: TermVector, lm2: TermVector, w: real, t: Term): real {
    w * Weight(lm1, t) + (1.0 - w) * Weight(lm2, t)
  }

  /** `lm` is the `w`-mixture of `lm1` and `lm2` over their union vocabulary. */
  ghost predicate IsMix(lm: TermVector, lm1: TermVector, lm2: TermVector, w: real) {
    && lm.Keys == lm1.Keys + lm2.Keys
    && forall t :: t in lm ==> lm[t] == w * Weight(lm1, t) + (1.0 - w) * Weight(lm2, t)
  }

  /** `combinedLanguageModel(lm1, lm2, lm1Weight)`: over the union of the
      two vocabularies, `w` times the first model's weight plus `1 - w`
      times the second's, a missing term weighing 0. */
  function CombinedLanguageModel(lm1: TermVector, lm2: TermVector, w: real): (r: TermVector)
    ensures IsMix(r, lm1, lm2, w)
  {
    var vocabulary := FeatureUtils.CreateVocabulary([lm1, lm2]);
    var mix := t => Mix(lm1, lm2, w, t);
    SortedDistinct(vocabulary);
    AccumulateDistinct(vocabulary, mix);
    MixOverUnion(lm1, lm2, w, vocabulary, Accumulate(vocabulary, mix));
    Accumulate(vocabulary, mix)
  }

  lemma MixOverUnion(lm1: TermVector, lm2: TermVector, w: real, vocabulary: seq<Term>, lm: TermVector)
    requires vocabulary == FeatureUtils.CreateVocabulary([lm1, lm2])
    requires lm == map t | t in vocabulary :: (t => Mix(lm1, lm2, w, t))(t)
    ensures IsMix(lm, lm1, lm2, w)
  {
    FeatureUtils.PairVocabulary(lm1, lm2);
    assert lm.Keys == lm1.Keys + lm2.Keys;
    forall t | t in lm
      ensures lm[t] == w * Weight(lm1, t) + (1.0 - w) * Weight(lm2, t)
    {
      assert lm[t] == Mix(lm1, lm2, w, t);
    }
  }

  /** Weight 1 keeps the first model's weights (terms only in the second
      are present with weight 0). */
  lemma CombineAllFirst(lm1: TermVector, lm2: TermVector)
    ensures forall t :: Weight(CombinedLanguageModel(lm1, lm2, 1.0), t) == Weight(lm1, t)
  {
  }

  /** Weight 0 keeps the second model's weights. */
  lemma CombineAllSecond(lm1: TermVector, lm2: TermVector)
    ensures forall t :: Weight(CombinedLanguageModel(lm1, lm2, 0.0), t) == Weight(lm2, t)
  {
  }

  /** Mixing a model with itself gives it back, whatever the weight. */
  lemma CombineSelf(lm: TermVector, w: real)
    ensures CombinedLanguageModel(lm, lm, w) == lm
  {
    var r := CombinedLanguageModel(lm, lm, w);
    assert r.Keys == lm.Keys;
    forall t | t in r
      ensures r[t] == lm[t]
    {
      var x := lm[t];
      assert (1.0 - w) * x == x - w * x;
    }
  }
}
