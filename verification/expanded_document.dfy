/** A document paired with its expansion documents, with memoised original
    and expansion language models (data/ExpandedDocument.java).

    An index is represented by the two scorers the class derives from it:
    the Dirichlet scorer over its collection statistics, and the expansion
    scorer it builds over a document expander holding this very document
    (taken here as a given scorer). Both may throw. A model field is
    assigned before its loop runs, so an exception leaves the object
    holding the model as far as it got, and a later call returns that. */
module ExpandedDocuments {
  import opened Common
  import LanguageModelEstimator

  datatype Index = Index(dirichlet: LanguageModelEstimator.Scorer, expansionScorer: LanguageModelEstimator.Scorer)

  datatype ExpandedDocument = ExpandedDocument(
    original: Hit,
    expansion: seq<Hit>,
    originalLM: Option<TermVector>,
    expansionLM: Option<TermVector>)

  /** A freshly constructed expanded document: neither model computed yet. */
  function NewExpandedDocument(original: Hit, expansion: seq<Hit>): (r: ExpandedDocument)
    ensures r.originalLM.None? && r.expansionLM.None?
    ensures r.original == original && r.expansion == expansion
  {
    ExpandedDocument(original, expansion, None, None)
  }

  /** `getExpansionDocuments(limit)`: copies hits `0 .. min(limit, size) - 1`
      into a new list. */
  method GetExpansionDocuments(ed: ExpandedDocument, limit: int) returns (cropped: seq<Hit>)
    ensures cropped == Crop(ed.expansion, limit)
  {
    cropped := [];
    var i := 0;
    while i < Min(limit, |ed.expansion|)
      invariant 0 <= i
      invariant i <= |ed.expansion|
      invariant i <= Max(0, Min(limit, |ed.expansion|))
      invariant cropped == ed.expansion[..i]
    {
      cropped := cropped + [ed.expansion[i]];
      i := i + 1;
    }
  }

  /** `getExpansionDocuments()`: the limit is the list's own size. */
  method GetAllExpansionDocuments(ed: ExpandedDocument) returns (all: seq<Hit>)
    ensures all == ed.expansion
  {
    all := GetExpansionDocuments(ed, |ed.expansion|);
  }

  /** A model, or the exception thrown computing it, together with the
      object's state afterwards. */
  datatype Computed = Computed(doc: ExpandedDocument, lm: Result<TermVector>)

  /** `expansionLanguageModel(expansionIndex)`: computed while the field is
      null, over the vocabulary of the expansion documents, each term scored
      against the original document, after which the expansion documents'
      vectors are released; later calls return the stored model whatever
      index they are given. A document with no vector to read throws before
      the field is set; a score that throws leaves the field holding the
      terms scored so far and releases nothing. */
  function ExpansionLanguageModel(ed: ExpandedDocument, expansionIndex: Index, load: Loader): (r: Computed)
    ensures ed.expansionLM.Some? ==> r == Computed(ed, Ok(ed.expansionLM.value))
    ensures ed.expansionLM.None? ==>
      var estimated := LanguageModelEstimator.ExpansionLanguageModel(ed.original, ed.expansion,
                         expansionIndex.expansionScorer, load, None);
      && (r.lm.Ok? <==> estimated.Ok?)
      && (r.lm.Ok? ==> r.lm.value == estimated.value.lm)
    ensures ed.expansionLM.None? && r.lm.Ok? ==>
      && r.doc == ed.(expansion := Release(ed.expansion), expansionLM := Some(r.lm.value))
      && (forall t :: t in r.lm.value <==> exists i :: 0 <= i < |ed.expansion| && t in VectorOf(ed.expansion[i], load).value)
      && (forall t :: t in r.lm.value ==> expansionIndex.expansionScorer(t, ed.original) == Ok(r.lm.value[t]))
    ensures ed.expansionLM.None? && r.lm.Fail? ==>
      && r.doc.original == ed.original && r.doc.expansion == ed.expansion && r.doc.originalLM == ed.originalLM
      && (r.doc.expansionLM.None? <==> !LanguageModelEstimator.AllReadable(ed.expansion, load))
      && (r.doc.expansionLM.Some? ==> forall t :: t in r.doc.expansionLM.value ==>
            expansionIndex.expansionScorer(t, ed.original) == Ok(r.doc.expansionLM.value[t]))
  {
    if ed.expansionLM.Some? then Computed(ed, Ok(ed.expansionLM.value))
    else
      match LanguageModelEstimator.ExpansionVocabulary(ed.expansion, load, None)
      case Fail(e) => Computed(ed, Fail(e))
      case Ok(terms) =>
        var sc := LanguageModelEstimator.ScoreTerms(terms, t => expansionIndex.expansionScorer(t, ed.original));
        if sc.failure.Some? then Computed(ed.(expansionLM := Some(sc.lm)), Fail(sc.failure.value))
        else Computed(ed.(expansion := Release(ed.expansion), expansionLM := Some(sc.lm)), Ok(sc.lm))
  }

  /** `originalLanguageModel(targetIndex)`: computed while the field is null
      with the Dirichlet scorer of the index given, as the estimator's
      `languageModel` computes it; later calls ignore their index. The field
      is set to an empty model before the document's vector is read, so a
      document with no vector leaves it empty, and a score that throws
      leaves it holding the terms scored so far. */
  function OriginalLanguageModel(ed: ExpandedDocument, targetIndex: Index, load: Loader): (r: Computed)
    ensures ed.originalLM.Some? ==> r == Computed(ed, Ok(ed.originalLM.value))
    ensures ed.originalLM.None? ==> r.lm == LanguageModelEstimator.LanguageModel(ed.original, targetIndex.dirichlet, load)
    ensures ed.originalLM.None? ==>
      && r.doc.originalLM.Some?
      && r.doc == ed.(originalLM := r.doc.originalLM)
      && (r.lm.Ok? ==> r.doc.originalLM == Some(r.lm.value))
      && (VectorOf(ed.original, load).None? ==> r.doc.originalLM == Some(map[]))
      && (VectorOf(ed.original, load).Some? ==> r.doc.originalLM.value.Keys <= VectorOf(ed.original, load).value.Keys)
      && (forall t :: t in r.doc.originalLM.value ==> targetIndex.dirichlet(t, ed.original) == Ok(r.doc.originalLM.value[t]))
  {
    if ed.originalLM.Some? then Computed(ed, Ok(ed.originalLM.value))
    else
      match LanguageModelEstimator.ScoreDocument(ed.original, targetIndex.dirichlet, load)
      case Fail(e) => Computed(ed.(originalLM := Some(map[])), Fail(e))
      case Ok(sc) =>
        Computed(ed.(originalLM := Some(sc.lm)), if sc.failure.Some? then Fail(sc.failure.value) else Ok(sc.lm))
  }

  /** Once computed, the expansion model is returned unchanged by every
      later call, and the object no longer changes. */
  lemma ExpansionModelMemoised(ed: ExpandedDocument, first: Index, later: Index, load: Loader)
    requires ExpansionLanguageModel(ed, first, load).lm.Ok?
    ensures var c := ExpansionLanguageModel(ed, first, load);
      ExpansionLanguageModel(c.doc, later, load) == c
  {
  }

  /** Once computed, the original model is returned unchanged by every later
      call, whatever index that call passes. */
  lemma OriginalModelMemoised(ed: ExpandedDocument, first: Index, later: Index, load: Loader)
    requires OriginalLanguageModel(ed, first, load).lm.Ok?
    ensures var c := OriginalLanguageModel(ed, first, load);
      OriginalLanguageModel(c.doc, later, load) == c
  {
  }

  /** After the original model throws, a second call does not retry: it
      returns what the first call left in the field, which for a document
      with no vector is the empty model. */
  lemma OriginalRetryReturnsPartial(ed: ExpandedDocument, first: Index, later: Index, load: Loader)
    requires ed.originalLM.None?
    requires OriginalLanguageModel(ed, first, load).lm.Fail?
    ensures var c := OriginalLanguageModel(ed, first, load);
      && OriginalLanguageModel(c.doc, later, load) == Computed(c.doc, Ok(c.doc.originalLM.value))
      && (VectorOf(ed.original, load).None? ==> OriginalLanguageModel(c.doc, later, load).lm == Ok(map[]))
  {
  }

  /** After a score throws in the expansion model, a second call returns the
      partial model the first left behind, and the expansion documents keep
      their vectors. */
  lemma ExpansionRetryReturnsPartial(ed: ExpandedDocument, first: Index, later: Index, load: Loader)
    requires ed.expansionLM.None? && LanguageModelEstimator.AllReadable(ed.expansion, load)
    requires ExpansionLanguageModel(ed, first, load).lm.Fail?
    ensures var c := ExpansionLanguageModel(ed, first, load);
      && c.doc.expansion == ed.expansion
      && c.doc.expansionLM.Some?
      && ExpansionLanguageModel(c.doc, later, load) == Computed(c.doc, Ok(c.doc.expansionLM.value))
  {
  }

  /** Computing the expansion model leaves no expansion document with a
      stored vector; each reads back what its index holds. */
  lemma ExpansionModelReleasesVectors(ed: ExpandedDocument, expansionIndex: Index, load: Loader)
    requires ed.expansionLM.None? && ExpansionLanguageModel(ed, expansionIndex, load).lm.Ok?
    ensures var d := ExpansionLanguageModel(ed, expansionIndex, load).doc;
      && |d.expansion| == |ed.expansion|
      && (forall i :: 0 <= i < |d.expansion| ==> d.expansion[i].vector.None?)
      && (forall i :: 0 <= i < |d.expansion| ==> VectorOf(d.expansion[i], load) == load(ed.expansion[i].ident))
  {
    ReleaseRereads(ed.expansion, load);
  }

  /** `languageModel(targetIndex, expansionIndex, originalLMWeight)`: the
      original model (first), then the expansion model, mixed over the
      union vocabulary with `w` on the original. It succeeds exactly when
      both do; an exception in either leaves the state that one left. */
  function LanguageModel(ed: ExpandedDocument, targetIndex: Index, expansionIndex: Index, w: real, load: Loader)
    : (r: Computed)
    ensures var orig := OriginalLanguageModel(ed, targetIndex, load);
      (r.lm.Ok? <==> orig.lm.Ok? && ExpansionLanguageModel(orig.doc, expansionIndex, load).lm.Ok?)
    ensures var orig := OriginalLanguageModel(ed, targetIndex, load);
      orig.lm.Fail? ==> r == orig
    ensures var orig := OriginalLanguageModel(ed, targetIndex, load);
      orig.lm.Ok? ==>
        var exp := ExpansionLanguageModel(orig.doc, expansionIndex, load);
        && r.doc == exp.doc
        && (exp.lm.Fail? ==> r.lm == exp.lm)
        && (r.lm.Ok? ==> LanguageModelEstimator.IsMix(r.lm.value, orig.lm.value, exp.lm.value, w))
  {
    var orig := OriginalLanguageModel(ed, targetIndex, load);
    if orig.lm.Fail? then orig
    else
      var exp := ExpansionLanguageModel(orig.doc, expansionIndex, load);
      if exp.lm.Fail? then exp
      else Computed(exp.doc, Ok(LanguageModelEstimator.CombinedLanguageModel(orig.lm.value, exp.lm.value, w)))
  }

  /** `languageModel(index, originalLMWeight)`: the two-index model with
      one index for both the original and the expansion documents. On
      success the object afterwards holds both parts of the mixture. */
  function LanguageModelOneIndex(ed: ExpandedDocument, index: Index, w: real, load: Loader): (r: Computed)
    ensures var orig := OriginalLanguageModel(ed, index, load);
      var exp := ExpansionLanguageModel(orig.doc, index, load);
      && (r.lm.Ok? <==> orig.lm.Ok? && exp.lm.Ok?)
      && (r.lm.Ok? ==> LanguageModelEstimator.IsMix(r.lm.value, orig.lm.value, exp.lm.value, w))
      && (r.lm.Ok? ==> r.doc.originalLM == Some(orig.lm.value) && r.doc.expansionLM == Some(exp.lm.value))
  {
    LanguageModel(ed, index, index, w, load)
  }

  /** With weight 1 the mixture carries exactly the original model's
      weights. */
  lemma LanguageModelAllOriginal(ed: ExpandedDocument, targetIndex: Index, expansionIndex: Index, load: Loader)
    requires LanguageModel(ed, targetIndex, expansionIndex, 1.0, load).lm.Ok?
    ensures forall t ::
      Weight(LanguageModel(ed, targetIndex, expansionIndex, 1.0, load).lm.value, t) ==
      Weight(OriginalLanguageModel(ed, targetIndex, load).lm.value, t)
  {
  }
}
