/** The older expander generation, which caches whole ExpandedDocument
    objects (DocumentExpander.java and PreExpandedDocumentExpander.java in
    the root package).

    As in the newer generation the cache is a map keyed by the identity of
    the document's hit, and a failed retrieval reaches the caller with
    nothing cached. Unlike it, the pseudo-query shares the document's own
    vector (a loaded vector is taken to be kept by the hit), so stopping
    and clipping change the document the caller holds: every operation
    that builds a pseudo-query returns that document as it is afterwards,
    whether or not the retrieval then succeeds. */
module LegacyExpander {
  import opened Common
  import DocumentExpander
  import ExpandedDocuments

  datatype LegacyExpander = LegacyExpander(
    numTerms: int,
    maxNumTerms: int,
    stopper: Option<set<Term>>,
    cache: map<nat, ExpandedDocuments.ExpandedDocument>)

  /** `new DocumentExpander(index, stopper)`: 20 terms, `maxNumTerms` at
      its default 0, an empty cache. */
  function NewLegacyExpander(stopper: Option<set<Term>>): (e: LegacyExpander)
    ensures e.numTerms == DocumentExpander.DefaultNumTerms && e.maxNumTerms == 0 && e.cache == map[]
  {
    LegacyExpander(DocumentExpander.DefaultNumTerms, 0, stopper, map[])
  }

  /** `addExpansionDocument(expandedDocument)`: stored under its original
      document, replacing any earlier entry. */
  function AddExpansionDocument(e: LegacyExpander, ed: ExpandedDocuments.ExpandedDocument): (r: LegacyExpander)
    ensures r.cache.Keys == e.cache.Keys + {ed.original.ident}
    ensures r.cache[ed.original.ident] == ed
    ensures forall k :: k in e.cache && k != ed.original.ident ==> r.cache[k] == e.cache[k]
    ensures r.numTerms == e.numTerms && r.maxNumTerms == e.maxNumTerms && r.stopper == e.stopper
  {
    e.(cache := e.cache[ed.original.ident := ed])
  }

  /** `addExpansionDocument(originalDocument, expansionDocuments...)`: the
      hits, in argument order, wrapped in a fresh expanded document. */
  function AddExpansionHits(e: LegacyExpander, original: Hit, expansion: seq<Hit>): (r: LegacyExpander)
    ensures r == AddExpansionDocument(e, ExpandedDocuments.NewExpandedDocument(original, expansion))
    ensures r.cache[original.ident].expansion == expansion
  {
    AddExpansionDocument(e, ExpandedDocuments.NewExpandedDocument(original, expansion))
  }

  /** A pseudo-query and the document that lent it its vector. */
  datatype Shared = Shared(document: Hit, query: TermVector)

  /** `createDocumentPseudoQuery(document)`: the document's own vector,
      stopped when a stopper is set and clipped to `numTerms`; the document
      now carries that same vector. A document with no vector to read
      throws. */
  function PseudoQuery(e: LegacyExpander, clip: (TermVector, int) -> TermVector, load: Loader, document: Hit)
    : (r: Result<Shared>)
    ensures r.Ok? <==> VectorOf(document, load).Some?
    ensures r.Ok? ==> r.value.document == document.(vector := Some(r.value.query))
    ensures r.Ok? && e.stopper.None? ==> r.value.query == clip(VectorOf(document, load).value, e.numTerms)
    ensures r.Ok? && e.stopper.Some? ==>
      r.value.query == clip(Stop(VectorOf(document, load).value, e.stopper.value), e.numTerms)
  {
    match VectorOf(document, load)
    case None => Fail("NullPointerException: document has no vector")
    case Some(v) =>
      var stopped := if e.stopper.Some? then Stop(v, e.stopper.value) else v;
      var clipped := clip(stopped, e.numTerms);
      Ok(Shared(document.(vector := Some(clipped)), clipped))
  }

  /** The expander and the caller's document afterwards, and the expanded
      document returned or the exception thrown. */
  datatype Expanded = Expanded(expander: LegacyExpander, document: Hit,
                               expanded: Result<ExpandedDocuments.ExpandedDocument>)

  /** `expandDocument(document)`: the cached expanded document when there is
      one; otherwise a retrieval with `maxNumTerms` as the document cut-off,
      whose result is cached. A failed retrieval reaches the caller and
      caches nothing, but the document has already been clipped. */
  function ExpandDocument(e: LegacyExpander, clip: (TermVector, int) -> TermVector, load: Loader,
                          runQuery: DocumentExpander.RunQuery, document: Hit): (r: Expanded)
    ensures document.ident in e.cache ==> r == Expanded(e, document, Ok(e.cache[document.ident]))
    ensures document.ident !in e.cache ==>
      (r.expanded.Ok? <==> PseudoQuery(e, clip, load, document).Ok? &&
                           runQuery(PseudoQuery(e, clip, load, document).value.query, e.maxNumTerms).Ok?)
    ensures r.expanded.Fail? ==> r.expander == e
    ensures document.ident !in e.cache && PseudoQuery(e, clip, load, document).Fail? ==> r.document == document
    ensures document.ident !in e.cache && PseudoQuery(e, clip, load, document).Ok? ==>
      var shared := PseudoQuery(e, clip, load, document).value;
      && r.document == shared.document
      && (r.expanded.Ok? ==>
            && r.expanded.value.original == shared.document
            && r.expanded.value.originalLM.None? && r.expanded.value.expansionLM.None?
            && r.expanded.value.expansion == runQuery(shared.query, e.maxNumTerms).value
            && r.expander == AddExpansionDocument(e, r.expanded.value))
  {
    if document.ident in e.cache then Expanded(e, document, Ok(e.cache[document.ident]))
    else
      match PseudoQuery(e, clip, load, document)
      case Fail(err) => Expanded(e, document, Fail(err))
      case Ok(shared) =>
        match runQuery(shared.query, e.maxNumTerms)
        case Fail(err) => Expanded(e, shared.document, Fail(err))
        case Ok(hits) =>
          var ed := ExpandedDocuments.NewExpandedDocument(shared.document, hits);
          Expanded(AddExpansionDocument(e, ed), shared.document, Ok(ed))
  }

  /** After `addExpansionDocument(ed)`, expanding the same document returns
      exactly `ed`, with no retrieval and no change to the document. */
  lemma AddedIsReturned(e: LegacyExpander, ed: ExpandedDocuments.ExpandedDocument,
                        clip: (TermVector, int) -> TermVector, load: Loader, runQuery: DocumentExpander.RunQuery,
                        document: Hit)
    requires document.ident == ed.original.ident
    ensures var added := AddExpansionDocument(e, ed);
      ExpandDocument(added, clip, load, runQuery, document) == Expanded(added, document, Ok(ed))
  {
  }

  /** The older pseudo-query changes the caller's document whenever
      clipping or stopping changes its vector, while the newer one, working
      on a copy, leaves the document as it was. */
  lemma PseudoQueryMutatesDocument(e: LegacyExpander, clip: (TermVector, int) -> TermVector, load: Loader,
                                   document: Hit)
    requires document.vector.Some? && e.stopper.None?
    requires clip(document.vector.value, e.numTerms) != document.vector.value
    ensures PseudoQuery(e, clip, load, document).value.document != document
    ensures var newer := DocumentExpander.Expander(e.numTerms, e.maxNumTerms, e.stopper, map[]);
      DocumentExpander.PseudoQuery(newer, clip, load, document).value ==
        PseudoQuery(e, clip, load, document).value.query
  {
    assert PseudoQuery(e, clip, load, document).value.document.vector.value != document.vector.value;
  }

  /** Retrieval on a miss uses `maxNumTerms` as the number of documents. */
  lemma MissRetrievesMaxNumTerms(e: LegacyExpander, clip: (TermVector, int) -> TermVector, load: Loader,
                                 runQuery: DocumentExpander.RunQuery, document: Hit)
    requires document.ident !in e.cache && VectorOf(document, load).Some?
    requires runQuery(PseudoQuery(e, clip, load, document).value.query, e.maxNumTerms).Ok?
    ensures var r := ExpandDocument(e, clip, load, runQuery, document);
      r.expanded.Ok? && document.ident in r.expander.cache &&
      r.expander.cache[document.ident].expansion ==
        runQuery(PseudoQuery(e, clip, load, document).value.query, e.maxNumTerms).value
  {
  }

  /** A failed retrieval on a miss is thrown, caches nothing, and leaves
      the caller's document clipped. */
  lemma FailedRetrievalStillClips(e: LegacyExpander, clip: (TermVector, int) -> TermVector, load: Loader,
                                  runQuery: DocumentExpander.RunQuery, document: Hit)
    requires document.ident !in e.cache && VectorOf(document, load).Some?
    requires runQuery(PseudoQuery(e, clip, load, document).value.query, e.maxNumTerms).Fail?
    ensures var r := ExpandDocument(e, clip, load, runQuery, document);
      var shared := PseudoQuery(e, clip, load, document).value;
      && r.expanded == Fail(runQuery(shared.query, e.maxNumTerms).reason)
      && r.expander == e
      && r.document == shared.document
  {
  }

  /** The older pre-expanded expander: a fixed cut-off from its constructor
      and a map from internal document id to hit list. */
  datatype LegacyPreExpanded = LegacyPreExpanded(base: LegacyExpander, lists: map<int, seq<Hit>>, numDocs: int)

  datatype PreExpandedResult = PreExpandedResult(expander: LegacyPreExpanded, expanded: ExpandedDocuments.ExpandedDocument)

  /** `expandDocument(document)`: a document without a stored list gets an
      expanded document with no hits; otherwise the stored list is cropped
      in place to the fixed `numDocs` and wrapped. The inherited cache is
      neither read nor written. */
  function PreExpandedExpandDocument(p: LegacyPreExpanded, document: Hit): (r: PreExpandedResult)
    ensures r.expander.base == p.base && r.expander.numDocs == p.numDocs
    ensures r.expanded.original == document
    ensures r.expanded.originalLM.None? && r.expanded.expansionLM.None?
    ensures document.docID !in p.lists ==> r.expanded.expansion == [] && r.expander.lists == p.lists
    ensures document.docID in p.lists ==>
      && r.expanded.expansion <= p.lists[document.docID]
      && |r.expanded.expansion| == (if p.numDocs <= 0 then 0 else Min(p.numDocs, |p.lists[document.docID]|))
      && r.expander.lists == p.lists[document.docID := r.expanded.expansion]
  {
    if document.docID !in p.lists then
      PreExpandedResult(p, ExpandedDocuments.NewExpandedDocument(document, []))
    else
      var cropped := Crop(p.lists[document.docID], p.numDocs);
      PreExpandedResult(p.(lists := p.lists[document.docID := cropped]), ExpandedDocuments.NewExpandedDocument(document, cropped))
  }

  /** Expanding again gives the same hits and leaves the stored list as the
      first call left it: cropping to a fixed size is idempotent. */
  lemma PreExpandedIdempotent(p: LegacyPreExpanded, document: Hit)
    ensures var first := PreExpandedExpandDocument(p, document);
      var second := PreExpandedExpandDocument(first.expander, document);
      second.expander == first.expander && second.expanded == first.expanded
  {
    var first := PreExpandedExpandDocument(p, document);
    if document.docID in p.lists {
      assert first.expander.lists[document.docID] == first.expanded.expansion;
      CropTwice(p.lists[document.docID], p.numDocs, p.numDocs);
    }
  }
}
