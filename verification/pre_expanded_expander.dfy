/** An expander that reads expansion lists from a precomputed map keyed by
    internal document id and crops the stored list in place
    (expansion/PreExpandedDocumentExpander.java). `SearchHits.crop(n)` is
    assumed to keep the first `n` hits. */
module PreExpandedExpander {
  import opened Common
  import DocumentExpander

  datatype PreExpanded = PreExpanded(base: DocumentExpander.Expander, lists: map<int, seq<Hit>>)

  datatype Expanded = Expanded(expander: PreExpanded, hits: seq<Hit>)

  /** `expandDocument(document, numDocs)`: raises `maxNumDocs` to `numDocs`
      when that is larger; a document without a stored list gets an empty
      one (the source prints a warning); otherwise the stored list is
      cropped to `numDocs` in place and that same list is returned. The
      inherited cache is neither read nor written. */
  function ExpandDocument(p: PreExpanded, document: Hit, numDocs: int): (r: Expanded)
    ensures r.expander.base == p.base.(maxNumDocs := Max(p.base.maxNumDocs, numDocs))
    ensures document.docID !in p.lists ==> r.hits == [] && r.expander.lists == p.lists
    ensures document.docID in p.lists ==>
      && r.hits <= p.lists[document.docID]
      && |r.hits| == (if numDocs <= 0 then 0 else Min(numDocs, |p.lists[document.docID]|))
      && r.expander.lists == p.lists[document.docID := r.hits]
  {
    var base := if numDocs > p.base.maxNumDocs then DocumentExpander.SetMaxNumDocs(p.base, numDocs) else p.base;
    if document.docID !in p.lists then Expanded(p.(base := base), [])
    else
      var cropped := Crop(p.lists[document.docID], numDocs);
      Expanded(PreExpanded(base, p.lists[document.docID := cropped]), cropped)
  }

  /** The returned list never holds more than `numDocs` hits. */
  lemma ExpandBounded(p: PreExpanded, document: Hit, numDocs: int)
    ensures |ExpandDocument(p, document, numDocs).hits| <= Max(0, numDocs)
  {
  }

  /** Lists stored for other documents are never touched. */
  lemma OtherListsUntouched(p: PreExpanded, document: Hit, numDocs: int, id: int)
    requires id != document.docID
    ensures var q := ExpandDocument(p, document, numDocs).expander;
      (id in q.lists <==> id in p.lists) && (id in p.lists ==> q.lists[id] == p.lists[id])
  {
  }

  /** After a request for `k1` hits, a later request for more cannot get
      back what the in-place crop dropped: it returns the first `k1`. */
  lemma CropIsPermanent(p: PreExpanded, document: Hit, k1: int, k2: int)
    requires document.docID in p.lists && 0 <= k1 <= k2
    ensures var first := ExpandDocument(p, document, k1);
      var second := ExpandDocument(first.expander, document, k2);
      second.hits == first.hits && |second.hits| <= k1
  {
    var first := ExpandDocument(p, document, k1);
    assert first.expander.lists[document.docID] == first.hits;
  }
}
