/** An expander whose pseudo-query mixes the query with the document, with
    one cache entry per (document, query weight)
    (expansion/QueryDependentDocumentExpander.java).

    `normalize` and `interpolate` are FeatureVector operations given as
    parameters, as is `clip`. Applying a missing stopper, like reading a
    missing query, is assumed to throw. */
module QueryDependentExpander {
  import opened Common
  import DocumentExpander

  datatype VectorOps = VectorOps(
    clip: (TermVector, int) -> TermVector,
    normalize: TermVector -> TermVector,
    interpolate: (TermVector, TermVector, real) -> TermVector)

  datatype QueryDependent = QueryDependent(
    base: DocumentExpander.Expander,
    query: Option<TermVector>,
    queryWeight: real,
    cache: map<(nat, real), seq<Hit>>)

  /** `createDocumentPseudoQuery(document)`: the stopped, normalised copy of
      the query interpolated, query first, with the normalised standard
      pseudo-query of the document, at `queryWeight`. The stored query is
      not changed. */
  function PseudoQuery(qd: QueryDependent, ops: VectorOps, load: Loader, document: Hit): (r: Result<TermVector>)
    ensures r.Ok? <==> qd.query.Some? && qd.base.stopper.Some? && VectorOf(document, load).Some?
    ensures r.Ok? ==> r.value == ops.interpolate(
      ops.normalize(Stop(qd.query.value, qd.base.stopper.value)),
      ops.normalize(DocumentExpander.PseudoQuery(qd.base, ops.clip, load, document).value),
      qd.queryWeight)
  {
    match qd.query
    case None => Fail("NullPointerException: no query set")
    case Some(q) =>
      match qd.base.stopper
      case None => Fail("NullPointerException: no stopper")
      case Some(stopwords) =>
        var queryVector := ops.normalize(Stop(q, stopwords));
        match DocumentExpander.PseudoQuery(qd.base, ops.clip, load, document)
        case Fail(e) => Fail(e)
        case Ok(standard) => Ok(ops.interpolate(queryVector, ops.normalize(standard), qd.queryWeight))
  }

  /** The expander afterwards and the hits, or the exception thrown: the
      cut-off is raised before the cache is consulted, so a failed load
      still leaves it raised. */
  datatype Outcome = Outcome(expander: QueryDependent, hits: Result<seq<Hit>>)

  /** `expandDocument(document, numDocs)`: raises `maxNumDocs` to `numDocs`
      when larger, then reads the entry for (document, current query
      weight), loading it on a miss with the raised cut-off, and crops it to
      `numDocs`. A failed load reaches the caller and stores nothing. */
  function ExpandDocument(qd: QueryDependent, ops: VectorOps, load: Loader, runQuery: DocumentExpander.RunQuery,
                          document: Hit, numDocs: int): (r: Outcome)
    ensures r.expander.base == qd.base.(maxNumDocs := Max(qd.base.maxNumDocs, numDocs))
    ensures r.expander.query == qd.query && r.expander.queryWeight == qd.queryWeight
    ensures var key := (document.ident, qd.queryWeight);
      key in qd.cache ==> r.hits == Ok(Crop(qd.cache[key], numDocs)) && r.expander.cache == qd.cache
    ensures var key := (document.ident, qd.queryWeight);
      key !in qd.cache ==>
        (r.hits.Ok? <==> PseudoQuery(qd, ops, load, document).Ok? &&
                         runQuery(PseudoQuery(qd, ops, load, document).value, Max(qd.base.maxNumDocs, numDocs)).Ok?)
    ensures r.hits.Fail? ==> r.expander.cache == qd.cache
    ensures r.hits.Ok? ==>
      var key := (document.ident, qd.queryWeight);
      var c := r.expander.cache;
      && key in c
      && c == qd.cache[key := c[key]]
      && r.hits.value == Crop(c[key], numDocs)
  {
    var base := if numDocs > qd.base.maxNumDocs then DocumentExpander.SetMaxNumDocs(qd.base, numDocs) else qd.base;
    var grown := qd.(base := base);
    var key := (document.ident, qd.queryWeight);
    assert PseudoQuery(grown, ops, load, document) == PseudoQuery(qd, ops, load, document);
    var loaded := if key in qd.cache then Ok(qd.cache[key])
                  else DocumentExpander.ExpandByRetrieval(d => PseudoQuery(grown, ops, load, d), runQuery, document, base.maxNumDocs);
    match DocumentExpander.CacheGet(qd.cache, key, loaded)
    case Fail(e) => Outcome(grown, Fail(e))
    case Ok(fetched) => Outcome(grown.(cache := fetched.cache), Ok(Crop(fetched.value, numDocs)))
  }

  /** Entries for other query weights are independent: expanding under the
      current weight never changes them. */
  lemma OtherWeightsUntouched(qd: QueryDependent, ops: VectorOps, load: Loader, runQuery: DocumentExpander.RunQuery,
                              document: Hit, numDocs: int, key: (nat, real))
    requires key.1 != qd.queryWeight
    ensures var c := ExpandDocument(qd, ops, load, runQuery, document, numDocs).expander.cache;
      (key in c <==> key in qd.cache) && (key in qd.cache ==> c[key] == qd.cache[key])
  {
  }

  /** A miss loads with the raised cut-off: retrieval is asked for
      max(maxNumDocs, numDocs) documents with the query-dependent
      pseudo-query, and the result is stored under the current weight. */
  lemma MissLoadsWithRaisedCutoff(qd: QueryDependent, ops: VectorOps, load: Loader, runQuery: DocumentExpander.RunQuery,
                                  document: Hit, numDocs: int)
    requires (document.ident, qd.queryWeight) !in qd.cache
    requires PseudoQuery(qd, ops, load, document).Ok?
    requires runQuery(PseudoQuery(qd, ops, load, document).value, Max(qd.base.maxNumDocs, numDocs)).Ok?
    ensures var r := ExpandDocument(qd, ops, load, runQuery, document, numDocs);
      var loaded := runQuery(PseudoQuery(qd, ops, load, document).value, Max(qd.base.maxNumDocs, numDocs)).value;
      r.hits == Ok(Crop(loaded, numDocs)) &&
      r.expander.cache == qd.cache[(document.ident, qd.queryWeight) := loaded]
  {
    var base := if numDocs > qd.base.maxNumDocs then DocumentExpander.SetMaxNumDocs(qd.base, numDocs) else qd.base;
    assert PseudoQuery(qd.(base := base), ops, load, document) == PseudoQuery(qd, ops, load, document);
  }

  /** A failed retrieval is thrown to the caller, with nothing cached but
      with the cut-off already raised. */
  lemma LoadFailureKeepsRaisedCutoff(qd: QueryDependent, ops: VectorOps, load: Loader, runQuery: DocumentExpander.RunQuery,
                                     document: Hit, numDocs: int)
    requires (document.ident, qd.queryWeight) !in qd.cache
    requires PseudoQuery(qd, ops, load, document).Ok?
    requires runQuery(PseudoQuery(qd, ops, load, document).value, Max(qd.base.maxNumDocs, numDocs)).Fail?
    ensures var r := ExpandDocument(qd, ops, load, runQuery, document, numDocs);
      && r.hits == Fail(runQuery(PseudoQuery(qd, ops, load, document).value, Max(qd.base.maxNumDocs, numDocs)).reason)
      && r.expander == qd.(base := qd.base.(maxNumDocs := Max(qd.base.maxNumDocs, numDocs)))
  {
    var base := if numDocs > qd.base.maxNumDocs then DocumentExpander.SetMaxNumDocs(qd.base, numDocs) else qd.base;
    assert PseudoQuery(qd.(base := base), ops, load, document) == PseudoQuery(qd, ops, load, document);
  }
}
