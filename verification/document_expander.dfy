/** Expansion of a document by retrieval, memoised per document
    (expansion/DocumentExpander.java).

    The Guava loading cache becomes a map from the identity of the
    document's hit to the hit list loaded for it, with no eviction. The
    index is the function `runQuery`, whose `Fail` stands for an exception
    it throws or a null it returns. The cache's loader declares no checked
    exception, so Guava hands such a failure to the caller (wrapped as an
    unchecked exception) and stores nothing; the `catch` of
    `ExecutionException` in `expandDocument` is never reached. The
    pseudo-query a subclass builds is passed to `ExpandDocument` as a
    function, which is how Java's dynamic dispatch reaches the loader.
    `clip` (keep the `k` heaviest terms) is a parameter too. */
module DocumentExpander {
  import opened Common

  /** `index.runQuery(pseudoQuery, numDocs)`. */
  type RunQuery = (TermVector, int) -> Result<seq<Hit>>

  /** The cut-off of pseudo-queries when none is given. */
  const DefaultNumTerms: int := 20

  datatype Expander = Expander(
    numTerms: int,
    maxNumDocs: int,
    stopper: Option<set<Term>>,
    cache: map<nat, seq<Hit>>)

  /** `new DocumentExpander(index, stopper)`: 20 terms, the `int` field
      `maxNumDocs` at its default 0, an empty cache. */
  function NewExpander(stopper: Option<set<Term>>): (e: Expander)
    ensures e.numTerms == 20 && e.maxNumDocs == 0 && e.cache == map[]
  {
    Expander(DefaultNumTerms, 0, stopper, map[])
  }

  /** `setMaxNumDocs(n)`: assigns the field and touches nothing else. */
  function SetMaxNumDocs(e: Expander, n: int): (r: Expander)
    ensures r.maxNumDocs == n
    ensures r.cache == e.cache && r.numTerms == e.numTerms && r.stopper == e.stopper
  {
    e.(maxNumDocs := n)
  }

  /** The outcome of a successful `LoadingCache.get`: the cache afterwards
      and the value. */
  datatype Fetch<K> = Fetch(cache: map<K, seq<Hit>>, value: seq<Hit>)

  /** `LoadingCache.get(key)`: a stored value is returned as is; otherwise
      the loader's result is stored and returned, and a loader that throws
      stores nothing and its exception reaches the caller. */
  function CacheGet<K>(cache: map<K, seq<Hit>>, key: K, load: Result<seq<Hit>>): (r: Result<Fetch<K>>)
    ensures key in cache ==> r == Ok(Fetch(cache, cache[key]))
    ensures key !in cache ==> (r.Fail? <==> load.Fail?)
    ensures key !in cache && load.Fail? ==> r.reason == load.reason
    ensures key !in cache && load.Ok? ==> r == Ok(Fetch(cache[key := load.value], load.value))
  {
    if key in cache then Ok(Fetch(cache, cache[key]))
    else match load
      case Fail(e) => Fail(e)
      case Ok(hits) => Ok(Fetch(cache[key := hits], hits))
  }

  /** `croppedHits(hits, limit)`: copies hits `0 .. min(limit, size) - 1`. */
  method CroppedHits(hits: seq<Hit>, limit: int) returns (cropped: seq<Hit>)
    ensures cropped == Crop(hits, limit)
  {
    cropped := [];
    var i := 0;
    while i < Min(limit, |hits|)
      invariant 0 <= i <= |hits|
      invariant i <= Max(0, Min(limit, |hits|))
      invariant cropped == hits[..i]
    {
      cropped := cropped + [hits[i]];
      i := i + 1;
    }
  }

  /** `createDocumentPseudoQuery(document)`: a copy of the document's vector,
      stopped when a stopper is set, then clipped to `numTerms`. The
      document is not changed. A document with no vector to read throws. */
  function PseudoQuery(e: Expander, clip: (TermVector, int) -> TermVector, load: Loader, document: Hit)
    : (r: Result<TermVector>)
    ensures r.Ok? <==> VectorOf(document, load).Some?
    ensures r.Ok? && e.stopper.None? ==> r.value == clip(VectorOf(document, load).value, e.numTerms)
    ensures r.Ok? && e.stopper.Some? ==> r.value == clip(Stop(VectorOf(document, load).value, e.stopper.value), e.numTerms)
  {
    match VectorOf(document, load)
    case None => Fail("NullPointerException: document has no vector")
    case Some(v) =>
      var stopped := if e.stopper.Some? then Stop(v, e.stopper.value) else v;
      Ok(clip(stopped, e.numTerms))
  }

  /** `expandDocumentByRetrieval(document, numDocs)` with the pseudo-query
      builder of the expander's class. */
  function ExpandByRetrieval(pseudoQuery: Hit -> Result<TermVector>, runQuery: RunQuery, document: Hit, numDocs: int)
    : (r: Result<seq<Hit>>)
    ensures pseudoQuery(document).Fail? ==> r == Fail(pseudoQuery(document).reason)
    ensures pseudoQuery(document).Ok? ==> r == runQuery(pseudoQuery(document).value, numDocs)
  {
    match pseudoQuery(document)
    case Fail(e) => Fail(e)
    case Ok(q) => runQuery(q, numDocs)
  }

  datatype Expanded = Expanded(expander: Expander, hits: seq<Hit>)

  /** `expandDocument(document, numDocs)`: the cached list for the document
      (loaded on a miss with the current `maxNumDocs` as cut-off), cropped
      to `numDocs`. A failed load reaches the caller, and the expander, to
      which nothing was stored, is the one it already holds. */
  function ExpandDocument(e: Expander, pseudoQuery: Hit -> Result<TermVector>, runQuery: RunQuery,
                          document: Hit, numDocs: int): (r: Result<Expanded>)
    ensures document.ident in e.cache ==> r == Ok(Expanded(e, Crop(e.cache[document.ident], numDocs)))
    ensures document.ident !in e.cache ==>
      (r.Ok? <==> pseudoQuery(document).Ok? && runQuery(pseudoQuery(document).value, e.maxNumDocs).Ok?)
    ensures r.Ok? ==> r.value.expander == e.(cache := r.value.expander.cache)
    ensures r.Ok? ==>
      var c := r.value.expander.cache;
      && document.ident in c
      && c == e.cache[document.ident := c[document.ident]]
      && r.value.hits == Crop(c[document.ident], numDocs)
    ensures r.Ok? && document.ident !in e.cache ==>
      r.value.expander.cache[document.ident] == runQuery(pseudoQuery(document).value, e.maxNumDocs).value
  {
    var load := if document.ident in e.cache then Ok(e.cache[document.ident])
                else ExpandByRetrieval(pseudoQuery, runQuery, document, e.maxNumDocs);
    match CacheGet(e.cache, document.ident, load)
    case Fail(err) => Fail(err)
    case Ok(Fetch(cache, hits)) => Ok(Expanded(e.(cache := cache), Crop(hits, numDocs)))
  }

  /** `expandDocument(document)`: the cut-off is `maxNumDocs`, the same one
      a miss retrieves with, so on a miss the whole retrieved list comes
      back when the index returns no more than it was asked for. */
  function ExpandDocumentDefault(e: Expander, pseudoQuery: Hit -> Result<TermVector>, runQuery: RunQuery,
                                 document: Hit): (r: Result<Expanded>)
    ensures r.Ok? ==> |r.value.hits| <= Max(0, e.maxNumDocs)
    ensures r.Ok? ==> document.ident in r.value.expander.cache &&
                      r.value.hits <= r.value.expander.cache[document.ident]
    ensures document.ident !in e.cache ==>
      (r.Ok? <==> pseudoQuery(document).Ok? && runQuery(pseudoQuery(document).value, e.maxNumDocs).Ok?)
    ensures document.ident !in e.cache && r.Ok? && |r.value.expander.cache[document.ident]| <= e.maxNumDocs ==>
      r.value.hits == runQuery(pseudoQuery(document).value, e.maxNumDocs).value
  {
    ExpandDocument(e, pseudoQuery, runQuery, document, e.maxNumDocs)
  }

  /** The expander's own pseudo-query builder. */
  function StandardPseudoQuery(e: Expander, clip: (TermVector, int) -> TermVector, load: Loader)
    : Hit -> Result<TermVector>
  {
    document => PseudoQuery(e, clip, load, document)
  }

  /** On a miss, retrieval runs with the current `maxNumDocs` and what it
      returns is what gets stored. */
  lemma MissLoadsWithMaxNumDocs(e: Expander, pseudoQuery: Hit -> Result<TermVector>, runQuery: RunQuery,
                                document: Hit, numDocs: int)
    requires document.ident !in e.cache
    requires pseudoQuery(document).Ok?
    requires runQuery(pseudoQuery(document).value, e.maxNumDocs).Ok?
    ensures var r := ExpandDocument(e, pseudoQuery, runQuery, document, numDocs);
      var loaded := runQuery(pseudoQuery(document).value, e.maxNumDocs).value;
      r == Ok(Expanded(e.(cache := e.cache[document.ident := loaded]), Crop(loaded, numDocs)))
  {
  }

  /** A failed load on a miss, in building the pseudo-query or in the
      retrieval, is the exception `expandDocument` throws; no empty list is
      substituted and nothing is cached. */
  lemma LoadFailurePropagates(e: Expander, pseudoQuery: Hit -> Result<TermVector>, runQuery: RunQuery,
                              document: Hit, numDocs: int)
    requires document.ident !in e.cache
    ensures pseudoQuery(document).Fail? ==>
      ExpandDocument(e, pseudoQuery, runQuery, document, numDocs) == Fail(pseudoQuery(document).reason)
    ensures pseudoQuery(document).Ok? && runQuery(pseudoQuery(document).value, e.maxNumDocs).Fail? ==>
      ExpandDocument(e, pseudoQuery, runQuery, document, numDocs) ==
        Fail(runQuery(pseudoQuery(document).value, e.maxNumDocs).reason)
  {
  }

  /** Once a document is cached its list never changes: neither expanding
      any document nor `setMaxNumDocs` alters a stored entry. */
  lemma CachedEntryStable(e: Expander, pseudoQuery: Hit -> Result<TermVector>, runQuery: RunQuery,
                          document: Hit, other: Hit, numDocs: int, n: int)
    requires document.ident in e.cache
    ensures SetMaxNumDocs(e, n).cache[document.ident] == e.cache[document.ident]
    ensures var r := ExpandDocument(e, pseudoQuery, runQuery, other, numDocs);
      r.Ok? ==> (document.ident in r.value.expander.cache &&
                 r.value.expander.cache[document.ident] == e.cache[document.ident])
  {
  }

  /** While a document is cached, a smaller request returns a prefix of a
      larger one. */
  lemma CroppedPrefix(e: Expander, pseudoQuery: Hit -> Result<TermVector>, runQuery: RunQuery,
                      document: Hit, k1: int, k2: int)
    requires document.ident in e.cache && k1 <= k2
    ensures ExpandDocument(e, pseudoQuery, runQuery, document, k1).value.hits <=
            ExpandDocument(e, pseudoQuery, runQuery, document, k2).value.hits
  {
  }

  /** With the default `maxNumDocs` of 0, the first expansion of a document
      retrieves with a cut-off of 0, whatever `numDocs` asks for: the base
      expander never raises `maxNumDocs` itself. */
  lemma FreshExpanderRetrievesZero(stopper: Option<set<Term>>, clip: (TermVector, int) -> TermVector, load: Loader,
                                   runQuery: RunQuery, document: Hit, numDocs: int)
    requires VectorOf(document, load).Some?
    ensures var e := NewExpander(stopper);
      var q := PseudoQuery(e, clip, load, document).value;
      var r := ExpandDocument(e, StandardPseudoQuery(e, clip, load), runQuery, document, numDocs);
      (r.Ok? <==> runQuery(q, 0).Ok?) &&
      (r.Ok? ==> r.value.expander.cache == map[document.ident := runQuery(q, 0).value])
  {
  }
}
