# Document expansion, modelled in Dafny

This project models the core of a research code base on document expansion
for ad-hoc retrieval. A retrieved document is "expanded" by retrieving the
documents most similar to it: its own term vector, stopped and clipped to
its heaviest terms, serves as a pseudo-query. Those expansion documents then
smooth the document's language model or its term scores.

The model covers:

- the document expanders and their caches (the current generation, the
  pre-expanded, query-dependent and premade-pseudo-query variants, and the
  older generation that caches whole expanded documents);
- the expanded document and its memoised language models;
- the language-model estimator and the vocabulary and probability-vector
  utilities behind KL and Jensen–Shannon comparison;
- the enumeration of interpolation weights in tenths;
- expansion scoring with its softmax document prior;
- the set, MAP and nDCG evaluators;
- the per-document features (pseudo average precision, rank and rank
  change, pairwise and group similarity);
- the user-study measures;
- the optimal-parameters and TREC-run readers;
- the neighbour-file reading loops, parameter sweeps and DELM smoothing of
  the retrieval drivers;
- the rank-change analysis script.

Every module is a set of pure functions over immutable data. A hit is
`Common.Hit`:

- `ident` stands for Java object identity;
- `docno` and `docID` are the external and internal ids;
- `score` is the retrieval score;
- `vector` is the term vector the hit holds, which is `None` when it has
  none or once released, as the source's `setFeatureVector(null)` does.
  Reading it (`Common.VectorOf`) falls back on the hit's index, a
  `Common.Loader` keyed by `ident`, which is how index-backed hits load
  their vectors on demand.

A term vector is a `map<string, real>`, and `Common.Weight` reads an absent
term as 0. An operation that mutates its arguments in place returns their
new values as part of its result; the aliasing of shared objects is not
kept (see "Left out"). Exceptions are the `Fail` case of `Result`. IEEE division
is `Common.Dbl`, which has NaN and infinities. The index, the collection
statistics, the Dirichlet scorer, `FeatureVector.clip`/`normalize`/
`interpolate`, `Math.exp`, `Math.log`, `SearchHits.rank()` and the number
parsers are function parameters. Each module states what it assumes of its
parameters.

Where the Java/Kotlin source and its own documentation disagree, the model
follows the code:

- `normalizeScores` subtracts the score of hit 0, not the maximum score,
  and an empty expansion list throws instead of scoring 0;
- the base expander loads a missing cache entry with the current
  `maxNumDocs` field, which defaults to 0. Only the pre-expanded and
  query-dependent expanders raise it to the requested count;
- the cache loaders declare no checked exception, so Guava's loading
  cache hands a failed retrieval (or a missing premade pseudo-query) to the
  caller as an unchecked exception and stores nothing. The `catch` of
  `ExecutionException` in `expandDocument` is never reached, and no empty
  list is substituted.

## Model

| member | source | states |
|---|---|---|
| FeatureUtils.SortedTerms | src/main/java/org/retrievable/document_expansion/features/FeatureUtils.java:26-27 | the sorted list holds exactly the set's terms, each once, in strictly increasing `String.compareTo` order, which compares UTF-16 code units |
| Text.Utf16Injective | src/main/java/org/retrievable/document_expansion/features/FeatureUtils.java:26-27 | distinct strings have distinct UTF-16 code-unit sequences, so comparing code units orders strings totally |
| Text.StrLessTotal | src/main/java/org/retrievable/document_expansion/features/FeatureUtils.java:26-27 | of two distinct strings one is `compareTo`-less than the other |
| Text.StrLessTransitive | src/main/java/org/retrievable/document_expansion/features/FeatureUtils.java:26-27 | the `compareTo` order is transitive |
| Text.SurrogatesSortHigh | src/main/java/org/retrievable/document_expansion/features/FeatureUtils.java:26-27 | U+1F600 sorts before U+FF01 although its code point is larger, because its first UTF-16 unit is a surrogate below U+FF01 |
| FeatureUtils.CreateVocabulary | src/main/java/org/retrievable/document_expansion/features/FeatureUtils.java:20-30 | the vocabulary is strictly sorted and a term is in it exactly when some vector has it; no vectors give no terms |
| FeatureUtils.VocabularyDistinct | src/main/java/org/retrievable/document_expansion/features/FeatureUtils.java:22-23 | no term appears twice in a vocabulary |
| FeatureUtils.VocabularyOrderIndependent | src/main/java/org/retrievable/document_expansion/features/FeatureUtils.java:20-30 | two argument lists holding the same vectors, in any order or multiplicity, give the same vocabulary |
| LMFeatures.BinarySearch | src/main/java/org/retrievable/document_expansion/features/LMFeatures.java:75 | on a sorted vocabulary a non-negative result is the key's index; a negative one means the key is absent and encodes its insertion point, all smaller terms before and all larger after |
| LMFeatures.ProbabilityVector | src/main/java/org/retrievable/document_expansion/features/LMFeatures.java:69-84 | slot j holds the model's weight of vocabulary term j, or 0.0 when the model lacks it |
| LMFeatures.ProjectRoundTrip | src/main/java/org/retrievable/document_expansion/features/LMFeatures.java:69-84 | when the vocabulary covers the model, reading the probability vector back by vocabulary gives every term its original weight |
| FeatureUtils.PairVocabulary | src/main/java/org/retrievable/document_expansion/features/LMFeatures.java:55 | the pair vocabulary is the union of the two models' terms |
| LMFeatures.Align | src/main/java/org/retrievable/document_expansion/features/LMFeatures.java:54-58 | both probability vectors have the vocabulary's length and are the two models projected onto the same sorted union vocabulary |
| LMFeatures.AlignCoversBoth | src/main/java/org/retrievable/document_expansion/features/LMFeatures.java:54-58 | every term of either model has one slot, holding that model's weight in each vector, so no weight is dropped by the skip branch |
| LMFeatures.CompareLanguageModels | src/main/java/org/retrievable/document_expansion/features/LMFeatures.java:54-61 | the divergence is the comparison applied to the two aligned probability vectors |
| InterpolationWeights.CombinationsAreParts | src/main/java/org/retrievable/document_expansion/lms/InterpolationWeights.java:40-83 | the recursion with a prefix summing to 10 - addTo returns that prefix followed by every composition of addTo into n parts, in enumeration order |
| InterpolationWeights.LoopIsPartsFrom | src/main/java/org/retrievable/document_expansion/lms/InterpolationWeights.java:58-77 | the loop from x on collects the compositions whose first part is at least x, each with the prefix prepended |
| InterpolationWeights.PartsSound | src/main/java/org/retrievable/document_expansion/lms/InterpolationWeights.java:40-83 | every enumerated list has n non-negative parts summing to the total |
| InterpolationWeights.PartsComplete | src/main/java/org/retrievable/document_expansion/lms/InterpolationWeights.java:40-83 | every list of n non-negative parts summing to the total is enumerated |
| InterpolationWeights.PartsAscending | src/main/java/org/retrievable/document_expansion/lms/InterpolationWeights.java:58-77 | the compositions come out in strictly increasing lexicographic order, hence without repeats |
| InterpolationWeights.PartsCount | src/main/java/org/retrievable/document_expansion/lms/InterpolationWeights.java:40-83 | there are C(total + n - 1, n - 1) compositions |
| InterpolationWeights.TenthsSum | src/main/java/org/retrievable/document_expansion/lms/InterpolationWeights.java:21-26 | dividing each part by 10 divides the sum by 10, so parts summing to 10 give weights summing to 1 |
| InterpolationWeights.TenthsKeepOrder | src/main/java/org/retrievable/document_expansion/lms/InterpolationWeights.java:21-26 | dividing by 10 keeps the lexicographic order of the lists |
| InterpolationWeights.Weights | src/main/java/org/retrievable/document_expansion/lms/InterpolationWeights.java:15-30 | C(n + 9, n - 1) lists of n tenths in [0, 1], each summing to 1, in strictly increasing lexicographic order |
| InterpolationWeights.WeightsComplete | src/main/java/org/retrievable/document_expansion/lms/InterpolationWeights.java:15-30 | every list of n tenths summing to 1 is among the weights |
| InterpolationWeights.WeightsDistinct | src/main/java/org/retrievable/document_expansion/lms/InterpolationWeights.java:15-30 | no combination is listed twice |
| InterpolationWeights.SmallCounts | src/main/java/org/retrievable/document_expansion/lms/InterpolationWeights.java:15-17 | one combination for one model, 11 for two, 66 for three |
| InterpolationWeights.WeightsOfTwo | src/main/java/org/retrievable/document_expansion/lms/InterpolationWeights.java:15-30 | for two models the i-th pair is (i/10, (10 - i)/10), i from 0 to 10 |
| LanguageModelEstimator.AccumulateDistinct | src/main/java/org/retrievable/document_expansion/lms/LanguageModelEstimator.java:53-56 | adding each term of a repeat-free vocabulary once gives each term exactly its score |
| LanguageModelEstimator.FromTerms | src/main/java/org/retrievable/document_expansion/lms/LanguageModelEstimator.java:39-56 | the model's terms are the vocabulary's and each carries its score |
| LanguageModelEstimator.ScoreTerms | src/main/java/org/retrievable/document_expansion/lms/LanguageModelEstimator.java:53-56 | the loop stops at the first term whose score throws and reports that exception; the partial model holds exactly the terms before it, and over a repeat-free vocabulary each carries its score |
| LanguageModelEstimator.ScoreTermsComplete | src/main/java/org/retrievable/document_expansion/lms/LanguageModelEstimator.java:53-56 | when every term of a repeat-free vocabulary scores, the loop finishes with each term mapped to its score |
| LanguageModelEstimator.ScoreVocabulary | src/main/java/org/retrievable/document_expansion/lms/LanguageModelEstimator.java:53-56 | over a repeat-free listing of a term set the model covers only those terms, finishes exactly when all of them score, and then covers all of them |
| LanguageModelEstimator.ScoreDocument | src/main/java/org/retrievable/document_expansion/lms/LanguageModelEstimator.java:83-90 | a document with no readable vector throws; otherwise the loop over its terms keeps only its terms with their scores, and finishes with all of them exactly when every one scores |
| LanguageModelEstimator.ExpansionVocabulary | src/main/java/org/retrievable/document_expansion/lms/LanguageModelEstimator.java:39-50 | the included terms when given; otherwise the terms of some expansion document, which throws exactly when one expansion document has no readable vector; no term twice |
| LanguageModelEstimator.LanguageModel | src/main/java/org/retrievable/document_expansion/lms/LanguageModelEstimator.java:83-90 | succeeds exactly when the document has a vector to read (its own, or reloaded from its index) and every term of it scores; the model then has exactly the document's terms, each with its score against the document |
| LanguageModelEstimator.ExpansionLanguageModel | src/main/java/org/retrievable/document_expansion/lms/LanguageModelEstimator.java:36-62 | succeeds exactly when the vocabulary can be built (the included terms, or every expansion document's vector is readable) and every vocabulary term scores against the original; the model's terms are the included terms or those of some expansion document, each with its score; the expansion documents come back released |
| LanguageModelEstimator.EmptyExpansionSetThrows | src/main/java/org/retrievable/document_expansion/lms/LanguageModelEstimator.java:36-56 | with included terms and a scorer that throws, as the expansion scorer does on an empty expansion set, the expansion model throws |
| LanguageModelEstimator.SecondExpansionModelAgrees | src/main/java/org/retrievable/document_expansion/lms/LanguageModelEstimator.java:58-59 | for hits read from an index, a second call over the released expansion documents re-reads their vectors from the index and gives the same model and the same released list |
| LanguageModelEstimator.CombinedLanguageModel | src/main/java/org/retrievable/document_expansion/lms/LanguageModelEstimator.java:92-100 | the mixture covers the union vocabulary, each term weighted w * p1 + (1 - w) * p2 |
| LanguageModelEstimator.CombineAllFirst | src/main/java/org/retrievable/document_expansion/lms/LanguageModelEstimator.java:92-100 | weight 1 reproduces the first model |
| LanguageModelEstimator.CombineAllSecond | src/main/java/org/retrievable/document_expansion/lms/LanguageModelEstimator.java:92-100 | weight 0 reproduces the second model |
| LanguageModelEstimator.CombineSelf | src/main/java/org/retrievable/document_expansion/lms/LanguageModelEstimator.java:92-100 | mixing a model with itself gives the model back |
| ExpandedDocuments.NewExpandedDocument | src/main/java/org/retrievable/document_expansion/data/ExpandedDocument.java:28-31 | keeps the original and its expansion list, with neither language model computed |
| ExpandedDocuments.GetExpansionDocuments | src/main/java/org/retrievable/document_expansion/data/ExpandedDocument.java:37-43 | the first min(limit, size) expansion documents, none for a non-positive limit |
| ExpandedDocuments.GetAllExpansionDocuments | src/main/java/org/retrievable/document_expansion/data/ExpandedDocument.java:45-47 | the whole expansion list |
| ExpandedDocuments.ExpansionLanguageModel | src/main/java/org/retrievable/document_expansion/data/ExpandedDocument.java:54-80 | a stored model is returned as is; otherwise it succeeds exactly when the estimator does over the expansion documents, storing a model whose terms are those of the expansion documents, each with its expansion score, and releasing the expansion vectors; a failure keeps the vectors and stores the model as far as the loop got, none only when a vector could not be read |
| ExpandedDocuments.OriginalLanguageModel | src/main/java/org/retrievable/document_expansion/data/ExpandedDocument.java:87-99 | a stored model is returned as is; otherwise the result is the estimator's model of the original under the Dirichlet scorer, and a model is stored in every case: that model on success, the empty one when the original has no vector, otherwise the terms scored before the exception |
| ExpandedDocuments.OriginalRetryReturnsPartial | src/main/java/org/retrievable/document_expansion/data/ExpandedDocument.java:87-99 | after the original model throws, a later call returns the partial model stored before the exception, the empty one when the original had no vector |
| ExpandedDocuments.ExpansionRetryReturnsPartial | src/main/java/org/retrievable/document_expansion/data/ExpandedDocument.java:54-80 | after a scorer exception in the expansion model, the expansion vectors are kept and a later call returns the partial model stored before the exception |
| ExpandedDocuments.ExpansionModelMemoised | src/main/java/org/retrievable/document_expansion/data/ExpandedDocument.java:55 | once computed, the expansion model is returned unchanged whatever index is passed later |
| ExpandedDocuments.OriginalModelMemoised | src/main/java/org/retrievable/document_expansion/data/ExpandedDocument.java:88 | once computed, the original model is returned unchanged whatever index is passed later |
| ExpandedDocuments.ExpansionModelReleasesVectors | src/main/java/org/retrievable/document_expansion/data/ExpandedDocument.java:75-76 | after the first computation every expansion document's vector is released, the list keeps its length, and each hit reads its vector back from its index |
| ExpandedDocuments.LanguageModel | src/main/java/org/retrievable/document_expansion/data/ExpandedDocument.java:118-129 | succeeds exactly when the original model and then the expansion model succeed; a failing original model is returned with its state; otherwise the state is the expansion step's and the result is the w-mixture of the two models over their union vocabulary |
| ExpandedDocuments.LanguageModelOneIndex | src/main/java/org/retrievable/document_expansion/data/ExpandedDocument.java:107-109 | the two-index model with the same index for both parts: succeeds exactly when the original and then the expansion model succeed, gives their w-mixture, and leaves both models stored |
| ExpandedDocuments.LanguageModelAllOriginal | src/main/java/org/retrievable/document_expansion/data/ExpandedDocument.java:118-129 | weight 1 gives the original model's weights |
| DocumentExpander.NewExpander | src/main/java/org/retrievable/document_expansion/expansion/DocumentExpander.java:35-43 | 20 pseudo-query terms, `maxNumDocs` 0, an empty cache |
| DocumentExpander.SetMaxNumDocs | src/main/java/org/retrievable/document_expansion/expansion/DocumentExpander.java:57-59 | changes the cut-off and nothing else; cached lists keep their size |
| DocumentExpander.CacheGet | src/main/java/org/retrievable/document_expansion/expansion/DocumentExpander.java:22-29 | a hit returns the stored list untouched; a miss stores and returns what the loader returns; a failing loader's exception reaches the caller and nothing is stored |
| DocumentExpander.CroppedHits | src/main/java/org/retrievable/document_expansion/expansion/DocumentExpander.java:76-82 | the first min(limit, size) hits in order, none for a non-positive limit |
| DocumentExpander.PseudoQuery | src/main/java/org/retrievable/document_expansion/expansion/DocumentExpander.java:92-105 | fails exactly when the document has no vector to read, its own or its index's; otherwise that vector, stopped when a stopper is set, clipped to `numTerms` |
| DocumentExpander.ExpandByRetrieval | src/main/java/org/retrievable/document_expansion/expansion/DocumentExpander.java:84-90 | a failing pseudo-query is the exception; otherwise the retrieval's outcome for the pseudo-query and the given count |
| DocumentExpander.ExpandDocument | src/main/java/org/retrievable/document_expansion/expansion/DocumentExpander.java:65-74 | a cached document gives its list cropped to numDocs and the expander unchanged; a miss succeeds exactly when the pseudo-query and the retrieval for `maxNumDocs` documents succeed, and stores that retrieval's list; only this document's entry can be added; numTerms and maxNumDocs are untouched |
| DocumentExpander.ExpandDocumentDefault | src/main/java/org/retrievable/document_expansion/expansion/DocumentExpander.java:61-63 | at most `maxNumDocs` hits, a prefix of the cached list; a miss succeeds exactly when the pseudo-query and retrieval succeed, and returns the retrieved list whole when it has at most `maxNumDocs` hits |
| DocumentExpander.MissLoadsWithMaxNumDocs | src/main/java/org/retrievable/document_expansion/expansion/DocumentExpander.java:26-28 | on a miss the retrieval asks for `maxNumDocs` documents, not numDocs, stores them and returns their crop |
| DocumentExpander.LoadFailurePropagates | src/main/java/org/retrievable/document_expansion/expansion/DocumentExpander.java:22-29 | on a miss a failing pseudo-query or retrieval is the exception `expandDocument` throws: no empty list is substituted and nothing is cached |
| DocumentExpander.CachedEntryStable | src/main/java/org/retrievable/document_expansion/expansion/DocumentExpander.java:22-29 | a cached list survives `setMaxNumDocs` and expansions of other documents unchanged |
| DocumentExpander.CroppedPrefix | src/main/java/org/retrievable/document_expansion/expansion/DocumentExpander.java:65-82 | for a cached document a smaller request returns a prefix of a larger one |
| DocumentExpander.FreshExpanderRetrievesZero | src/main/java/org/retrievable/document_expansion/expansion/DocumentExpander.java:18-43 | a freshly built expander, whose cut-off was never set, stores the result of a retrieval for 0 documents, whatever numDocs is requested |
| PreExpandedExpander.ExpandDocument | src/main/java/org/retrievable/document_expansion/expansion/PreExpandedDocumentExpander.java:22-34 | maxNumDocs grows to numDocs; an unknown document gets an empty list; a known one has its stored list cropped in place and gets that list |
| PreExpandedExpander.ExpandBounded | src/main/java/org/retrievable/document_expansion/expansion/PreExpandedDocumentExpander.java:32 | never more than numDocs hits |
| PreExpandedExpander.OtherListsUntouched | src/main/java/org/retrievable/document_expansion/expansion/PreExpandedDocumentExpander.java:27-33 | other documents' stored lists are untouched |
| PreExpandedExpander.CropIsPermanent | src/main/java/org/retrievable/document_expansion/expansion/PreExpandedDocumentExpander.java:32-33 | after a request for k1 hits, a later request for more gets back only those k1 |
| QueryDependentExpander.PseudoQuery | src/main/java/org/retrievable/document_expansion/expansion/QueryDependentDocumentExpander.java:79-100 | the normalised, stopped query interpolated with the normalised standard pseudo-query at the query weight; it throws without a query, a stopper or a document vector |
| QueryDependentExpander.ExpandDocument | src/main/java/org/retrievable/document_expansion/expansion/QueryDependentDocumentExpander.java:64-77 | maxNumDocs grows to numDocs whatever happens; a cached (document, query weight) entry is cropped to numDocs; a miss succeeds exactly when the query-dependent pseudo-query and the retrieval succeed; a failure leaves the cache unchanged; only that entry can be added |
| QueryDependentExpander.OtherWeightsUntouched | src/main/java/org/retrievable/document_expansion/expansion/QueryDependentDocumentExpander.java:24-34 | entries for other query weights are neither added nor changed |
| QueryDependentExpander.MissLoadsWithRaisedCutoff | src/main/java/org/retrievable/document_expansion/expansion/QueryDependentDocumentExpander.java:28-32 | a miss retrieves max(maxNumDocs, numDocs) documents with the query-dependent pseudo-query and stores them under the current weight |
| QueryDependentExpander.LoadFailureKeepsRaisedCutoff | src/main/java/org/retrievable/document_expansion/expansion/QueryDependentDocumentExpander.java:64-77 | a retrieval failure on a miss is the exception thrown, and the expander keeps the raised cut-off with nothing else changed |
| PremadePseudoQueries.ReadLine | src/main/java/org/retrievable/document_expansion/expansion/DocumentExpanderWithPremadePseudoQueries.java:26-34 | a line with three fields and a numeric weight sets that (docno, term) weight, creates the docno's table on first sight, and changes no other entry; fewer fields or a bad number throw |
| PremadePseudoQueries.ReadPremadePseudoQueries | src/main/java/org/retrievable/document_expansion/expansion/DocumentExpanderWithPremadePseudoQueries.java:22-40 | a missing file leaves the table as it was, with no exception; otherwise an exception escapes exactly when some line lacks a third field or a parseable weight, and no docno or (docno, term) pair already in the table is removed |
| PremadePseudoQueries.ReadLines | src/main/java/org/retrievable/document_expansion/expansion/DocumentExpanderWithPremadePseudoQueries.java:25-35 | the lines are stored one by one into the field; an exception escapes exactly when some line is bad; entries already present stay present |
| PremadePseudoQueries.FailureEndsReading | src/main/java/org/retrievable/document_expansion/expansion/DocumentExpanderWithPremadePseudoQueries.java:25-35 | once a line has thrown, later lines change neither the table nor the exception |
| PremadePseudoQueries.FailedLineKeepsEarlierLines | src/main/java/org/retrievable/document_expansion/expansion/DocumentExpanderWithPremadePseudoQueries.java:25-35 | a bad line after good ones escapes with its own exception and leaves the field holding exactly what the earlier lines stored |
| PremadePseudoQueries.LastLineWins | src/main/java/org/retrievable/document_expansion/expansion/DocumentExpanderWithPremadePseudoQueries.java:31-34 | the last line for a (docno, term) decides its weight |
| PremadePseudoQueries.ExtraFieldsIgnored | src/main/java/org/retrievable/document_expansion/expansion/DocumentExpanderWithPremadePseudoQueries.java:27-30 | lines that agree on their first three fields have the same effect |
| PremadePseudoQueries.SetTermsCopies | src/main/java/org/retrievable/document_expansion/expansion/DocumentExpanderWithPremadePseudoQueries.java:46-48 | setting each term in turn copies the stored weights |
| PremadePseudoQueries.PseudoQuery | src/main/java/org/retrievable/document_expansion/expansion/DocumentExpanderWithPremadePseudoQueries.java:43-54 | exactly the stored weights for the docno, unclipped; an unknown docno throws |
| PremadePseudoQueries.UnknownDocnoThrows | src/main/java/org/retrievable/document_expansion/expansion/DocumentExpanderWithPremadePseudoQueries.java:45-46 | expanding an uncached document with no premade pseudo-query throws rather than giving an empty list |
| LegacyExpander.NewLegacyExpander | src/main/java/org/retrievable/document_expansion/DocumentExpander.java:36-38 | 20 terms, `maxNumTerms` 0, an empty cache |
| LegacyExpander.AddExpansionDocument | src/main/java/org/retrievable/document_expansion/DocumentExpander.java:76-78 | the expanded document is stored under its original, replacing any earlier entry and no other |
| LegacyExpander.AddExpansionHits | src/main/java/org/retrievable/document_expansion/DocumentExpander.java:66-74 | the hits, in argument order, are stored as a fresh expanded document of the original |
| LegacyExpander.PseudoQuery | src/main/java/org/retrievable/document_expansion/DocumentExpander.java:98-107 | the document's own vector, stopped when a stopper is set and clipped; the caller's document now carries that vector |
| LegacyExpander.ExpandDocument | src/main/java/org/retrievable/document_expansion/DocumentExpander.java:80-96 | the cached expanded document when there is one; otherwise it succeeds exactly when the pseudo-query and a retrieval with `maxNumTerms` as the document count succeed, and caches the result; a failure changes no cache entry |
| LegacyExpander.AddedIsReturned | src/main/java/org/retrievable/document_expansion/DocumentExpander.java:76-82 | after adding an expanded document, expanding its original returns it without retrieval |
| LegacyExpander.PseudoQueryMutatesDocument | src/main/java/org/retrievable/document_expansion/DocumentExpander.java:98-107 | when clipping changes the vector, the older pseudo-query changes the caller's document; the query equals the newer generation's copy-based one |
| LegacyExpander.MissRetrievesMaxNumTerms | src/main/java/org/retrievable/document_expansion/DocumentExpander.java:23-30 | on a miss the retrieved and cached list is the one asked for with `maxNumTerms` documents |
| LegacyExpander.FailedRetrievalStillClips | src/main/java/org/retrievable/document_expansion/DocumentExpander.java:80-107 | a retrieval failure after the pseudo-query is built is the exception thrown; the cache is unchanged but the document keeps the clipped vector the pseudo-query step gave it |
| LegacyExpander.PreExpandedExpandDocument | src/main/java/org/retrievable/document_expansion/PreExpandedDocumentExpander.java:23-31 | an unknown document gets an empty expansion; a known one has its stored list cropped in place to the fixed numDocs and wrapped |
| LegacyExpander.PreExpandedIdempotent | src/main/java/org/retrievable/document_expansion/PreExpandedDocumentExpander.java:29-30 | expanding again gives the same expansion and leaves the stored lists as the first call left them |
| Scoring.FirstPass | src/main/java/org/retrievable/document_expansion/scoring/DocScorerWithNormalizedScorePrior.java:26-32 | every hit gets exp(score - k), k being hit 0's score, and the sum is the sum of these values |
| Scoring.SecondPass | src/main/java/org/retrievable/document_expansion/scoring/DocScorerWithNormalizedScorePrior.java:33-35 | every stored value is divided by the sum |
| Scoring.NormalizeScores | src/main/java/org/retrievable/document_expansion/scoring/DocScorerWithNormalizedScorePrior.java:23-38 | an empty list throws; otherwise every hit has a prior, and for distinct hits it is their softmax |
| Scoring.PriorsPositive | src/main/java/org/retrievable/document_expansion/scoring/DocScorerWithNormalizedScorePrior.java:29-34 | every prior is positive |
| Scoring.PriorsSumToOne | src/main/java/org/retrievable/document_expansion/scoring/DocScorerWithNormalizedScorePrior.java:23-38 | the priors of a non-empty set sum to 1 |
| Scoring.PriorMonotone | src/main/java/org/retrievable/document_expansion/scoring/DocScorerWithNormalizedScorePrior.java:29-34 | a higher retrieval score gives a strictly higher prior |
| Scoring.NewExpansionDocScorer | src/main/java/org/retrievable/document_expansion/scoring/ExpansionDocScorer.java:17-22 | μ 2500, 5 expansion documents, no priors |
| Scoring.ScoreTerm | src/main/java/org/retrievable/document_expansion/scoring/ExpansionDocScorer.java:45-52 | the expansion documents replace the prior table; the score is the sum over them of the prior-weighted score; an empty expansion set or a failed expansion throws |
| Scoring.ExpansionDocScorerWith | src/main/java/org/retrievable/document_expansion/scoring/ExpansionDocScorer.java:39-42 | the scorer built with mu and numDocs has that mu and that cut-off, no priors, and equals the default cut-off scorer after `setNumDocs(numDocs)` |
| Scoring.SetNumDocs | src/main/java/org/retrievable/document_expansion/scoring/ExpansionDocScorer.java:54-56 | changes the cut-off and keeps mu and the priors |
| Scoring.SetNumDocsReachesExpander | src/main/java/org/retrievable/document_expansion/scoring/ExpansionDocScorer.java:54-60 | after `setNumDocs(n)` the expansion documents are the expander's answer for n, whatever scorer it started from |
| Scoring.TotalScoreAppend | src/main/java/org/retrievable/document_expansion/scoring/ExpansionDocScorer.java:49 | the total over two lists of expansion documents is the sum of their totals |
| Scoring.TotalScoreSingle | src/main/java/org/retrievable/document_expansion/scoring/ExpansionDocScorer.java:49 | the total over one expansion document is that document's prior-weighted score |
| Evaluators.CountTop | src/main/java/edu/gslis/evaluation/evaluators/SetEvaluator.java:28-33 | the number of relevant hits among the first k; k beyond the list throws |
| Evaluators.PrecisionAt | src/main/java/edu/gslis/evaluation/evaluators/SetEvaluator.java:25-36 | relevant among the first k of the ranked list over k (NaN for k = 0); the caller's list is ranked; k beyond the list throws |
| Evaluators.PrecisionBounded | src/main/java/edu/gslis/evaluation/evaluators/SetEvaluator.java:35 | precision at a cut-off within the list lies in [0, 1] |
| Evaluators.RecallAt | src/main/java/edu/gslis/evaluation/evaluators/SetEvaluator.java:50-67 | relevant among the first k over the number judged relevant, 0 when none are judged; k beyond the list throws first |
| Evaluators.Precision | src/main/java/edu/gslis/evaluation/evaluators/SetEvaluator.java:17-19 | precision at the list's own size never throws: the relevant share of the ranked list, and NaN (0/0) for an empty list |
| Evaluators.Recall | src/main/java/edu/gslis/evaluation/evaluators/SetEvaluator.java:42-44 | recall at the list's own size never throws: the relevant hits of the whole ranked list over the judged relevant count, 0 when none are judged relevant |
| Evaluators.Jaccard | src/main/java/edu/gslis/evaluation/evaluators/SetEvaluator.java:69-77 | intersection size over union size, NaN for two empty sets |
| Evaluators.JaccardSymmetric | src/main/java/edu/gslis/evaluation/evaluators/SetEvaluator.java:69-77 | the similarity is symmetric |
| Evaluators.JaccardEqual | src/main/java/edu/gslis/evaluation/evaluators/SetEvaluator.java:69-77 | equal non-empty sets score 1 |
| Evaluators.JaccardDisjoint | src/main/java/edu/gslis/evaluation/evaluators/SetEvaluator.java:69-77 | disjoint sets that are not both empty score 0 |
| Evaluators.JaccardBounded | src/main/java/edu/gslis/evaluation/evaluators/SetEvaluator.java:69-77 | whenever defined, the similarity lies in [0, 1] |
| Evaluators.AveragePrecision | src/main/java/edu/gslis/evaluation/evaluators/MAPEvaluator.java:32-63 | the sum of precision at each relevant position of the ranked list, over the number of judged relevant documents; a null relevant set leaves the sum undivided; NaN becomes 0 |
| Evaluators.NoRelevantAPZero | src/main/java/edu/gslis/evaluation/evaluators/MAPEvaluator.java:40-47 | a list without relevant hits has AP sum 0 |
| Evaluators.APSumBounded | src/main/java/edu/gslis/evaluation/evaluators/MAPEvaluator.java:40-47 | the AP sum lies between 0 and the number of relevant hits |
| Evaluators.CountIsDistinctDocnos | src/main/java/edu/gslis/evaluation/evaluators/MAPEvaluator.java:40-47 | with distinct docnos the relevant count is the number of distinct relevant docnos |
| Evaluators.APBounded | src/main/java/edu/gslis/evaluation/evaluators/MAPEvaluator.java:32-63 | with distinct docnos and judgments consistent with the relevant set, AP lies in [0, 1] |
| Evaluators.MeanAveragePrecision | src/main/java/edu/gslis/evaluation/evaluators/MAPEvaluator.java:13-26 | the mean of the per-query APs in query order; an empty batch gives NaN |
| Evaluators.MeanBounded | src/main/java/edu/gslis/evaluation/evaluators/MAPEvaluator.java:13-26 | a mean of values in [0, 1] lies in [0, 1] |
| Evaluators.Gain | src/main/java/edu/gslis/evaluation/evaluators/NDCGEvaluator.java:138-140 | 2^rel - 1 is 0 for level 0, at least 1 for a positive level and negative for a negative one |
| Evaluators.DCG | src/main/java/edu/gslis/evaluation/evaluators/NDCGEvaluator.java:87-95 | the results as given, without re-ranking; a cut-off beyond the list throws; a non-positive one gives 0 |
| Evaluators.DCGNonNegative | src/main/java/edu/gslis/evaluation/evaluators/NDCGEvaluator.java:87-95 | non-negative relevance levels give a non-negative DCG |
| Evaluators.IdealHits | src/main/java/edu/gslis/evaluation/evaluators/NDCGEvaluator.java:124-131 | one hit per judged relevant document, scored by its level |
| Evaluators.IDCG | src/main/java/edu/gslis/evaluation/evaluators/NDCGEvaluator.java:115-136 | the DCG of the ranked ideal list; a null relevant set uses the empty list |
| Evaluators.NDCG | src/main/java/edu/gslis/evaluation/evaluators/NDCGEvaluator.java:57-65 | DCG over IDCG, 0 when IDCG is 0; it throws exactly when either does |
| Evaluators.IdealScoresOne | src/main/java/edu/gslis/evaluation/evaluators/NDCGEvaluator.java:57-136 | the ranked ideal list scores nDCG 1 whenever its IDCG is non-zero |
| Evaluators.UnjudgedQueryThrows | src/main/java/edu/gslis/evaluation/evaluators/NDCGEvaluator.java:118-122 | a positive cut-off for a query without judged relevant documents throws instead of scoring 0 |
| Evaluators.AverageNDCG | src/main/java/edu/gslis/evaluation/evaluators/NDCGEvaluator.java:21-35 | the mean of the per-query nDCGs; it fails exactly when one query's nDCG throws |
| Features.PseudoAPNoRelevant | src/main/kotlin/org/retrievable/documentExpansion/main/ComputeExpansionFeatures2.kt:32-41 | no relevant result gives 0 |
| Features.PseudoAPBounded | src/main/kotlin/org/retrievable/documentExpansion/main/ComputeExpansionFeatures2.kt:24-45 | with distinct results the value lies in [0, 1] |
| Features.PseudoAPPerfect | src/main/kotlin/org/retrievable/documentExpansion/main/ComputeExpansionFeatures2.kt:24-45 | putting exactly the relevant docnos first scores 1 |
| Features.PseudoAveragePrecision | src/main/kotlin/org/retrievable/documentExpansion/main/ComputeExpansionFeatures2.kt:24-46 | the one-pass loop gives the sum, over the positions holding a relevant docno, of the precision at that position, divided by the number of relevant docnos; no relevant docnos give 0 |
| Features.DocumentRank | src/main/kotlin/org/retrievable/documentExpansion/features/DocumentFeatures.kt:44-46 | one plus the position of the first hit with the document's docno, 0 when there is none |
| Features.RmImprovementRank | src/main/kotlin/org/retrievable/documentExpansion/features/DocumentFeatures.kt:93-105 | 1 exactly when the two ranks differ and the RM rank is smaller or the original rank is missing, otherwise -1 |
| Features.RmImprovementRankCases | src/main/kotlin/org/retrievable/documentExpansion/features/DocumentFeatures.kt:93-105 | as written the result is 1 exactly when the ranks differ and the RM rank is smaller or the original rank is missing |
| Features.RmDropOutCountsAsImproved | src/main/kotlin/org/retrievable/documentExpansion/features/DocumentFeatures.kt:100-102 | a document ranked 1 originally and missing from the RM list is reported as improved |
| Features.RmImprovementRankIntended | src/main/kotlin/org/retrievable/documentExpansion/features/DocumentFeatures.kt:93-105 | 1 exactly when the document is in the RM list and is missing from the original list or ranks higher under the RM, otherwise -1 |
| Features.RmImprovementRankIntendedCases | src/main/kotlin/org/retrievable/documentExpansion/features/DocumentFeatures.kt:97-104 | the corrected result is 1 exactly when the document is in the RM list and was either missing originally or ranked lower; it agrees with the source whenever the RM rank exists |
| Common.Dedup | src/main/kotlin/org/retrievable/documentExpansion/features/PairwiseDocumentFeatures.kt:13 | the same elements without repeats, each kept once |
| Common.ReleaseRereads | src/main/java/org/retrievable/document_expansion/lms/LanguageModelEstimator.java:58-59 | after a release every hit reads its vector back from its index, so for hits whose vector came from the index a release changes no later read |
| Features.PairwiseSimilarityOfSet | src/main/kotlin/org/retrievable/documentExpansion/features/PairwiseDocumentFeatures.kt:10-24 | the average over ordered pairs of distinct documents of the deduplicated set; NaN for fewer than two |
| Features.PairwiseIgnoresRepeats | src/main/kotlin/org/retrievable/documentExpansion/features/PairwiseDocumentFeatures.kt:13 | repeating a document already present changes nothing |
| Features.PairwiseSimilarity | src/main/kotlin/org/retrievable/documentExpansion/main/ComputePostExpansionFeatures.kt:136-145 | the sum over position pairs i < j, repeats included, over their count n(n - 1)/2; NaN for fewer than two |
| Features.OthersVector | src/main/kotlin/org/retrievable/documentExpansion/main/ComputePostExpansionFeatures.kt:149-152 | it fails exactly when a document other than the given one has no vector to read, neither its own nor its index's |
| Features.AverageGroupSimilarity | src/main/kotlin/org/retrievable/documentExpansion/main/ComputePostExpansionFeatures.kt:147-156 | the non-local return inside the lambda makes the result the first document's similarity to the sum of all the others; an empty list gives NaN |
| Features.AverageGroupUsesFirstOnly | src/main/kotlin/org/retrievable/documentExpansion/main/ComputePostExpansionFeatures.kt:148-153 | each term's weight in the "others" vector is the sum of its weights over every document but the first |
| UserStudy.ParseTopicTerm | src/main/kotlin/org/retrievable/documentExpansion/main/ComputeUserStudyMetrics.kt:212-213 | the first four comma fields of the line, with Kotlin whitespace trimmed from both ends, are user, docno, index and term; fewer throw |
| Text.Trim | src/main/kotlin/org/retrievable/documentExpansion/main/ComputeUserStudyMetrics.kt:212 | the result is a slice of the line with only whitespace (Kotlin `Char.isWhitespace`) removed before and after, and starts and ends with a non-whitespace character |
| UserStudy.ReadTopicTermsData | src/main/kotlin/org/retrievable/documentExpansion/main/ComputeUserStudyMetrics.kt:208-217 | one record per line in order; it fails exactly when some line is malformed |
| UserStudy.AnnotationsBy | src/main/kotlin/org/retrievable/documentExpansion/main/ComputeUserStudyMetrics.kt:228-236 | the docnos the user annotated, each with exactly the terms the user gave it |
| UserStudy.TopicTermsFor | src/main/kotlin/org/retrievable/documentExpansion/main/ComputeUserStudyMetrics.kt:241-246 | exactly the terms any user gave the docno |
| UserStudy.AnnotationsWithinTopicTerms | src/main/kotlin/org/retrievable/documentExpansion/main/ComputeUserStudyMetrics.kt:228-246 | no annotated docno has an empty term set, and one user's terms are among all users' terms |
| UserStudy.CollectionOf | src/main/kotlin/org/retrievable/documentExpansion/main/ComputeUserStudyMetrics.kt:248-250 | the index of the first record for the docno; an unknown docno throws |
| UserStudy.SumScores | src/main/kotlin/org/retrievable/documentExpansion/analysis/UserStudyAnalysis.kt:35 | a left-to-right sum that succeeds exactly when every score does, giving the sum of the scores, and otherwise throws the first failing term's exception |
| UserStudy.SetSumRemove | src/main/kotlin/org/retrievable/documentExpansion/analysis/UserStudyAnalysis.kt:35 | a sum over a set splits into one member's value plus the sum over the rest |
| UserStudy.SumOverDistinct | src/main/kotlin/org/retrievable/documentExpansion/analysis/UserStudyAnalysis.kt:35 | summing a repeat-free list gives the sum over the set of its elements |
| UserStudy.TotalProbability | src/main/kotlin/org/retrievable/documentExpansion/analysis/UserStudyAnalysis.kt:34-36 | succeeds exactly when every topic term scores; the value is the sum of the scores over the set of distinct topic terms; a failure is some topic term's exception |
| UserStudy.ProbabilityChange | src/main/kotlin/org/retrievable/documentExpansion/analysis/UserStudyAnalysis.kt:24-32 | succeeds exactly when every topic term scores under both scorers; the value is the expansion sum minus the original sum over the distinct topic terms; a failure is some term's expansion exception, or its original exception when its expansion score succeeded |
| UserStudy.SumOverChange | src/main/kotlin/org/retrievable/documentExpansion/analysis/UserStudyAnalysis.kt:29-31 | summing per-term differences equals the difference of the two sums when every score succeeds |
| UserStudy.ChangeIsDifferenceOfTotals | src/main/kotlin/org/retrievable/documentExpansion/analysis/UserStudyAnalysis.kt:24-36 | the change succeeds exactly when both totals do, and is then the expansion total minus the original total |
| UserStudy.RepeatsCountOnce | src/main/kotlin/org/retrievable/documentExpansion/analysis/UserStudyAnalysis.kt:35 | appending a topic term already present changes neither the outcome nor the value |
| UserStudy.QueryTopicTermSimilarity | src/main/kotlin/org/retrievable/documentExpansion/analysis/UserStudyAnalysis.kt:124-132 | the Jaccard similarity of the topic terms and the query's non-stopword terms |
| UserStudy.StoppedTermsNotShared | src/main/kotlin/org/retrievable/documentExpansion/analysis/UserStudyAnalysis.kt:125-131 | a stopword is never counted as shared with the query |
| Parsers.FirstWithPrefix | src/main/kotlin/org/retrievable/documentExpansion/utils/OptimalParameters.kt:35 | the first field with the prefix; none exactly when no field has it |
| Parsers.AfterLastColon | src/main/kotlin/org/retrievable/documentExpansion/utils/OptimalParameters.kt:35 | the text after the last colon, containing no colon; a field without one is kept whole |
| Parsers.WithPrefix | src/main/kotlin/org/retrievable/documentExpansion/utils/OptimalParameters.kt:38 | exactly the fields with the prefix, never more than there are fields |
| Parsers.ExpansionWeights | src/main/kotlin/org/retrievable/documentExpansion/utils/OptimalParameters.kt:38 | it throws exactly when some `expW` field does not parse; otherwise the i-th weight is the value of the i-th `expW` field |
| Parsers.Named | src/main/kotlin/org/retrievable/documentExpansion/utils/OptimalParameters.kt:35-37 | the parsed value after the last colon of the first field with the prefix; a missing field or a bad number throws |
| Parsers.ParseParameters | src/main/kotlin/org/retrievable/documentExpansion/utils/OptimalParameters.kt:34-38 | the second token's comma fields give origW, expDocs, expTerms and every expW; it fails exactly when one of them does or the token is missing |
| Parsers.ReadOptimalParameters | src/main/kotlin/org/retrievable/documentExpansion/utils/OptimalParameters.kt:15-40 | with no line naming the query the defaults (1.0, [0.0], 5, 5) stand |
| Parsers.FirstMatchDecides | src/main/kotlin/org/retrievable/documentExpansion/utils/OptimalParameters.kt:30-40 | the first line naming the query decides everything and later lines are never read |
| Parsers.ParseHit | src/main/kotlin/edu/gslis/searchhits/SearchHitsBatchReader.kt:32-34 | succeeds exactly when the line has at least five fields and field 4 parses; the hit then has the given identity, docno field 2, score field 4 and no vector |
| Parsers.Step | src/main/kotlin/edu/gslis/searchhits/SearchHitsBatchReader.kt:23-36 | a malformed line throws; a firing query test stores the accumulated list under the current query, makes the line's query current and starts a new list with the line's hit; otherwise the hit is appended and nothing is stored; other stored lists are untouched |
| Parsers.Loop | src/main/kotlin/edu/gslis/searchhits/SearchHitsBatchReader.kt:18-37 | starting from the first line's query with nothing stored, the loop fails exactly when one of the lines read is malformed |
| Parsers.StepKeepsLineHits | src/main/kotlin/edu/gslis/searchhits/SearchHitsBatchReader.kt:23-36 | one line keeps both loop facts: the pending list is the hits of the last lines read, in order, and every stored hit is an earlier line's hit |
| Parsers.LoopKeepsLineHits | src/main/kotlin/edu/gslis/searchhits/SearchHitsBatchReader.kt:22-37 | after any number of lines, the pending list holds the hits of the last lines read and every stored hit is the hit of an earlier line |
| Parsers.NeverFiringStoresNothing | src/main/kotlin/edu/gslis/searchhits/SearchHitsBatchReader.kt:26-30 | when the query test never fires, nothing is stored |
| Parsers.ReadTrecOutput | src/main/kotlin/edu/gslis/searchhits/SearchHitsBatchReader.kt:7-40 | an empty file or a malformed line throws; every returned hit is its own line's hit, and the last line's hit is never returned; a query test that never fires returns an empty map |
| Parsers.LastHitPending | src/main/kotlin/edu/gslis/searchhits/SearchHitsBatchReader.kt:22-39 | the last line's hit is always in the unstored list when the loop ends |
| Parsers.AlwaysFiringStoresSingletons | src/main/kotlin/edu/gslis/searchhits/SearchHitsBatchReader.kt:26-30 | when the reference test fires on every line, every stored list holds at most one hit |
| Parsers.OneLineLosesItsHit | src/main/kotlin/edu/gslis/searchhits/SearchHitsBatchReader.kt:21-39 | the one-line file "q 0 d 0 1" reads as q mapped to an empty list |
| Parsers.ReadTrecOutputIntended | src/main/kotlin/edu/gslis/searchhits/SearchHitsBatchReader.kt:7-40 | the corrected reader: an empty file gives an empty batch |
| Parsers.OneQueryIntendedResult | src/main/kotlin/edu/gslis/searchhits/SearchHitsBatchReader.kt:21-39 | under the corrected reader a one-query file maps that query to every line's hit, in order |
| NeighbourFiles.GroupIsSelect | src/main/java/org/retrievable/document_expansion/main/RunExpandedRetrievalWithGivenExpansionDocs.java:82-85 | grouping gives a key a list exactly when some row has it, and the list is that key's hits in file order |
| NeighbourFiles.GroupIsSelectAll | src/main/java/org/retrievable/document_expansion/main/RunExpandedRetrievalWithGivenExpansionDocs.java:82-85 | grouping pairs by key gives exactly the keys present, each with the values paired with it in order |
| NeighbourFiles.RowHit | src/main/java/org/retrievable/document_expansion/main/RunExpandedRetrievalWithGivenExpansionDocs.java:73-78 | the related docno with the parsed cosine as score; a bad cosine throws |
| NeighbourFiles.ParseRows | src/main/java/org/retrievable/document_expansion/main/RunExpandedRetrievalWithGivenExpansionDocs.java:70-78 | every row in order as (original docno, hit); it fails exactly when some cosine does not parse |
| NeighbourFiles.ReadAll | src/main/java/org/retrievable/document_expansion/main/RunExpandedRetrievalWithGivenExpansionDocs.java:67-86 | succeeds exactly when every row's cosine parses; the keys are exactly the rows' original docnos and each maps to its rows' hits in file order |
| NeighbourFiles.ReadCapped | src/main/java/org/retrievable/document_expansion/main/RunExpandedRMRetrievalWithGivenExpansionDocs.java:80-104 | no list exceeds the cap numDocs |
| NeighbourFiles.CappedIsCropped | src/main/java/org/retrievable/document_expansion/main/RunExpandedRMRetrievalWithGivenExpansionDocs.java:86-92 | when every cosine parses, the capped loop gives the same documents as the uncapped one, each with the first numDocs of its hits |
| NeighbourFiles.ZeroCapParsesNothing | src/main/java/org/retrievable/document_expansion/main/RunExpandedRMRetrievalWithGivenExpansionDocs.java:86-97 | a cap of 0 never parses a cosine and gives every named document an empty list |
| NeighbourFiles.ParseClusterLine | src/main/java/org/retrievable/document_expansion/main/RunDELM.java:63-71 | a line gives the document id, plus a hit with the expansion document's id and score; a missing field or a bad number throws |
| NeighbourFiles.ParseClusterLines | src/main/java/org/retrievable/document_expansion/main/RunDELM.java:62-75 | every line in order; it fails exactly when some line does |
| NeighbourFiles.ClustersInFileOrder | src/main/java/org/retrievable/document_expansion/main/RunDELM.java:67-74 | each document id's list is its lines' hits in file order |
| NeighbourFiles.ReadClusters | src/main/java/org/retrievable/document_expansion/main/RunDELM.java:62-75 | succeeds exactly when every line parses; the keys are exactly the lines' document ids and each maps to its lines' hits in file order |
| Delm.EnumerationOrderIrrelevant | src/main/java/org/retrievable/document_expansion/main/RunDELM.java:100-101 | the term loop adds c times the vector whatever order the terms are enumerated in |
| Delm.PseudoDocumentWeight | src/main/java/org/retrievable/document_expansion/main/RunDELM.java:98-110 | each term's pseudo-document weight is alpha times its document weight plus (1 - alpha) times its score-weighted neighbourhood weight |
| Delm.FullOriginalWeight | src/main/java/org/retrievable/document_expansion/main/RunDELM.java:98-110 | with alpha 1 the neighbours change no weight |
| Delm.DelmExpander | src/main/java/org/retrievable/document_expansion/main/RunDELM.java:84-85 | 20 pseudo-query terms, the cluster lists, and numDocs as maxNumDocs |
| Delm.Rescore | src/main/java/org/retrievable/document_expansion/main/RunDELM.java:112-114 | the vector is replaced by the pseudo-document; the score is that of the changed document; the ids are kept |
| Delm.RescoreAll | src/main/java/org/retrievable/document_expansion/main/RunDELM.java:95-115 | every result is rescored; the expander's configuration and stored documents are kept |
| Delm.ListsStayCropped | src/main/java/org/retrievable/document_expansion/main/RunDELM.java:104 | every stored list is either its original or its crop to maxNumDocs |
| Delm.DocumentsRescoredIndependently | src/main/java/org/retrievable/document_expansion/main/RunDELM.java:95-115 | every document is rescored as if alone, with the first maxNumDocs hits of its own list, despite the in-place crops |
| Sweeps.Ascending | src/main/java/org/retrievable/document_expansion/main/RunExpandedRMRetrievalWithGivenExpansionDocs.java:136 | the values lo, lo + step, … up to hi, (hi - lo)/step + 1 of them, or none when hi < lo |
| Sweeps.Descending | src/main/java/org/retrievable/document_expansion/main/RunExpandedRMRetrievalWithGivenExpansionDocs.java:141 | the values hi, hi - step, … down to lo, (hi - lo)/step + 1 of them |
| Sweeps.FeedbackOrigWeights | src/main/java/org/retrievable/document_expansion/main/RunExpandedRMRetrievalWithGivenExpansionDocs.java:144-145 | eleven strictly rising tenths from 0.0 to 1.0 |
| Sweeps.InterpolationList | src/main/java/org/retrievable/document_expansion/main/RunExpandedRMRetrievalWithGivenExpansionDocs.java:121-122 | the original weight followed by the expansion weights |
| Sweeps.DefaultInterpolationList | src/main/java/org/retrievable/document_expansion/main/RunExpandedRMRetrievalWithGivenExpansionDocs.java:121-122 | without a stored optimum the list is [1.0, 0.0] |
| Sweeps.InPlaceClipsAreFresh | src/main/java/org/retrievable/document_expansion/main/RunExpandedRMRetrievalWithGivenExpansionDocs.java:141-142 | because fbTerms only descends, every in-place clip equals a fresh clip of the relevance model |
| Sweeps.ClipSweepFresh | src/main/java/org/retrievable/document_expansion/main/RunExpandedRMRetrievalWithGivenExpansionDocs.java:141-142 | over any non-increasing size list, each in-place clip equals a fresh one |
| Sweeps.Settings | src/main/java/org/retrievable/document_expansion/main/RunExpandedRetrievalWithGivenExpansionDocs.java:116-127 | |docCounts|·|pairs| settings; every (document count, weight pair) combination occurs, and every setting is drawn from the inputs |
| Sweeps.ExpansionSweep | src/main/java/org/retrievable/document_expansion/main/RunExpandedRetrievalWithGivenExpansionDocs.java:116-121 | 11 settings per document count of the ascending range; each count meets each of the 11 pairs (j/10, (10−j)/10), j = 0..10 |
| Sweeps.SweepSettingsValid | src/main/java/org/retrievable/document_expansion/main/RunExpandedRetrievalWithGivenExpansionDocs.java:116-127 | every setting splits weight 1 between the two scorers and asks for a document count within the configured range |
| Sweeps.PutWeights | src/main/java/org/retrievable/document_expansion/main/RunExpandedRetrievalWithGivenExpansionDocs.java:122-127 | both scorers get the setting's weights |
| Sweeps.ScorersHoldLastSetting | src/main/java/org/retrievable/document_expansion/main/RunExpandedRetrievalWithGivenExpansionDocs.java:107-127 | the scorer map never grows beyond the two scorers and holds the last setting's weights |
| RankChange.OnlyNonrelDocs | analysis/rank_change_one_doc.py:6-14 | as written a docno is kept exactly when it is judged (if asked) and either not relevant or a substring of `keep` |
| RankChange.FilterDistributes | analysis/rank_change_one_doc.py:8-13 | the filter keeps run order: filtering a concatenation concatenates the filtered parts |
| RankChange.TargetKept | analysis/rank_change_one_doc.py:10-13 | the target itself always passes the filter when judged |
| RankChange.Rank | analysis/rank_change_one_doc.py:33-36 | one plus the first position of the document, -1 when it is absent |
| RankChange.RankAsWritten | analysis/rank_change_one_doc.py:33-41 | -1 exactly when the document is missing from the run or unjudged; otherwise a position within the filtered run, between 1 and the run's length |
| RankChange.SentinelOrdering | analysis/rank_change_one_doc.py:43 | a document missing from the baseline is flagged whenever the test run has it; one missing from the test run never is |
| RankChange.SubstringKeepsRelevantDocument | analysis/rank_change_one_doc.py:34 | with AP1 and AP12 both relevant, AP1 is kept above AP12 and AP12 gets rank 2 |
| RankChange.OnlyNonrelDocsIntended | analysis/rank_change_one_doc.py:6-14 | the corrected filter keeps a docno exactly when it is judged (if asked) and either not relevant or the target |
| RankChange.IntendedRank | analysis/rank_change_one_doc.py:32-41 | under the corrected filter a relevant document's rank is one more than the number of judged non-relevant documents above its first occurrence, -1 when absent |
| RankChange.AgreeWithoutSubstrings | analysis/rank_change_one_doc.py:10 | the two filters agree whenever no other relevant docno occurs inside the target's |
| RankChange.IntendedIgnoresRelevantDocument | analysis/rank_change_one_doc.py:34 | under the corrected filter the same example gives AP12 rank 1 |

## Left out

- Reading files, CSV parsing, `Scanner`, printing to standard error, `System.exit` and writing TREC output: a file is its sequence of lines (or rows), and a missing file is an `Option`. A neighbour-file `Row` always has three columns: the exception the drivers raise on a shorter CSV record (`record.get(2)` in RunExpandedRetrievalWithGivenExpansionDocs.java:73-74, `record.get("relatedDocno")` and `record.get("cosine")` in RunExpandedRMRetrievalWithGivenExpansionDocs.java:96-97) is not modelled.
- The Indri index, collection statistics, `DirichletDocScorer`, `CachedDocScorer`, `DocScorerWithDocumentPrior` and `QueryLikelihoodQueryScorer` are not part of this model. They are parameters (`runQuery`, `weigh`, `score`, scorer functions).
- `FeatureVector.clip`, `normalize` and `interpolate`, and the KL and Jensen–Shannon divergences of Mallet, are parameters. Only the composition property of `clip` that the sweeps need is assumed.
- `SearchHits.rank()` is a parameter; its sorting order is not modelled.
- Guava's `softValues()` eviction is not modelled: a cached entry stays until replaced.
- Floating point: weights and scores are reals. Rounding of `i / 10.0`, `Math.exp` and IEEE sums is not modelled; NaN and infinities are modelled only where the source divides.
- Java `int` overflow in the sweep counters is not modelled. Sweep steps are required positive, because a non-positive step never ends the source's loop.
- InterpolationWeights.Weights: requires n >= 1, because for n <= 0 the source recursion never reaches its base case.
- Scoring.NormalizeScores: the softmax is stated only for distinct hits. With a hit listed twice the source's map divides that hit's entry twice, and this is not specified.
- Features.PairwiseSimilarityOfSet: Kotlin `toSet()` is modelled with structural equality of hits. Hits differ in `ident`, which stands in for the identity-based equality of `SearchHit`.
- Delm: the final `results.rank()` and output writing are not modelled; only the rescoring loop is.
- The driver mains (`RunExpandedRMRetrievalWithGivenExpansionDocs`, `RunExpandedRetrievalWithGivenExpansionDocs`): only their reading loops, sweeps and scorer-weight bookkeeping are modelled. These drivers pass a docno-keyed map where the pre-expanded expander expects internal ids, and call `getVecSize`, which `OptimalParameters` does not define, so their end-to-end behaviour is not modelled.
- `ExpandedRM1Builder`, `RM3Builder` and `InterpolatedDocScorer` are not part of this model.
- UserStudy.QueryTopicTermSimilarity: stemming (`stem = true`) is not modelled.
- Sampling, clarity, entropy, perplexity, query-performance predictors and the other log-based features are not modelled, because they are floating-point formulas over library statistics.
- ExpansionDocScorer's `mu` only reaches the Dirichlet scorer, which is a parameter. The scorer records mu and the cut-off; the expander it holds is the `expand` parameter of Scoring.GetExpansionDocs.
- LanguageModelEstimator.ExpansionLanguageModel: the expansion documents are given, as `scorer.getExpansionDocs` returned them. The scorer's state across terms is not modelled, because each call recomputes the priors from the same documents.
- Vectors released by `setFeatureVector(null)` are re-read from the hit's index on the next read. The source releases the very SearchHit objects that an expander's cache or a pre-expanded map still holds; the model releases only the copy it returns, so cached lists keep their vectors. For hits read from an index both give the same reads (Common.ReleaseRereads); they differ only for a hit whose stored vector differs from its index's, which the model then keeps in the cache.
- IndexBackedSearchHit is not part of this model; its on-demand loading is the `Loader` parameter.
- ExpandedDocuments.ExpansionLanguageModel: the expansion scorer is a field of the `Index` parameter, not built from this document's own expansion list as ExpandedDocument.java:65-67 does. That line passes the older `org.retrievable.document_expansion.DocumentExpander` to `ExpansionDocScorer`, whose constructor takes `expansion.DocumentExpander` (ExpansionDocScorer.java:10, :20), so it does not type-check as written and its intended scorer is left open.
- Subclasses read private fields of `expansion/DocumentExpander.java:17-20` (`maxNumDocs` in PreExpandedDocumentExpander.java:23 and QueryDependentDocumentExpander.java:65, `stopper` in QueryDependentDocumentExpander.java:83), which Java does not allow; the model treats these fields as accessible.
- LanguageModelEstimator.ScoreTerms: a FeatureVector's term iteration order is modelled as the sorted order. Which exception is reported, and which terms a partial model holds, depend on that order.
- UserStudy.TotalProbability: on a failure the contract states only that the exception is some topic term's; the body reports the first failing term in first-occurrence order.
- UserStudy.ProbabilityChange: likewise, on a failure the contract names some term's exception (its expansion exception, or its original one when the expansion score succeeded), not that of the first failing term in the set's iteration order; the body reports the first failing term in first-occurrence order.
- QueryDependentExpander.PseudoQuery: `FeatureVector.applyStopper` is not part of this model; applying a missing stopper is assumed to throw, as reading a missing query does.
- Text.IsSpace: the whitespace set is that of current Unicode (8.0 and later), without U+180E.
- Parsers.ReadTrecOutput: the `!==` reference test is the parameter `fires`, since object identity of strings cannot be computed from their contents.

## Findings

| source | as written | input that shows it | evidently intended | confidence | as-written member | corrected member |
|---|---|---|---|---|---|---|
| src/main/kotlin/org/retrievable/documentExpansion/features/DocumentFeatures.kt:100-102 | `rmRank < origRank \|\| origRank == 0` gives 1 when the RM rank is 0 and the original rank is positive | a document ranked 1 in the original list and absent from the RM list | the trailing comment treats `rmRank == 0` as not improved (-1) | not executed | Features.RmDropOutCountsAsImproved | Features.RmImprovementRankIntendedCases |
| src/main/kotlin/edu/gslis/searchhits/SearchHitsBatchReader.kt:26-39 | queries are compared with `!==` (reference inequality), and the list accumulated for the last query is never stored | the one-line file "q 0 d 0 1" gives `{q: []}` | compare query strings by content and store the last list after the loop, giving `{q: [d]}` | not executed | Parsers.OneLineLosesItsHit | Parsers.OneQueryIntendedResult |
| analysis/rank_change_one_doc.py:34 | `keep=(doc)` is a string, not a tuple, so `docno in keep` tests for a substring | AP1 and AP12 both relevant and judged, run [AP1, AP12], target AP12: rank 2 | `keep=(doc,)`, exempting only the target: rank 1 | not executed | RankChange.SubstringKeepsRelevantDocument | RankChange.IntendedIgnoresRelevantDocument |
