/** Per-document features: pseudo average precision, rank and rank change,
    and similarity within a set of documents
    (main/ComputeExpansionFeatures2.kt, features/DocumentFeatures.kt,
    features/PairwiseDocumentFeatures.kt, main/ComputePostExpansionFeatures.kt).

    The similarity function is a parameter over the hits' vectors as
    `Common.VectorOf` reads them (`None` for a hit with no vector, passed
    on as the null the source would pass). */
module Features {
  import opened Common
  import Evaluators

  /** Docnos as hits, so that the evaluator's AP sum applies. */
  function AsHits(results: seq<string>): (r: seq<Hit>)
    ensures |r| == |results|
    ensures forall i :: 0 <= i < |r| ==> r[i].docno == results[i]
  {
    seq(|results|, i requires 0 <= i < |results| => Hit(i, results[i], 0, 0.0, None))
  }

  /** Membership in the relevant set, as a relevance test. */
  function Member(relDocs: set<string>): string -> bool {
    d => d in relDocs
  }

  /** Pseudo average precision: 0 for an empty relevant set; otherwise the
      sum, over positions holding a relevant docno, of precision there,
      divided by the number of relevant docnos. */
  function PseudoAP(results: seq<string>, relDocs: set<string>): (r: real)
    ensures relDocs == {} ==> r == 0.0
  {
    if relDocs == {} then 0.0
    else Evaluators.APSum(AsHits(results), |results|, Member(relDocs)) / |relDocs| as real
  }

  /** `pseudoAveragePrecision(results, relDocs)`: one pass counting the
      results seen and the relevant ones among them, adding the precision at
      each relevant result. The division by a positive size never gives the
      NaN the source then replaces by 0. */
  method PseudoAveragePrecision(results: seq<string>, relDocs: set<string>) returns (r: real)
    ensures r == PseudoAP(results, relDocs)
    ensures relDocs == {} ==> r == 0.0
  {
    if relDocs == {} {
      return 0.0;
    }
    var hits := AsHits(results);
    var ap := 0.0;
    var rels := 0;
    var seen := 0;
    while seen < |results|
      invariant 0 <= seen <= |results|
      invariant rels == Evaluators.CountRelevant(hits, seen, Member(relDocs))
      invariant ap == Evaluators.APSum(hits, seen, Member(relDocs))
    {
      seen := seen + 1;
      if results[seen - 1] in relDocs {
        rels := rels + 1;
        ap := ap + rels as real / seen as real;
      }
    }
    r := ap / |relDocs| as real;
  }

  predicate Distinct(results: seq<string>) {
    forall i, j :: 0 <= i < j < |results| ==> results[i] != results[j]
  }

  /** No relevant result gives 0. */
  lemma PseudoAPNoRelevant(results: seq<string>, relDocs: set<string>)
    requires forall i :: 0 <= i < |results| ==> results[i] !in relDocs
    ensures PseudoAP(results, relDocs) == 0.0
  {
    Evaluators.NoRelevantAPZero(AsHits(results), |results|, Member(relDocs));
  }

  /** With distinct results the value lies in [0, 1]. */
  lemma PseudoAPBounded(results: seq<string>, relDocs: set<string>)
    requires Distinct(results)
    ensures 0.0 <= PseudoAP(results, relDocs) <= 1.0
  {
    if relDocs != {} {
      var hits := AsHits(results);
      var qrels := Evaluators.Judgments(Member(relDocs), _ => 0, |relDocs|, Some(relDocs));
      Evaluators.SumAtMostRelevant(hits, qrels);
      Evaluators.FractionAtMostOne(Evaluators.APSum(hits, |hits|, qrels.isRel), |relDocs| as real);
    }
  }

  /** Placing exactly the relevant docnos first, without repeats, scores 1. */
  lemma PseudoAPPerfect(results: seq<string>, relDocs: set<string>)
    requires Distinct(results) && relDocs != {}
    requires |relDocs| <= |results|
    requires forall d :: d in relDocs <==> d in results[..|relDocs|]
    ensures PseudoAP(results, relDocs) == 1.0
  {
    PerfectLayout(results, relDocs);
    PerfectSum(AsHits(results), Member(relDocs), |relDocs|);
    UnitFraction(|relDocs|);
  }

  /** A layout of m relevant hits followed by non-relevant ones sums to m. */
  lemma PerfectSum(hits: seq<Hit>, isRel: string -> bool, m: nat)
    requires m <= |hits|
    requires forall i :: 0 <= i < m ==> isRel(hits[i].docno)
    requires forall i :: m <= i < |hits| ==> !isRel(hits[i].docno)
    ensures Evaluators.APSum(hits, |hits|, isRel) == m as real
  {
    PerfectPrefix(hits, isRel, m);
    PerfectSuffix(hits, isRel, m, |hits|);
  }

  lemma UnitFraction(m: nat)
    requires m > 0
    ensures m as real / m as real == 1.0
  {
  }

  lemma PerfectLayout(results: seq<string>, relDocs: set<string>)
    requires Distinct(results) && |relDocs| <= |results|
    requires forall d :: d in relDocs <==> d in results[..|relDocs|]
    ensures forall i :: 0 <= i < |relDocs| ==> Member(relDocs)(AsHits(results)[i].docno)
    ensures forall i :: |relDocs| <= i < |results| ==> !Member(relDocs)(AsHits(results)[i].docno)
  {
    var m := |relDocs|;
    forall i | 0 <= i < m
      ensures results[i] in relDocs
    {
      assert results[..m][i] == results[i];
    }
    forall i | m <= i < |results|
      ensures results[i] !in relDocs
    {
      forall j | 0 <= j < m
        ensures results[..m][j] != results[i]
      {
        assert results[..m][j] == results[j];
      }
    }
  }

  /** Over a prefix of relevant results each position adds exactly 1. */
  lemma {:induction false} PerfectPrefix(hits: seq<Hit>, isRel: string -> bool, n: nat)
    requires n <= |hits|
    requires forall i :: 0 <= i < n ==> isRel(hits[i].docno)
    ensures Evaluators.APSum(hits, n, isRel) == n as real
    ensures Evaluators.CountRelevant(hits, n, isRel) == n
  {
    if n > 0 {
      PerfectPrefix(hits, isRel, n - 1);
      assert isRel(hits[n - 1].docno);
      assert Evaluators.CountRelevant(hits, n, isRel) == n;
      UnitFraction(n);
    }
  }

  /** Past the relevant prefix nothing is relevant, so the sum stays put. */
  lemma {:induction false} PerfectSuffix(hits: seq<Hit>, isRel: string -> bool, m: nat, n: nat)
    requires m <= n <= |hits|
    requires forall i :: m <= i < |hits| ==> !isRel(hits[i].docno)
    requires Evaluators.APSum(hits, m, isRel) == m as real
    ensures Evaluators.APSum(hits, n, isRel) == m as real
  {
    if n > m {
      PerfectSuffix(hits, isRel, m, n - 1);
    }
  }

  /** Position of the first hit with docno `docno`, or -1. */
  function IndexOf(results: seq<Hit>, docno: string): (r: int)
    ensures -1 <= r < |results|
    ensures r >= 0 ==> results[r].docno == docno
    ensures r >= 0 ==> forall j :: 0 <= j < r ==> results[j].docno != docno
    ensures r == -1 <==> forall j :: 0 <= j < |results| ==> results[j].docno != docno
  {
    if |results| == 0 then -1
    else if results[0].docno == docno then 0
    else
      var rest := IndexOf(results[1..], docno);
      if rest == -1 then -1 else rest + 1
  }

  /** `documentRank(document, results)`: one plus the index of the first
      hit with the same docno, or 0 when there is none. */
  function DocumentRank(document: Hit, results: seq<Hit>): (r: int)
    ensures 0 <= r <= |results|
    ensures r > 0 ==> results[r - 1].docno == document.docno
    ensures r > 0 ==> forall j :: 0 <= j < r - 1 ==> results[j].docno != document.docno
    ensures r == 0 <==> forall j :: 0 <= j < |results| ==> results[j].docno != document.docno
  {
    IndexOf(results, document.docno) + 1
  }

  /** `rmImprovementRank(document, originalResults, rmResults)` as written:
      equal ranks give -1; a smaller RM rank, or no original rank, gives 1;
      anything else -1. A document missing from the RM list (rank 0) but
      present in the original list therefore counts as improved. */
  function RmImprovementRank(document: Hit, originalResults: seq<Hit>, rmResults: seq<Hit>): (r: int)
    ensures r == 1 || r == -1
    ensures r == 1 <==>
      (DocumentRank(document, rmResults) != DocumentRank(document, originalResults) &&
       (DocumentRank(document, rmResults) < DocumentRank(document, originalResults) || DocumentRank(document, originalResults) == 0))
  {
    var rmRank := DocumentRank(document, rmResults);
    var origRank := DocumentRank(document, originalResults);
    if rmRank == origRank then -1
    else if rmRank < origRank || origRank == 0 then 1
    else -1
  }

  /** 1 exactly when the ranks differ and the RM rank is smaller or the
      original rank is missing. */
  lemma RmImprovementRankCases(document: Hit, originalResults: seq<Hit>, rmResults: seq<Hit>)
    ensures var rmRank := DocumentRank(document, rmResults);
      var origRank := DocumentRank(document, originalResults);
      RmImprovementRank(document, originalResults, rmResults) == 1 <==>
        rmRank != origRank && (rmRank < origRank || origRank == 0)
  {
  }

  /** The discrepancy with the comment of the final branch: a document that
      drops out of the RM list is reported as improved. */
  lemma RmDropOutCountsAsImproved()
    ensures var d := Hit(0, "d", 0, 0.0, None);
      var other := Hit(1, "o", 0, 0.0, None);
      DocumentRank(d, [other]) == 0 && DocumentRank(d, [d]) == 1 &&
      RmImprovementRank(d, [d], [other]) == 1
  {
    var d := Hit(0, "d", 0, 0.0, None);
    var other := Hit(1, "o", 0, 0.0, None);
    assert [other][0].docno != d.docno;
  }

  /** The evidently intended rank change: a document missing from the RM
      list has not improved. */
  function RmImprovementRankIntended(document: Hit, originalResults: seq<Hit>, rmResults: seq<Hit>): (r: int)
    ensures r == 1 || r == -1
    ensures r == 1 <==>
      (DocumentRank(document, rmResults) > 0 &&
       (DocumentRank(document, originalResults) == 0 || DocumentRank(document, rmResults) < DocumentRank(document, originalResults)))
  {
    var rmRank := DocumentRank(document, rmResults);
    var origRank := DocumentRank(document, originalResults);
    if rmRank == origRank || rmRank == 0 then -1
    else if rmRank < origRank || origRank == 0 then 1
    else -1
  }

  /** 1 exactly when the document is in the RM list and either was not in
      the original list or ranks higher (smaller) under the RM. */
  lemma RmImprovementRankIntendedCases(document: Hit, originalResults: seq<Hit>, rmResults: seq<Hit>)
    ensures var rmRank := DocumentRank(document, rmResults);
      var origRank := DocumentRank(document, originalResults);
      RmImprovementRankIntended(document, originalResults, rmResults) == 1 <==>
        rmRank > 0 && (origRank == 0 || rmRank < origRank)
    ensures DocumentRank(document, rmResults) > 0 ==>
      RmImprovementRankIntended(document, originalResults, rmResults) == RmImprovementRank(document, originalResults, rmResults)
  {
  }

  /** Σ over `j < n`, `j != i`, of `sim(u[i], u[j])`. */
  function RowSum(u: seq<Hit>, i: nat, n: nat, sim: (Option<TermVector>, Option<TermVector>) -> real, load: Loader): real
    requires i < |u| && n <= |u|
  {
    if n == 0 then 0.0
    else RowSum(u, i, n - 1, sim, load) + (if n - 1 == i then 0.0 else sim(VectorOf(u[i], load), VectorOf(u[n - 1], load)))
  }

  /** Σ over rows `i < n` of `RowSum(u, i, |u|)`. */
  function OrderedPairSum(u: seq<Hit>, n: nat, sim: (Option<TermVector>, Option<TermVector>) -> real, load: Loader): real
    requires n <= |u|
  {
    if n == 0 then 0.0 else OrderedPairSum(u, n - 1, sim, load) + RowSum(u, n - 1, |u|, sim, load)
  }

  /** `pairwiseSimilarity(documents, similarityFunction)` of
      PairwiseDocumentFeatures: every ordered pair of distinct documents of
      the deduplicated set, `m (m - 1)` scores for `m` documents, averaged;
      fewer than two documents average an empty list. */
  function PairwiseSimilarityOfSet(documents: seq<Hit>, sim: (Option<TermVector>, Option<TermVector>) -> real, load: Loader)
    : (r: Dbl)
    ensures var m := |Dedup(documents)|;
      r == Div(OrderedPairSum(Dedup(documents), m, sim, load), (m * (m - 1)) as real)
    ensures |Dedup(documents)| < 2 ==> r == NaN
  {
    var u := Dedup(documents);
    var m := |u|;
    assert m < 2 ==> OrderedPairSum(u, m, sim, load) == 0.0 by {
      if m < 2 {
        EmptyPairSum(u, m, sim, load);
      }
    }
    Div(OrderedPairSum(u, m, sim, load), (m * (m - 1)) as real)
  }

  lemma EmptyPairSum(u: seq<Hit>, n: nat, sim: (Option<TermVector>, Option<TermVector>) -> real, load: Loader)
    requires n <= |u| < 2
    ensures OrderedPairSum(u, n, sim, load) == 0.0
  {
    if n == 1 {
      assert RowSum(u, 0, 0, sim, load) == 0.0;
    }
  }

  /** Repeating a document already present changes nothing: documents are
      deduplicated first. */
  lemma PairwiseIgnoresRepeats(documents: seq<Hit>, h: Hit, sim: (Option<TermVector>, Option<TermVector>) -> real, load: Loader)
    requires h in documents
    ensures PairwiseSimilarityOfSet(documents + [h], sim, load) == PairwiseSimilarityOfSet(documents, sim, load)
  {
    assert (documents + [h])[..|documents|] == documents;
  }

  /** Σ over `i < j < n` of `sim(docs[i], docs[j])`, with their count. */
  function UpperPairSum(docs: seq<Hit>, n: nat, sim: (Option<TermVector>, Option<TermVector>) -> real, load: Loader): real
    requires n <= |docs|
  {
    if n == 0 then 0.0 else UpperPairSum(docs, n - 1, sim, load) + ColumnSum(docs, n - 1, n - 1, sim, load)
  }

  /** Σ over `i < k` of `sim(docs[i], docs[j])`. */
  function ColumnSum(docs: seq<Hit>, j: nat, k: nat, sim: (Option<TermVector>, Option<TermVector>) -> real, load: Loader): real
    requires j < |docs| && k <= j
  {
    if k == 0 then 0.0 else ColumnSum(docs, j, k - 1, sim, load) + sim(VectorOf(docs[k - 1], load), VectorOf(docs[j], load))
  }

  /** `pairwiseSimilarity(documents, similarityFunction)` of
      ComputePostExpansionFeatures: each position pair `i < j` once,
      repeats included, summed and divided by the number of pairs. */
  method PairwiseSimilarity(docs: seq<Hit>, sim: (Option<TermVector>, Option<TermVector>) -> real, load: Loader)
    returns (r: Dbl, count: nat)
    ensures count == |docs| * (|docs| - 1) / 2
    ensures r == Div(UpperPairSum(docs, |docs|, sim, load), count as real)
    ensures |docs| < 2 ==> r == NaN
  {
    var sum := 0.0;
    count := 0;
    var j := 0;
    while j < |docs|
      invariant 0 <= j <= |docs|
      invariant sum == UpperPairSum(docs, j, sim, load)
      invariant count == j * (j - 1) / 2
    {
      var i := 0;
      var column := 0.0;
      while i < j
        invariant 0 <= i <= j
        invariant column == ColumnSum(docs, j, i, sim, load)
      {
        column := column + sim(VectorOf(docs[i], load), VectorOf(docs[j], load));
        i := i + 1;
      }
      sum := sum + column;
      count := count + j;
      j := j + 1;
    }
    r := Div(sum, count as real);
  }

  /** Every term weight of the documents other than (by identity) `d`,
      accumulated with `addTerm`; one with no vector to read throws. */
  function OthersVector(docs: seq<Hit>, d: Hit, load: Loader): (r: Result<TermVector>)
    ensures r.Ok? <==> forall i :: 0 <= i < |docs| && docs[i].ident != d.ident ==> VectorOf(docs[i], load).Some?
    decreases |docs|
  {
    if |docs| == 0 then Ok(map[])
    else
      var last := docs[|docs| - 1];
      match OthersVector(docs[..|docs| - 1], d, load)
      case Fail(e) => Fail(e)
      case Ok(v) =>
        if last.ident == d.ident then Ok(v)
        else if VectorOf(last, load).None? then Fail("NullPointerException: document has no vector")
        else Ok(AddVectors(v, VectorOf(last, load).value))
  }

  /** Σ over the other documents of their weight for `t`. */
  function OthersWeight(docs: seq<Hit>, d: Hit, t: Term, load: Loader): real
    requires forall i :: 0 <= i < |docs| && docs[i].ident != d.ident ==> VectorOf(docs[i], load).Some?
    decreases |docs|
  {
    if |docs| == 0 then 0.0
    else
      var last := docs[|docs| - 1];
      OthersWeight(docs[..|docs| - 1], d, t, load) + (if last.ident == d.ident then 0.0 else Weight(VectorOf(last, load).value, t))
  }

  /** The "others" vector holds, for each term, the sum of the other
      documents' weights. */
  lemma {:induction false} OthersVectorWeights(docs: seq<Hit>, d: Hit, t: Term, load: Loader)
    requires OthersVector(docs, d, load).Ok?
    ensures Weight(OthersVector(docs, d, load).value, t) == OthersWeight(docs, d, t, load)
    decreases |docs|
  {
    if |docs| > 0 {
      OthersVectorWeights(docs[..|docs| - 1], d, t, load);
      var last := docs[|docs| - 1];
      if last.ident != d.ident {
        AddVectorsWeight(OthersVector(docs[..|docs| - 1], d, load).value, VectorOf(last, load).value, t);
      }
    }
  }

  /** `averageGroupSimilarity(documents, similarityFunction)`: the `return`
      inside the `map` lambda leaves the whole function on the first
      document, so a non-empty list gives the similarity of its first
      document to all the others and the averaging is never reached; an
      empty list averages nothing, 0/0. */
  function AverageGroupSimilarity(docs: seq<Hit>, sim: (Option<TermVector>, Option<TermVector>) -> real, load: Loader)
    : (r: Result<Dbl>)
    ensures |docs| == 0 ==> r == Ok(NaN)
    ensures |docs| > 0 ==> (r.Ok? <==> OthersVector(docs, docs[0], load).Ok?)
    ensures |docs| > 0 && r.Ok? ==> r.value == Num(sim(VectorOf(docs[0], load), Some(OthersVector(docs, docs[0], load).value)))
  {
    if |docs| == 0 then Ok(Div(0.0, 0.0))
    else
      match OthersVector(docs, docs[0], load)
      case Fail(e) => Fail(e)
      case Ok(others) => Ok(Num(sim(VectorOf(docs[0], load), Some(others))))
  }

  /** Only the first document's similarity matters: documents after it
      affect the result only through the "others" vector. */
  lemma AverageGroupUsesFirstOnly(docs: seq<Hit>, sim: (Option<TermVector>, Option<TermVector>) -> real, load: Loader, t: Term)
    requires |docs| > 0 && AverageGroupSimilarity(docs, sim, load).Ok?
    ensures OthersVector(docs, docs[0], load).Ok?
    ensures Weight(OthersVector(docs, docs[0], load).value, t) == OthersWeight(docs, docs[0], t, load)
  {
    OthersVectorWeights(docs, docs[0], t, load);
  }
}
