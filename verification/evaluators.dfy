/** Ranking metrics over one query's results (evaluation/evaluators/SetEvaluator.java,
    MAPEvaluator.java, NDCGEvaluator.java).

    The relevance judgments of the query are a `Judgments` value: `isRel`,
    `relLevel`, the count `numRel` and the judged relevant set (`None` for
    the null an unjudged query gets). `SearchHits.rank()` is the parameter
    `rank`, applied in place, so every metric that ranks returns the ranked
    list. `getHit(i)` past the end is assumed to throw, as `List.get` does.
    The discount `Math.log(rank + 1)` is the parameter `discount`, assumed
    positive from rank 1 on. */
module Evaluators {
  import opened Common
  import FeatureUtils

  datatype Judgments = Judgments(
    isRel: string -> bool,
    relLevel: string -> int,
    numRel: int,
    relDocs: Option<set<string>>)

  /** A metric's value and the caller's list after the in-place `rank()`. */
  datatype Evaluated = Evaluated(ranked: seq<Hit>, value: Dbl)

  /** Relevant hits among the first `k`. */
  function CountRelevant(hits: seq<Hit>, k: nat, isRel: string -> bool): (r: nat)
    requires k <= |hits|
    ensures r <= k
  {
    if k == 0 then 0
    else CountRelevant(hits, k - 1, isRel) + (if isRel(hits[k - 1].docno) then 1 else 0)
  }

  /** The counting loop of `precisionAt` and `recallAt`. */
  method CountTop(hits: seq<Hit>, k: int, isRel: string -> bool) returns (r: Result<nat>)
    ensures r.Ok? <==> k <= |hits|
    ensures r.Ok? ==> r.value == if k <= 0 then 0 else CountRelevant(hits, k, isRel)
  {
    var relevant := 0;
    var i := 0;
    while i < k
      invariant 0 <= i <= Max(0, k)
      invariant i <= |hits| ==> relevant == CountRelevant(hits, i, isRel)
      invariant i > |hits| ==> false
    {
      if i >= |hits| {
        return Fail("IndexOutOfBoundsException: fewer than k results");
      }
      relevant := relevant + (if isRel(hits[i].docno) then 1 else 0);
      i := i + 1;
    }
    if k > |hits| {
      return Fail("IndexOutOfBoundsException: fewer than k results");
    }
    return Ok(relevant);
  }

  /** `precisionAt(k, query, results, qrels)`: relevant among the first `k`
      of the ranked list, divided by `k`; a `k` beyond the list throws. */
  method PrecisionAt(k: int, results: seq<Hit>, qrels: Judgments, rank: seq<Hit> -> seq<Hit>)
    returns (r: Result<Evaluated>)
    ensures r.Ok? <==> k <= |rank(results)|
    ensures r.Ok? ==> r.value.ranked == rank(results)
    ensures r.Ok? && 1 <= k ==> r.value.value == Num(CountRelevant(rank(results), k, qrels.isRel) as real / k as real)
    ensures r.Ok? && k == 0 ==> r.value.value == NaN
  {
    var ranked := rank(results);
    var count := CountTop(ranked, k, qrels.isRel);
    if count.Fail? {
      return Fail(count.reason);
    }
    return Ok(Evaluated(ranked, Div(count.value as real, k as real)));
  }

  /** For `1 <= k <= |results|` precision lies in [0, 1]. */
  lemma PrecisionBounded(hits: seq<Hit>, k: nat, isRel: string -> bool)
    requires 1 <= k <= |hits|
    ensures 0.0 <= CountRelevant(hits, k, isRel) as real / k as real <= 1.0
  {
  }

  /** `recallAt(k, query, results, qrels)`: relevant among the first `k`
      divided by the number of judged relevant documents, or 0 when there
      are none. */
  method RecallAt(k: int, results: seq<Hit>, qrels: Judgments, rank: seq<Hit> -> seq<Hit>)
    returns (r: Result<Evaluated>)
    ensures r.Ok? <==> k <= |rank(results)|
    ensures r.Ok? ==> r.value.ranked == rank(results)
    ensures r.Ok? && qrels.numRel == 0 ==> r.value.value == Num(0.0)
    ensures r.Ok? && qrels.numRel != 0 ==>
      r.value.value == Num((if k <= 0 then 0 else CountRelevant(rank(results), k, qrels.isRel)) as real / qrels.numRel as real)
  {
    var ranked := rank(results);
    var count := CountTop(ranked, k, qrels.isRel);
    if count.Fail? {
      return Fail(count.reason);
    }
    if qrels.numRel == 0 {
      return Ok(Evaluated(ranked, Num(0.0)));
    }
    return Ok(Evaluated(ranked, Div(count.value as real, qrels.numRel as real)));
  }

  /** `rank()` reorders but keeps the number of results. */
  ghost predicate KeepsLength(rank: seq<Hit> -> seq<Hit>) {
    forall s :: |rank(s)| == |s|
  }

  /** `precision` and `recall` are their `@k` forms at the list's size, so
      with a length-keeping `rank` they never throw. */
  method Precision(results: seq<Hit>, qrels: Judgments, rank: seq<Hit> -> seq<Hit>) returns (r: Result<Evaluated>)
    requires KeepsLength(rank)
    ensures r.Ok? && r.value.ranked == rank(results)
    ensures |results| >= 1 ==> r.value.value == Num(CountRelevant(rank(results), |results|, qrels.isRel) as real / |results| as real)
    ensures |results| == 0 ==> r.value.value == NaN
  {
    assert |rank(results)| == |results|;
    r := PrecisionAt(|results|, results, qrels, rank);
  }

  method Recall(results: seq<Hit>, qrels: Judgments, rank: seq<Hit> -> seq<Hit>) returns (r: Result<Evaluated>)
    requires KeepsLength(rank)
    ensures r.Ok? && r.value.ranked == rank(results)
    ensures qrels.numRel == 0 ==> r.value.value == Num(0.0)
    ensures qrels.numRel != 0 ==>
      r.value.value == Num(CountRelevant(rank(results), |results|, qrels.isRel) as real / qrels.numRel as real)
  {
    assert |rank(results)| == |results|;
    r := RecallAt(|results|, results, qrels, rank);
  }

  /** `jaccardSimilarity(a, b)`: |a ∩ b| / |a ∪ b| on copies. */
  function Jaccard<T>(a: set<T>, b: set<T>): (r: Dbl)
    ensures a + b == {} ==> r == NaN
    ensures a + b != {} ==> r == Num(|a * b| as real / |a + b| as real)
  {
    Div(|a * b| as real, |a + b| as real)
  }

  lemma JaccardSymmetric<T>(a: set<T>, b: set<T>)
    ensures Jaccard(a, b) == Jaccard(b, a)
  {
    assert a * b == b * a && a + b == b + a;
  }

  /** 1 for equal non-empty sets. */
  lemma JaccardEqual<T>(a: set<T>)
    requires a != {}
    ensures Jaccard(a, a) == Num(1.0)
  {
    assert a * a == a && a + a == a;
  }

  /** 0 for disjoint sets that are not both empty. */
  lemma JaccardDisjoint<T>(a: set<T>, b: set<T>)
    requires a * b == {} && a + b != {}
    ensures Jaccard(a, b) == Num(0.0)
  {
    assert |a * b| == 0;
  }

  /** Within [0, 1] whenever defined. */
  lemma JaccardBounded<T>(a: set<T>, b: set<T>)
    requires a + b != {}
    ensures Jaccard(a, b).Num? && 0.0 <= Jaccard(a, b).v <= 1.0
  {
    SubsetCard(a * b, a + b);
    var x, y := |a * b| as real, |a + b| as real;
    assert 0.0 <= x <= y && y > 0.0;
    FractionAtMostOne(x, y);
  }

  lemma FractionAtMostOne(x: real, y: real)
    requires 0.0 <= x <= y && y > 0.0
    ensures 0.0 <= x / y <= 1.0
  {
  }

  lemma SubsetCard<T>(x: set<T>, y: set<T>)
    requires x <= y
    ensures |x| <= |y|
  {
    assert y == x + (y - x);
  }

  /** Σ over relevant positions of (relevant so far) / position, over the
      first `n` hits. */
  function APSum(hits: seq<Hit>, n: nat, isRel: string -> bool): real
    requires n <= |hits|
  {
    if n == 0 then 0.0
    else
      var gain := if isRel(hits[n - 1].docno) then CountRelevant(hits, n, isRel) as real / n as real else 0.0;
      APSum(hits, n - 1, isRel) + gain
  }

  /** Replaces NaN by 0, as the end of `averagePrecision` does. */
  function NaNToZero(d: Dbl): (r: Dbl)
    ensures r.NaN? == false
    ensures !d.NaN? ==> r == d
  {
    if d.NaN? then Num(0.0) else d
  }

  /** `averagePrecision(query, results, qrels)`: after ranking, the sum over
      relevant positions of precision there, divided by the number of
      judged relevant documents; a null relevant set is caught and leaves
      the sum undivided; NaN becomes 0. */
  method AveragePrecision(results: seq<Hit>, qrels: Judgments, rank: seq<Hit> -> seq<Hit>) returns (r: Evaluated)
    ensures r.ranked == rank(results)
    ensures var sum := APSum(rank(results), |rank(results)|, qrels.isRel);
      r.value == NaNToZero(if qrels.relDocs.None? then Num(sum) else Div(sum, |qrels.relDocs.value| as real))
  {
    var ranked := rank(results);
    var ap := 0.0;
    var rels := 0;
    var seen := 0;
    while seen < |ranked|
      invariant 0 <= seen <= |ranked|
      invariant rels == CountRelevant(ranked, seen, qrels.isRel)
      invariant ap == APSum(ranked, seen, qrels.isRel)
    {
      seen := seen + 1;
      if qrels.isRel(ranked[seen - 1].docno) {
        rels := rels + 1;
        ap := ap + rels as real / seen as real;
      }
    }
    var divided := if qrels.relDocs.None? then Num(ap) else Div(ap, |qrels.relDocs.value| as real);
    r := Evaluated(ranked, NaNToZero(divided));
  }

  /** No relevant hit gives AP 0. */
  lemma {:induction false} NoRelevantAPZero(hits: seq<Hit>, n: nat, isRel: string -> bool)
    requires n <= |hits|
    requires forall i :: 0 <= i < n ==> !isRel(hits[i].docno)
    ensures APSum(hits, n, isRel) == 0.0 && CountRelevant(hits, n, isRel) == 0
  {
    if n > 0 {
      NoRelevantAPZero(hits, n - 1, isRel);
    }
  }

  /** Each summand is at most 1, so the sum is at most the number of
      relevant hits. */
  lemma {:induction false} APSumBounded(hits: seq<Hit>, n: nat, isRel: string -> bool)
    requires n <= |hits|
    ensures 0.0 <= APSum(hits, n, isRel) <= CountRelevant(hits, n, isRel) as real
  {
    if n > 0 {
      APSumBounded(hits, n - 1, isRel);
      var c := CountRelevant(hits, n, isRel);
      FractionAtMostOne(c as real, n as real);
    }
  }

  predicate DistinctDocnos(hits: seq<Hit>) {
    forall i, j :: 0 <= i < j < |hits| ==> hits[i].docno != hits[j].docno
  }

  function RelevantDocnos(hits: seq<Hit>, n: nat, isRel: string -> bool): set<string>
    requires n <= |hits|
  {
    set i | 0 <= i < n && isRel(hits[i].docno) :: hits[i].docno
  }

  lemma RelevantDocnosStep(hits: seq<Hit>, n: nat, isRel: string -> bool)
    requires 0 < n <= |hits|
    ensures var d := hits[n - 1].docno;
      RelevantDocnos(hits, n, isRel) ==
      RelevantDocnos(hits, n - 1, isRel) + (if isRel(d) then {d} else {})
  {
  }

  /** With distinct docnos the relevant count is the number of distinct
      relevant docnos. */
  lemma {:induction false} CountIsDistinctDocnos(hits: seq<Hit>, n: nat, isRel: string -> bool)
    requires n <= |hits| && DistinctDocnos(hits)
    ensures CountRelevant(hits, n, isRel) == |RelevantDocnos(hits, n, isRel)|
  {
    if n > 0 {
      CountIsDistinctDocnos(hits, n - 1, isRel);
      var before := RelevantDocnos(hits, n - 1, isRel);
      var d := hits[n - 1].docno;
      RelevantDocnosStep(hits, n, isRel);
      if isRel(d) {
        assert d !in before by {
          forall i | 0 <= i < n - 1
            ensures hits[i].docno != d
          {
          }
        }
      }
    }
  }

  /** With distinct hits and `isRel` agreeing with the relevant set, AP lies
      in [0, 1]. */
  lemma APBounded(hits: seq<Hit>, qrels: Judgments)
    requires DistinctDocnos(hits) && qrels.relDocs.Some?
    requires forall d :: qrels.isRel(d) ==> d in qrels.relDocs.value
    ensures var sum := APSum(hits, |hits|, qrels.isRel);
      var ap := NaNToZero(Div(sum, |qrels.relDocs.value| as real));
      ap.Num? && 0.0 <= ap.v <= 1.0
  {
    var n := |hits|;
    var sum := APSum(hits, n, qrels.isRel);
    var m := |qrels.relDocs.value|;
    SumAtMostRelevant(hits, qrels);
    assert 0.0 <= sum <= m as real;
    if m > 0 {
      FractionAtMostOne(sum, m as real);
    }
  }

  lemma SumAtMostRelevant(hits: seq<Hit>, qrels: Judgments)
    requires DistinctDocnos(hits) && qrels.relDocs.Some?
    requires forall d :: qrels.isRel(d) ==> d in qrels.relDocs.value
    ensures 0.0 <= APSum(hits, |hits|, qrels.isRel) <= |qrels.relDocs.value| as real
  {
    var n := |hits|;
    APSumBounded(hits, n, qrels.isRel);
    CountIsDistinctDocnos(hits, n, qrels.isRel);
    SubsetCard(RelevantDocnos(hits, n, qrels.isRel), qrels.relDocs.value);
  }

  /** IEEE sum of per-query values, left to right from 0.0. */
  function SumDbl(xs: seq<Dbl>): Dbl {
    if |xs| == 0 then Num(0.0) else Plus(SumDbl(xs[..|xs| - 1]), xs[|xs| - 1])
  }

  /** `meanAveragePrecision` and `averageNDCG`: the per-query values added
      in query order and divided by the number of queries. */
  function Mean(values: seq<Dbl>): (r: Dbl)
    ensures |values| == 0 ==> r == NaN
  {
    DivBy(SumDbl(values), |values| as real)
  }

  /** When every per-query value is a number in [0, 1], so is their mean. */
  lemma MeanBounded(values: seq<Dbl>)
    requires |values| > 0
    requires forall i :: 0 <= i < |values| ==> values[i].Num? && 0.0 <= values[i].v <= 1.0
    ensures Mean(values).Num? && 0.0 <= Mean(values).v <= 1.0
  {
    SumDblBounded(values);
  }

  lemma {:induction false} SumDblBounded(values: seq<Dbl>)
    requires forall i :: 0 <= i < |values| ==> values[i].Num? && 0.0 <= values[i].v <= 1.0
    ensures SumDbl(values).Num? && 0.0 <= SumDbl(values).v <= |values| as real
    decreases |values|
  {
    if |values| > 0 {
      SumDblBounded(values[..|values| - 1]);
    }
  }

  /** `meanAveragePrecision(batch, qrels)` over a batch given as each
      query's results with its judgments. */
  method MeanAveragePrecision(batch: seq<(seq<Hit>, Judgments)>, rank: seq<Hit> -> seq<Hit>) returns (r: Dbl)
    ensures |batch| == 0 ==> r == NaN
    ensures |batch| > 0 ==> exists aps: seq<Dbl> :: |aps| == |batch| && r == Mean(aps) && forall i :: 0 <= i < |batch| ==> aps[i] == NaNToZero(APValue(batch[i].0, batch[i].1, rank))
  {
    var aps: seq<Dbl> := [];
    var i := 0;
    while i < |batch|
      invariant 0 <= i <= |batch| && |aps| == i
      invariant forall j :: 0 <= j < i ==> aps[j] == NaNToZero(APValue(batch[j].0, batch[j].1, rank))
    {
      var e := AveragePrecision(batch[i].0, batch[i].1, rank);
      aps := aps + [e.value];
      i := i + 1;
    }
    r := Mean(aps);
  }

  /** The value `averagePrecision` divides before the NaN test. */
  function APValue(results: seq<Hit>, qrels: Judgments, rank: seq<Hit> -> seq<Hit>): Dbl {
    var sum := APSum(rank(results), |rank(results)|, qrels.isRel);
    if qrels.relDocs.None? then Num(sum) else Div(sum, |qrels.relDocs.value| as real)
  }

  /** `2^n` for a natural `n`. */
  function PowNat(n: nat): (r: real)
    ensures r >= 1.0
    ensures n >= 1 ==> r >= 2.0
  {
    if n == 0 then 1.0 else 2.0 * PowNat(n - 1)
  }

  /** `Math.pow(2, rel)`. */
  function Pow2(rel: int): (r: real)
    ensures r > 0.0
  {
    if rel >= 0 then PowNat(rel) else 1.0 / PowNat(-rel)
  }

  /** The gain `2^rel - 1` of `dcgAtRank`. */
  function Gain(rel: int): (r: real)
    ensures rel == 0 ==> r == 0.0
    ensures rel > 0 ==> r >= 1.0
    ensures rel < 0 ==> r < 0.0
  {
    Pow2(rel) - 1.0
  }

  ghost predicate PositiveDiscount(discount: int -> real) {
    forall i :: i >= 1 ==> discount(i) > 0.0
  }

  /** Σ over ranks 1..n of gain / discount(rank). */
  function DCGSum(hits: seq<Hit>, n: nat, relLevel: string -> int, discount: int -> real): real
    requires n <= |hits| && PositiveDiscount(discount)
  {
    if n == 0 then 0.0
    else DCGSum(hits, n - 1, relLevel, discount) + Gain(relLevel(hits[n - 1].docno)) / discount(n)
  }

  /** `dcg(rankCutoff, query, results, qrels)`: the results as given (no
      re-ranking); a cut-off beyond the list throws. */
  function DCG(k: int, results: seq<Hit>, qrels: Judgments, discount: int -> real): (r: Result<real>)
    requires PositiveDiscount(discount)
    ensures r.Ok? <==> k <= |results|
    ensures r.Ok? && k <= 0 ==> r.value == 0.0
  {
    if k > |results| then Fail("IndexOutOfBoundsException: fewer than k results")
    else if k <= 0 then Ok(0.0)
    else Ok(DCGSum(results, k, qrels.relLevel, discount))
  }

  /** Unjudged levels of 0 contribute nothing; non-negative levels give a
      non-negative DCG. */
  lemma {:induction false} DCGNonNegative(hits: seq<Hit>, n: nat, relLevel: string -> int, discount: int -> real)
    requires n <= |hits| && PositiveDiscount(discount)
    requires forall i :: 0 <= i < n ==> relLevel(hits[i].docno) >= 0
    ensures DCGSum(hits, n, relLevel, discount) >= 0.0
  {
    if n > 0 {
      DCGNonNegative(hits, n - 1, relLevel, discount);
      assert discount(n) > 0.0;
    }
  }

  /** The ideal list before ranking: one hit per relevant document, in set
      iteration order (taken to be sorted order), scored by its level. */
  function IdealHits(relDocs: set<string>, relLevel: string -> int): (r: seq<Hit>)
    ensures |r| == |relDocs|
    ensures forall i :: 0 <= i < |r| ==> r[i].docno in relDocs && r[i].score == relLevel(r[i].docno) as real
    ensures forall d :: d in relDocs ==> exists i :: 0 <= i < |r| && r[i].docno == d
  {
    var docs := FeatureUtils.SortedTerms(relDocs);
    var r := seq(|docs|, i requires 0 <= i < |docs| => Hit(i, docs[i], 0, relLevel(docs[i]) as real, None));
    assert forall d :: d in relDocs ==> r[Position(docs, d)].docno == d;
    r
  }

  function Position(docs: seq<string>, d: string): (i: nat)
    requires d in docs
    ensures i < |docs| && docs[i] == d
  {
    if docs[0] == d then 0 else 1 + Position(docs[1..], d)
  }

  /** `idcg(rankCutoff, query, qrels)`: the DCG of the ranked ideal list; a
      null relevant set uses an empty list, which throws for a positive
      cut-off as does any cut-off beyond the number of relevant documents. */
  function IDCG(k: int, qrels: Judgments, rank: seq<Hit> -> seq<Hit>, discount: int -> real): (r: Result<real>)
    requires PositiveDiscount(discount)
    ensures qrels.relDocs.None? ==> r == DCG(k, [], qrels, discount)
    ensures qrels.relDocs.Some? ==> r == DCG(k, rank(IdealHits(qrels.relDocs.value, qrels.relLevel)), qrels, discount)
  {
    if qrels.relDocs.None? then DCG(k, [], qrels, discount)
    else DCG(k, rank(IdealHits(qrels.relDocs.value, qrels.relLevel)), qrels, discount)
  }

  /** `ndcg(rankCutoff, query, results, qrels)`: DCG over IDCG, 0 when the
      IDCG is 0. */
  function NDCG(k: int, results: seq<Hit>, qrels: Judgments, rank: seq<Hit> -> seq<Hit>, discount: int -> real)
    : (r: Result<Dbl>)
    requires PositiveDiscount(discount)
    ensures r.Ok? <==> DCG(k, results, qrels, discount).Ok? && IDCG(k, qrels, rank, discount).Ok?
    ensures r.Ok? && IDCG(k, qrels, rank, discount).value == 0.0 ==> r.value == Num(0.0)
    ensures r.Ok? && IDCG(k, qrels, rank, discount).value != 0.0 ==>
      r.value == Num(DCG(k, results, qrels, discount).value / IDCG(k, qrels, rank, discount).value)
  {
    match DCG(k, results, qrels, discount)
    case Fail(e) => Fail(e)
    case Ok(dcg) =>
      match IDCG(k, qrels, rank, discount)
      case Fail(e) => Fail(e)
      case Ok(idcg) => if idcg == 0.0 then Ok(Num(0.0)) else Ok(Div(dcg, idcg))
  }

  /** The ranked ideal list scores nDCG 1 whenever its IDCG is non-zero. */
  lemma IdealScoresOne(k: int, qrels: Judgments, rank: seq<Hit> -> seq<Hit>, discount: int -> real)
    requires PositiveDiscount(discount) && qrels.relDocs.Some?
    requires IDCG(k, qrels, rank, discount).Ok? && IDCG(k, qrels, rank, discount).value != 0.0
    ensures NDCG(k, rank(IdealHits(qrels.relDocs.value, qrels.relLevel)), qrels, rank, discount) == Ok(Num(1.0))
  {
    var idcg := IDCG(k, qrels, rank, discount).value;
    assert DCG(k, rank(IdealHits(qrels.relDocs.value, qrels.relLevel)), qrels, discount) == Ok(idcg);
    SelfQuotient(idcg);
  }

  lemma SelfQuotient(x: real)
    requires x != 0.0
    ensures Div(x, x) == Num(1.0)
  {
  }

  /** A cut-off of at least 1 with no judged relevant set throws rather than
      scoring 0. */
  lemma UnjudgedQueryThrows(k: int, results: seq<Hit>, qrels: Judgments, rank: seq<Hit> -> seq<Hit>, discount: int -> real)
    requires PositiveDiscount(discount) && qrels.relDocs.None? && k >= 1
    ensures NDCG(k, results, qrels, rank, discount).Fail?
  {
  }

  /** `averageNDCG(rankCutoff, batch, qrels)`: the mean of the per-query
      nDCG values; the first failing query's exception propagates. */
  function AverageNDCG(k: int, batch: seq<(seq<Hit>, Judgments)>, rank: seq<Hit> -> seq<Hit>, discount: int -> real)
    : (r: Result<Dbl>)
    requires PositiveDiscount(discount)
    ensures r.Ok? <==> forall i :: 0 <= i < |batch| ==> NDCG(k, batch[i].0, batch[i].1, rank, discount).Ok?
    ensures r.Ok? ==> r.value == Mean(NDCGs(k, batch, rank, discount))
  {
    if forall i :: 0 <= i < |batch| ==> NDCG(k, batch[i].0, batch[i].1, rank, discount).Ok? then
      Ok(Mean(NDCGs(k, batch, rank, discount)))
    else
      Fail("exception in ndcg")
  }

  function NDCGs(k: int, batch: seq<(seq<Hit>, Judgments)>, rank: seq<Hit> -> seq<Hit>, discount: int -> real)
    : (r: seq<Dbl>)
    requires PositiveDiscount(discount)
    requires forall i :: 0 <= i < |batch| ==> NDCG(k, batch[i].0, batch[i].1, rank, discount).Ok?
    ensures |r| == |batch|
  {
    seq(|batch|, i requires 0 <= i < |batch| => NDCG(k, batch[i].0, batch[i].1, rank, discount).value)
  }
}
