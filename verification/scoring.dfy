/** Expansion scoring: a term's score for a document is the sum, over the
    document's expansion documents, of their prior-weighted scores, the
    prior being a softmax of the expansion documents' retrieval scores
    (scoring/ExpansionDocScorer.java, scoring/DocScorerWithNormalizedScorePrior.java).

    `exp` is `Math.exp`, assumed positive and strictly increasing.
    `weigh(term, hit, prior)` is the prior-wrapped Dirichlet score of the
    library's DocScorerWithDocumentPrior, whose source is not part of this
    model. The document expander behind the scorer is its `expandDocument`
    as a function of document and cut-off; how the expander's own state
    evolves is modelled in DocumentExpander. */
module Scoring {
  import opened Common

  ghost predicate IsExp(exp: real -> real) {
    && (forall x :: exp(x) > 0.0)
    && (forall x, y :: x < y ==> exp(x) < exp(y))
  }

  /** No two hits are the same object. */
  predicate DistinctHits(hits: seq<Hit>) {
    forall i, j :: 0 <= i < j < |hits| ==> hits[i].ident != hits[j].ident
  }

  function Idents(hits: seq<Hit>): set<nat> {
    set i | 0 <= i < |hits| :: hits[i].ident
  }

  /** `exp(score - k)` for each hit, `k` being hit 0's score. */
  function Shifted(hits: seq<Hit>, exp: real -> real): (r: seq<real>)
    requires |hits| > 0
    ensures |r| == |hits|
  {
    seq(|hits|, i requires 0 <= i < |hits| => exp(hits[i].score - hits[0].score))
  }

  /** The softmax prior the source means to give hit `i`. */
  ghost function Softmax(hits: seq<Hit>, exp: real -> real, i: int): real
    requires IsExp(exp) && 0 <= i < |hits|
  {
    SumPositive(Shifted(hits, exp));
    Shifted(hits, exp)[i] / SumReals(Shifted(hits, exp))
  }

  lemma SumPrefix(xs: seq<real>, i: int)
    requires 0 <= i < |xs|
    ensures SumReals(xs[..i + 1]) == SumReals(xs[..i]) + xs[i]
  {
    assert xs[..i + 1][..i] == xs[..i];
  }

  lemma IdentsPrefix(hits: seq<Hit>, i: int)
    requires 0 <= i < |hits|
    ensures Idents(hits[..i + 1]) == Idents(hits[..i]) + {hits[i].ident}
  {
    var a, b := hits[..i + 1], hits[..i];
    assert forall j :: 0 <= j < i ==> a[j] == b[j];
    assert a[i] == hits[i];
  }

  /** The first pass of `normalizeScores`: `exp(score - k)` stored per hit
      and summed. */
  method FirstPass(hits: seq<Hit>, exp: real -> real) returns (scores: map<nat, real>, sum: real)
    requires |hits| > 0
    ensures scores.Keys == Idents(hits)
    ensures sum == SumReals(Shifted(hits, exp))
    ensures DistinctHits(hits) ==> forall j :: 0 <= j < |hits| ==> scores[hits[j].ident] == Shifted(hits, exp)[j]
  {
    var k := hits[0].score;
    var shifted := Shifted(hits, exp);
    scores, sum := map[], 0.0;
    var i := 0;
    while i < |hits|
      invariant 0 <= i <= |hits|
      invariant scores.Keys == Idents(hits[..i])
      invariant sum == SumReals(shifted[..i])
      invariant DistinctHits(hits) ==> forall j :: 0 <= j < i ==> scores[hits[j].ident] == shifted[j]
    {
      IdentsPrefix(hits, i);
      SumPrefix(shifted, i);
      scores := scores[hits[i].ident := exp(hits[i].score - k)];
      sum := sum + exp(hits[i].score - k);
      i := i + 1;
    }
    assert hits[..i] == hits && shifted[..i] == shifted;
  }

  /** The second pass: each stored value divided by the sum. */
  method SecondPass(hits: seq<Hit>, first: map<nat, real>, sum: real) returns (scores: map<nat, real>)
    requires first.Keys == Idents(hits) && sum != 0.0
    ensures scores.Keys == Idents(hits)
    ensures DistinctHits(hits) ==> forall j :: 0 <= j < |hits| ==> scores[hits[j].ident] == first[hits[j].ident] / sum
  {
    scores := first;
    var i := 0;
    while i < |hits|
      invariant 0 <= i <= |hits|
      invariant scores.Keys == Idents(hits)
      invariant DistinctHits(hits) ==> forall j :: 0 <= j < i ==> scores[hits[j].ident] == first[hits[j].ident] / sum
      invariant DistinctHits(hits) ==> forall j :: i <= j < |hits| ==> scores[hits[j].ident] == first[hits[j].ident]
    {
      assert hits[i].ident in Idents(hits);
      scores := scores[hits[i].ident := scores[hits[i].ident] / sum];
      i := i + 1;
    }
  }

  /** `normalizeScores(expansionDocs)`: the shift `k` is the score of hit 0,
      so an empty list throws. A first pass stores `exp(score - k)` per hit
      and adds it to the sum; a second pass divides each stored value by
      the sum. For distinct hits this is the softmax. */
  method NormalizeScores(hits: seq<Hit>, exp: real -> real) returns (r: Result<map<nat, real>>)
    requires IsExp(exp)
    ensures r.Ok? <==> |hits| > 0
    ensures r.Ok? ==> r.value.Keys == Idents(hits)
    ensures r.Ok? && DistinctHits(hits) ==>
      forall i :: 0 <= i < |hits| ==> r.value[hits[i].ident] == Softmax(hits, exp, i)
  {
    if |hits| == 0 {
      return Fail("IndexOutOfBoundsException: no expansion documents");
    }
    var first, sum := FirstPass(hits, exp);
    SumPositive(Shifted(hits, exp));
    var scores := SecondPass(hits, first, sum);
    return Ok(scores);
  }

  /** `getPrior(document)`: the stored prior, or 1.0 for a hit outside the
      last set of documents. */
  function GetPrior(priors: map<nat, real>, document: Hit): (r: real)
    ensures document.ident !in priors ==> r == 1.0
    ensures document.ident in priors ==> r == priors[document.ident]
  {
    if document.ident in priors then priors[document.ident] else 1.0
  }

  /** A sum of positive reals is positive. */
  lemma {:induction false} SumPositive(xs: seq<real>)
    requires |xs| > 0 && forall i :: 0 <= i < |xs| ==> xs[i] > 0.0
    ensures SumReals(xs) > 0.0
    decreases |xs|
  {
    if |xs| > 1 {
      SumPositive(xs[..|xs| - 1]);
    }
  }

  /** Dividing every term divides the sum. */
  lemma {:induction false} SumDivided(xs: seq<real>, ys: seq<real>, c: real)
    requires c != 0.0 && |ys| == |xs|
    requires forall i :: 0 <= i < |xs| ==> ys[i] == xs[i] / c
    ensures SumReals(ys) == SumReals(xs) / c
    decreases |xs|
  {
    if |xs| > 0 {
      SumDivided(xs[..|xs| - 1], ys[..|ys| - 1], c);
    }
  }

  /** Every prior of a non-empty set is positive. */
  lemma PriorsPositive(hits: seq<Hit>, exp: real -> real, i: int)
    requires IsExp(exp) && 0 <= i < |hits|
    ensures Softmax(hits, exp, i) > 0.0
  {
    SumPositive(Shifted(hits, exp));
  }

  /** The priors of a non-empty set sum to 1. */
  lemma PriorsSumToOne(hits: seq<Hit>, exp: real -> real)
    requires IsExp(exp) && |hits| > 0
    ensures SumReals(seq(|hits|, i requires 0 <= i < |hits| => Softmax(hits, exp, i))) == 1.0
  {
    var xs := Shifted(hits, exp);
    var ys := seq(|hits|, i requires 0 <= i < |hits| => Softmax(hits, exp, i));
    SumPositive(xs);
    assert forall i :: 0 <= i < |xs| ==> ys[i] == xs[i] / SumReals(xs);
    SumDivided(xs, ys, SumReals(xs));
    assert SumReals(xs) / SumReals(xs) == 1.0;
  }

  /** A higher retrieval score gives a strictly higher prior. */
  lemma PriorMonotone(hits: seq<Hit>, exp: real -> real, i: int, j: int)
    requires IsExp(exp) && 0 <= i < |hits| && 0 <= j < |hits|
    requires hits[i].score < hits[j].score
    ensures Softmax(hits, exp, i) < Softmax(hits, exp, j)
  {
    var xs := Shifted(hits, exp);
    SumPositive(xs);
    assert xs[i] < xs[j];
    DivideMonotone(xs[i], xs[j], SumReals(xs));
  }

  lemma DivideMonotone(a: real, b: real, c: real)
    requires a < b && c > 0.0
    ensures a / c < b / c
  {
  }

  /** The stored-score strategy of DocScorerWithStoredScorePrior and
      DocScorerWithDoNothingPrior: the prior is the hit's own score. */
  function StoredScorePrior(document: Hit): real {
    document.score
  }

  /** Σ over `hits` of `weigh(term, hit, prior(hit))`. */
  function TotalScore(hits: seq<Hit>, term: Term, weigh: (Term, Hit, real) -> real, prior: Hit -> real): (r: real)
    ensures |hits| == 0 ==> r == 0.0
    decreases |hits|
  {
    if |hits| == 0 then 0.0
    else TotalScore(hits[..|hits| - 1], term, weigh, prior) + weigh(term, hits[|hits| - 1], prior(hits[|hits| - 1]))
  }

  /** The total over a concatenation is the sum of the two totals, so the
      order in which the stream adds the documents does not matter. */
  lemma {:induction false} TotalScoreAppend(a: seq<Hit>, b: seq<Hit>, term: Term, weigh: (Term, Hit, real) -> real,
                                            prior: Hit -> real)
    ensures TotalScore(a + b, term, weigh, prior) == TotalScore(a, term, weigh, prior) + TotalScore(b, term, weigh, prior)
    decreases |b|
  {
    if |b| == 0 {
      assert a + b == a;
    } else {
      var init := b[..|b| - 1];
      assert (a + b)[..|a + b| - 1] == a + init;
      assert (a + b)[|a + b| - 1] == b[|b| - 1];
      TotalScoreAppend(a, init, term, weigh, prior);
    }
  }

  /** A single document contributes its own weight. */
  lemma TotalScoreSingle(h: Hit, term: Term, weigh: (Term, Hit, real) -> real, prior: Hit -> real)
    ensures TotalScore([h], term, weigh, prior) == weigh(term, h, prior(h))
  {
    assert [h][..0] == [];
  }

  const DefaultNumDocs: int := 5
  const DefaultMu: real := 2500.0

  datatype ExpansionDocScorer = ExpansionDocScorer(numDocs: int, mu: real, priors: map<nat, real>)

  /** `new ExpansionDocScorer(docExpander)`: μ 2500, 5 documents, no priors. */
  function NewExpansionDocScorer(): (s: ExpansionDocScorer)
    ensures s.numDocs == 5 && s.mu == 2500.0 && s.priors == map[]
  {
    ExpansionDocScorer(DefaultNumDocs, DefaultMu, map[])
  }

  /** `new ExpansionDocScorer(mu, docExpander, numDocs)` and the other
      constructors that take a document count: the given μ and count, no
      priors. */
  function ExpansionDocScorerWith(mu: real, numDocs: int): (s: ExpansionDocScorer)
    ensures s.numDocs == numDocs && s.mu == mu && s.priors == map[]
    ensures s == SetNumDocs(ExpansionDocScorer(DefaultNumDocs, mu, map[]), numDocs)
  {
    ExpansionDocScorer(numDocs, mu, map[])
  }

  /** `setNumDocs(n)`. */
  function SetNumDocs(s: ExpansionDocScorer, n: int): (r: ExpansionDocScorer)
    ensures r.numDocs == n && r.mu == s.mu && r.priors == s.priors
  {
    s.(numDocs := n)
  }

  /** `getExpansionDocs(document)`: the expander asked for `numDocs`
      documents. */
  function GetExpansionDocs(s: ExpansionDocScorer, expand: (Hit, int) -> Result<seq<Hit>>, document: Hit)
    : (r: Result<seq<Hit>>)
    ensures r == expand(document, s.numDocs)
  {
    expand(document, s.numDocs)
  }

  /** A count set by `setNumDocs` is the one the expander is asked for,
      whatever count the scorer had before. */
  lemma SetNumDocsReachesExpander(s: ExpansionDocScorer, n: int, expand: (Hit, int) -> Result<seq<Hit>>, document: Hit)
    ensures GetExpansionDocs(SetNumDocs(s, n), expand, document) == expand(document, n)
    ensures GetExpansionDocs(SetNumDocs(s, n), expand, document) == GetExpansionDocs(SetNumDocs(NewExpansionDocScorer(), n), expand, document)
  {
  }

  /** `scoreTerm(term, document)`: the expansion documents replace the
      prior table (`setDocuments`), then each contributes its score under
      its prior. An empty expansion set throws in normalisation instead of
      scoring 0. */
  method ScoreTerm(s: ExpansionDocScorer, expand: (Hit, int) -> Result<seq<Hit>>, exp: real -> real,
                   weigh: (Term, Hit, real) -> real, term: Term, document: Hit)
    returns (r: Result<(ExpansionDocScorer, real)>)
    requires IsExp(exp)
    ensures r.Ok? <==> expand(document, s.numDocs).Ok? && |expand(document, s.numDocs).value| > 0
    ensures r.Ok? ==>
      var hits := expand(document, s.numDocs).value;
      var next := r.value.0;
      && next.numDocs == s.numDocs && next.mu == s.mu
      && next.priors.Keys == Idents(hits)
      && r.value.1 == TotalScore(hits, term, weigh, h => GetPrior(next.priors, h))
      && (DistinctHits(hits) ==> forall i :: 0 <= i < |hits| ==> GetPrior(next.priors, hits[i]) == Softmax(hits, exp, i))
  {
    var expansion := GetExpansionDocs(s, expand, document);
    if expansion.Fail? {
      return Fail(expansion.reason);
    }
    var priors := NormalizeScores(expansion.value, exp);
    if priors.Fail? {
      return Fail(priors.reason);
    }
    var next := s.(priors := priors.value);
    return Ok((next, TotalScore(expansion.value, term, weigh, h => GetPrior(next.priors, h))));
  }
}
