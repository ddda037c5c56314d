/** Document expansion by language-model smoothing over precomputed
    neighbours (main/RunDELM.java): every retrieved document's vector is
    replaced by a mixture of its own term weights and its neighbours'
    weights scaled by their similarity scores, and the document is scored
    again.

    `FeatureVector.addTerm` is assumed to add onto the current weight
    (`Common.AddTerm`). A hit's term vector as its `getFeatureVector`
    returns it is the function `targetVector` or `expansionVector`: this is
    `Common.VectorOf` for hits backed by the target or the expansion index,
    taken to find every document they are asked for. Query-likelihood
    scoring is the function `score`. Ranking the rescored list and writing it out
    are not part of this model. */
module Delm {
  import opened Common
  import DocumentExpander
  import PreExpandedExpander

  /** `c` times the weight of `t` in `v`. */
  function Scaled(c: real, v: TermVector, t: Term): real {
    c * Weight(v, t)
  }

  /** `acc` with `c` times each weight of `v` added on. */
  function AddScaled(acc: TermVector, v: TermVector, c: real): (r: TermVector)
    ensures r.Keys == acc.Keys + v.Keys
  {
    map t | t in acc.Keys + v.Keys :: Weight(acc, t) + Scaled(c, v, t)
  }

  lemma AddScaledWeight(acc: TermVector, v: TermVector, c: real, t: Term)
    ensures Weight(AddScaled(acc, v, c), t) == Weight(acc, t) + Scaled(c, v, t)
  {
  }

  /** The source's inner loop: `addTerm(term, c * weight)` for each term of
      an enumeration of `v`. */
  function AddEach(acc: TermVector, v: TermVector, terms: seq<Term>, c: real): TermVector
    decreases |terms|
  {
    if |terms| == 0 then acc
    else AddEach(AddTerm(acc, terms[0], Scaled(c, v, terms[0])), v, terms[1..], c)
  }

  predicate Distinct(terms: seq<Term>) {
    forall i, j :: 0 <= i < j < |terms| ==> terms[i] != terms[j]
  }

  lemma DistinctTail(terms: seq<Term>)
    requires |terms| > 0 && Distinct(terms)
    ensures Distinct(terms[1..]) && terms[0] !in terms[1..]
  {
    forall i, j | 0 <= i < j < |terms| - 1
      ensures terms[1..][i] != terms[1..][j]
    {
      assert terms[1..][i] == terms[i + 1] && terms[1..][j] == terms[j + 1];
    }
  }

  lemma {:induction false} AddEachKeys(acc: TermVector, v: TermVector, terms: seq<Term>, c: real)
    ensures AddEach(acc, v, terms, c).Keys == acc.Keys + set u | u in terms
    decreases |terms|
  {
    if |terms| > 0 {
      var next := AddTerm(acc, terms[0], Scaled(c, v, terms[0]));
      AddEachKeys(next, v, terms[1..], c);
      assert (set u | u in terms) == {terms[0]} + set u | u in terms[1..];
    }
  }

  lemma {:induction false} AddEachWeight(acc: TermVector, v: TermVector, terms: seq<Term>, c: real, t: Term)
    requires Distinct(terms)
    ensures Weight(AddEach(acc, v, terms, c), t) == Weight(acc, t) + (if t in terms then Scaled(c, v, t) else 0.0)
    decreases |terms|
  {
    if |terms| > 0 {
      var next := AddTerm(acc, terms[0], Scaled(c, v, terms[0]));
      DistinctTail(terms);
      AddEachWeight(next, v, terms[1..], c, t);
      assert t in terms <==> t == terms[0] || t in terms[1..];
    }
  }

  /** Whatever order the vector's terms come in, the term loop adds exactly
      `c` times the vector. */
  lemma EnumerationOrderIrrelevant(acc: TermVector, v: TermVector, terms: seq<Term>, c: real)
    requires Distinct(terms)
    requires (set u | u in terms) == v.Keys
    ensures AddEach(acc, v, terms, c) == AddScaled(acc, v, c)
  {
    var a := AddEach(acc, v, terms, c);
    var b := AddScaled(acc, v, c);
    AddEachKeys(acc, v, terms, c);
    forall t | t in a.Keys
      ensures a[t] == b[t]
    {
      AddEachWeight(acc, v, terms, c, t);
      AddScaledWeight(acc, v, c, t);
      assert t in v.Keys <==> t in terms;
    }
  }

  /** An expansion document as the pseudo-document loop sees it: its
      score and its term vector. */
  datatype Neighbour = Neighbour(score: real, vector: TermVector)

  /** The expansion hits with their vectors loaded. */
  function Loaded(expanded: seq<Hit>, expansionVector: Hit -> TermVector): (r: seq<Neighbour>)
    ensures |r| == |expanded|
    ensures forall i :: 0 <= i < |r| ==> r[i] == Neighbour(expanded[i].score, expansionVector(expanded[i]))
  {
    seq(|expanded|, i requires 0 <= i < |expanded| => Neighbour(expanded[i].score, expansionVector(expanded[i])))
  }

  /** The factor an expansion document's weights are added at. */
  function NeighbourFactor(alpha: real, e: Neighbour): real {
    (1.0 - alpha) * e.score
  }

  /** One expansion document's terms added at `(1 - alpha)` times its score. */
  function AddNeighbour(acc: TermVector, alpha: real, e: Neighbour): TermVector {
    AddScaled(acc, e.vector, NeighbourFactor(alpha, e))
  }

  lemma AddNeighbourWeight(acc: TermVector, alpha: real, e: Neighbour, t: Term)
    ensures Weight(AddNeighbour(acc, alpha, e), t) == Weight(acc, t) + Scaled(NeighbourFactor(alpha, e), e.vector, t)
  {
    AddScaledWeight(acc, e.vector, NeighbourFactor(alpha, e), t);
  }

  /** The pseudo-document: the document's weights times `alpha`, then each
      expansion document's weights times `(1 - alpha) * score`, in list
      order. */
  function PseudoDocument(alpha: real, docVector: TermVector, neighbours: seq<Neighbour>): TermVector
    decreases |neighbours|
  {
    if |neighbours| == 0 then AddScaled(map[], docVector, alpha)
    else AddNeighbour(PseudoDocument(alpha, docVector, neighbours[..|neighbours| - 1]), alpha, neighbours[|neighbours| - 1])
  }

  /** The neighbourhood weight of a term: the score-weighted sum of its
      weights in the expansion documents. */
  function NeighbourhoodWeight(neighbours: seq<Neighbour>, t: Term): real
    decreases |neighbours|
  {
    if |neighbours| == 0 then 0.0
    else
      var last := neighbours[|neighbours| - 1];
      NeighbourhoodWeight(neighbours[..|neighbours| - 1], t) + last.score * Weight(last.vector, t)
  }

  /** The neighbourhood part of a term's pseudo-document weight, summed as
      the loop adds it. */
  function AddedNeighbourWeight(alpha: real, neighbours: seq<Neighbour>, t: Term): real
    decreases |neighbours|
  {
    if |neighbours| == 0 then 0.0
    else
      var last := neighbours[|neighbours| - 1];
      AddedNeighbourWeight(alpha, neighbours[..|neighbours| - 1], t) + Scaled(NeighbourFactor(alpha, last), last.vector, t)
  }

  lemma {:induction false} PseudoDocumentAdds(alpha: real, docVector: TermVector, neighbours: seq<Neighbour>, t: Term)
    ensures Weight(PseudoDocument(alpha, docVector, neighbours), t) ==
            Scaled(alpha, docVector, t) + AddedNeighbourWeight(alpha, neighbours, t)
    decreases |neighbours|
  {
    if |neighbours| == 0 {
      AddScaledWeight(map[], docVector, alpha, t);
    } else {
      var init := neighbours[..|neighbours| - 1];
      PseudoDocumentAdds(alpha, docVector, init, t);
      AddNeighbourWeight(PseudoDocument(alpha, docVector, init), alpha, neighbours[|neighbours| - 1], t);
    }
  }

  lemma {:induction false} AddedIsScaledNeighbourhood(alpha: real, neighbours: seq<Neighbour>, t: Term)
    ensures AddedNeighbourWeight(alpha, neighbours, t) == (1.0 - alpha) * NeighbourhoodWeight(neighbours, t)
    decreases |neighbours|
  {
    if |neighbours| > 0 {
      var last := neighbours[|neighbours| - 1];
      AddedIsScaledNeighbourhood(alpha, neighbours[..|neighbours| - 1], t);
      Factor(alpha, NeighbourhoodWeight(neighbours[..|neighbours| - 1], t), last, t);
    }
  }

  lemma Factor(alpha: real, n: real, e: Neighbour, t: Term)
    ensures (1.0 - alpha) * n + Scaled(NeighbourFactor(alpha, e), e.vector, t) == (1.0 - alpha) * (n + e.score * Weight(e.vector, t))
  {
    var a, w := 1.0 - alpha, Weight(e.vector, t);
    assert Scaled(NeighbourFactor(alpha, e), e.vector, t) == (a * e.score) * w;
  }

  /** Every term's pseudo-document weight is `alpha` times its document
      weight plus `1 - alpha` times its neighbourhood weight. */
  lemma PseudoDocumentWeight(alpha: real, docVector: TermVector, neighbours: seq<Neighbour>, t: Term)
    ensures Weight(PseudoDocument(alpha, docVector, neighbours), t) ==
            alpha * Weight(docVector, t) + (1.0 - alpha) * NeighbourhoodWeight(neighbours, t)
  {
    PseudoDocumentAdds(alpha, docVector, neighbours, t);
    AddedIsScaledNeighbourhood(alpha, neighbours, t);
  }

  /** With weight 1 on the original document the neighbours change no
      weight. */
  lemma FullOriginalWeight(docVector: TermVector, neighbours: seq<Neighbour>, t: Term)
    ensures Weight(PseudoDocument(1.0, docVector, neighbours), t) == Weight(docVector, t)
  {
    PseudoDocumentWeight(1.0, docVector, neighbours, t);
  }

  /** The expander of the run: 20 pseudo-query terms, the cluster lists,
      and `setMaxNumDocs(numDocs)`. */
  function DelmExpander(lists: map<int, seq<Hit>>, numDocs: int, stopper: Option<set<Term>>): (p: PreExpandedExpander.PreExpanded)
    ensures p.lists == lists && p.base.maxNumDocs == numDocs && p.base.numTerms == 20
  {
    var base := DocumentExpander.NewExpander(stopper).(numTerms := 20);
    PreExpandedExpander.PreExpanded(DocumentExpander.SetMaxNumDocs(base, numDocs), lists)
  }

  /** One document of the results loop, given the expansion it received:
      the vector replaced by the pseudo-document, then the score replaced
      by the score of the document so changed. */
  function Rescore(doc: Hit, expanded: seq<Hit>, alpha: real, targetVector: Hit -> TermVector,
                   expansionVector: Hit -> TermVector, score: Hit -> real): (r: Hit)
    ensures r.ident == doc.ident && r.docno == doc.docno && r.docID == doc.docID
    ensures r.vector == Some(PseudoDocument(alpha, targetVector(doc), Loaded(expanded, expansionVector)))
    ensures r.score == score(doc.(vector := r.vector))
  {
    var withVector := doc.(vector := Some(PseudoDocument(alpha, targetVector(doc), Loaded(expanded, expansionVector))));
    withVector.(score := score(withVector))
  }

  datatype Rescored = Rescored(expander: PreExpandedExpander.PreExpanded, results: seq<Hit>)

  /** The loop over the results, in order: each document is expanded with
      `expandDocument(doc)` (the cut-off is `maxNumDocs`), which crops the
      stored list in place, and rescored. */
  function RescoreAll(p: PreExpandedExpander.PreExpanded, results: seq<Hit>, alpha: real, targetVector: Hit -> TermVector,
                      expansionVector: Hit -> TermVector, score: Hit -> real): (r: Rescored)
    ensures |r.results| == |results|
    ensures r.expander.base == p.base && r.expander.lists.Keys == p.lists.Keys
    decreases |results|
  {
    if |results| == 0 then Rescored(p, [])
    else
      var before := RescoreAll(p, results[..|results| - 1], alpha, targetVector, expansionVector, score);
      var doc := results[|results| - 1];
      var expansion := PreExpandedExpander.ExpandDocument(before.expander, doc, before.expander.base.maxNumDocs);
      assert Max(p.base.maxNumDocs, p.base.maxNumDocs) == p.base.maxNumDocs;
      Rescored(expansion.expander, before.results + [Rescore(doc, expansion.hits, alpha, targetVector, expansionVector, score)])
  }

  /** The expansion a document gets from a freshly configured expander. */
  function ExpansionOf(p: PreExpandedExpander.PreExpanded, doc: Hit): seq<Hit> {
    if doc.docID in p.lists then Crop(p.lists[doc.docID], p.base.maxNumDocs) else []
  }

  /** The in-place crops never change what a later document receives: the
      stored lists only ever hold their original list or its crop. */
  lemma {:induction false} ListsStayCropped(p: PreExpandedExpander.PreExpanded, results: seq<Hit>, alpha: real,
                                            targetVector: Hit -> TermVector, expansionVector: Hit -> TermVector,
                                            score: Hit -> real)
    ensures var q := RescoreAll(p, results, alpha, targetVector, expansionVector, score).expander;
      forall id :: id in q.lists ==> q.lists[id] == p.lists[id] || q.lists[id] == Crop(p.lists[id], p.base.maxNumDocs)
    decreases |results|
  {
    if |results| > 0 {
      var init := results[..|results| - 1];
      ListsStayCropped(p, init, alpha, targetVector, expansionVector, score);
      var before := RescoreAll(p, init, alpha, targetVector, expansionVector, score).expander;
      var doc := results[|results| - 1];
      var n := p.base.maxNumDocs;
      if doc.docID in before.lists {
        CropTwice(p.lists[doc.docID], n, n);
        assert Min(n, n) == n;
      }
    }
  }

  /** Every document is rescored exactly as if it were the only one: with
      the first `maxNumDocs` hits of its own cluster list. */
  lemma {:induction false} DocumentsRescoredIndependently(p: PreExpandedExpander.PreExpanded, results: seq<Hit>, alpha: real,
                                                          targetVector: Hit -> TermVector, expansionVector: Hit -> TermVector,
                                                          score: Hit -> real)
    ensures var r := RescoreAll(p, results, alpha, targetVector, expansionVector, score).results;
      forall i :: 0 <= i < |results| ==>
        r[i] == Rescore(results[i], ExpansionOf(p, results[i]), alpha, targetVector, expansionVector, score)
    decreases |results|
  {
    if |results| > 0 {
      var init := results[..|results| - 1];
      DocumentsRescoredIndependently(p, init, alpha, targetVector, expansionVector, score);
      ListsStayCropped(p, init, alpha, targetVector, expansionVector, score);
      var before := RescoreAll(p, init, alpha, targetVector, expansionVector, score);
      var doc := results[|results| - 1];
      var n := p.base.maxNumDocs;
      if doc.docID in p.lists {
        CropTwice(p.lists[doc.docID], n, n);
        assert Min(n, n) == n;
      }
      var r := RescoreAll(p, results, alpha, targetVector, expansionVector, score).results;
      assert r[..|results| - 1] == before.results;
      forall i | 0 <= i < |results| - 1
        ensures r[i] == Rescore(results[i], ExpansionOf(p, results[i]), alpha, targetVector, expansionVector, score)
      {
        assert r[i] == before.results[i] && results[i] == init[i];
      }
    }
  }
}
