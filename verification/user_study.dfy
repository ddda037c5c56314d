/** The user-study annotations and the measures computed over them
    (main/ComputeUserStudyMetrics.kt, analysis/UserStudyAnalysis.kt).

    An annotation file is its sequence of lines. The document scorers are
    given as functions from a term to its score for the document at hand,
    and the default Stopper as its set of stopwords. */
module UserStudy {
  import opened Common
  import opened Text
  import LME = LanguageModelEstimator
  import Evaluators

  datatype TopicTerm = TopicTerm(user: string, docno: string, index: string, term: string)

  /** One line: trimmed, split on ',' the Kotlin way (empty fields kept);
      fields 0 to 3 are user, docno, index and term, later ones ignored,
      and fewer than four throw. */
  function ParseTopicTerm(line: string): (r: Result<TopicTerm>)
    ensures var data := KotlinSplit(Trim(line), ',');
      (r.Ok? <==> |data| >= 4) &&
      (r.Ok? ==> r.value == TopicTerm(data[0], data[1], data[2], data[3]))
  {
    var data := KotlinSplit(Trim(line), ',');
    if |data| < 4 then Fail("IndexOutOfBoundsException: fewer than four fields")
    else Ok(TopicTerm(data[0], data[1], data[2], data[3]))
  }

  /** `readTopicTermsData(fileName)`: one record per line, in line order;
      the first malformed line throws. */
  function ReadTopicTermsData(lines: seq<string>): (r: Result<seq<TopicTerm>>)
    ensures r.Ok? <==> forall i :: 0 <= i < |lines| ==> ParseTopicTerm(lines[i]).Ok?
    ensures r.Ok? ==> |r.value| == |lines|
    ensures r.Ok? ==> forall i :: 0 <= i < |lines| ==> r.value[i] == ParseTopicTerm(lines[i]).value
  {
    ParseEach(lines, (line, i) => ParseTopicTerm(line))
  }

  /** `annotationsBy(user)`: for each docno the user annotated, the set of
      terms they gave it. */
  function AnnotationsBy(records: seq<TopicTerm>, user: string): (r: map<string, set<string>>)
    ensures forall d :: d in r <==> exists i :: 0 <= i < |records| && records[i].user == user && records[i].docno == d
    ensures forall d, t :: d in r ==>
      (t in r[d] <==> exists i :: 0 <= i < |records| && records[i].user == user && records[i].docno == d && records[i].term == t)
  {
    var docnos := set i | 0 <= i < |records| && records[i].user == user :: records[i].docno;
    map d | d in docnos :: set i | 0 <= i < |records| && records[i].user == user && records[i].docno == d :: records[i].term
  }

  /** `topicTermsFor(docno)`: every term any user gave the docno. */
  function TopicTermsFor(records: seq<TopicTerm>, docno: string): (r: set<string>)
    ensures forall t :: t in r <==> exists i :: 0 <= i < |records| && records[i].docno == docno && records[i].term == t
  {
    set i | 0 <= i < |records| && records[i].docno == docno :: records[i].term
  }

  /** No docno maps to an empty set, and one user's terms for a docno are
      among all users' terms for it. */
  lemma AnnotationsWithinTopicTerms(records: seq<TopicTerm>, user: string, d: string)
    requires d in AnnotationsBy(records, user)
    ensures AnnotationsBy(records, user)[d] != {}
    ensures AnnotationsBy(records, user)[d] <= TopicTermsFor(records, d)
  {
    var i :| 0 <= i < |records| && records[i].user == user && records[i].docno == d;
    assert records[i].term in AnnotationsBy(records, user)[d];
  }

  /** `collectionOf(docno)`: the index field of the first record for the
      docno (the set keeps insertion order); a docno without records throws. */
  function CollectionOf(records: seq<TopicTerm>, docno: string): (r: Result<string>)
    ensures r.Ok? <==> exists i :: 0 <= i < |records| && records[i].docno == docno
    ensures r.Ok? ==> exists i :: 0 <= i < |records| && records[i].docno == docno && r.value == records[i].index &&
                                 (forall j :: 0 <= j < i ==> records[j].docno != docno)
    decreases |records|
  {
    if |records| == 0 then Fail("NoSuchElementException: no record for " + docno)
    else if records[0].docno == docno then Ok(records[0].index)
    else
      var rest := CollectionOf(records[1..], docno);
      assert forall i :: 1 <= i < |records| ==> records[i] == records[1..][i - 1];
      rest
  }

  /** Kotlin's `toSet()` on a collection of terms. */
  function TermSet(terms: seq<Term>): set<Term> {
    set t | t in terms
  }

  /** Σ of `f` over `terms`, in order. */
  function SumOver(terms: seq<Term>, f: Term -> real): real
    decreases |terms|
  {
    if |terms| == 0 then 0.0 else SumOver(terms[..|terms| - 1], f) + f(terms[|terms| - 1])
  }

  /** Σ of `f` over a set of terms, taken in no particular order: what
      "the sum over the distinct topic terms" means whatever order a set
      iterates in. */
  ghost function SetSum(s: set<Term>, f: Term -> real): real
    decreases |s|
  {
    if s == {} then 0.0 else var t :| t in s; f(t) + SetSum(s - {t}, f)
  }

  /** Any element of the set may be summed first. */
  lemma {:induction false} SetSumRemove(s: set<Term>, x: Term, f: Term -> real)
    requires x in s
    ensures SetSum(s, f) == f(x) + SetSum(s - {x}, f)
    decreases |s|
  {
    var y :| y in s && SetSum(s, f) == f(y) + SetSum(s - {y}, f);
    if y != x {
      SetSumRemove(s - {y}, x, f);
      SetSumRemove(s - {x}, y, f);
      assert s - {y} - {x} == s - {x} - {y};
    }
  }

  /** Summing a sequence without repeats, in its order, is summing its set. */
  lemma {:induction false} SumOverDistinct(terms: seq<Term>, f: Term -> real)
    requires forall i, j :: 0 <= i < j < |terms| ==> terms[i] != terms[j]
    ensures SumOver(terms, f) == SetSum(TermSet(terms), f)
    decreases |terms|
  {
    if |terms| == 0 {
      assert TermSet(terms) == {};
    } else {
      var init := terms[..|terms| - 1];
      var last := terms[|terms| - 1];
      SumOverDistinct(init, f);
      assert last !in init;
      assert TermSet(terms) - {last} == TermSet(init) by {
        assert forall t :: t in terms <==> t in init || t == last;
      }
      SetSumRemove(TermSet(terms), last, f);
    }
  }

  /** The scores of `terms` summed in order, as `map { … }.sum()` does:
      every score is taken before anything is added, so the first term
      whose score throws ends the sum with that exception. */
  function SumScores(terms: seq<Term>, score: Term -> Result<real>): (r: Result<real>)
    ensures r.Ok? <==> forall i :: 0 <= i < |terms| ==> score(terms[i]).Ok?
    ensures r.Ok? ==> r.value == SumOver(terms, LME.ValueOf(score))
    ensures r.Fail? ==> exists i :: 0 <= i < |terms| && score(terms[i]) == r &&
                                   forall j :: 0 <= j < i ==> score(terms[j]).Ok?
    decreases |terms|
  {
    if |terms| == 0 then Ok(0.0)
    else
      var init := terms[..|terms| - 1];
      var last := terms[|terms| - 1];
      match SumScores(init, score)
      case Fail(e) => Fail(e)
      case Ok(s) =>
        match score(last)
        case Fail(e) => Fail(e)
        case Ok(x) => Ok(s + x)
  }

  /** `totalProbability(topicTerms, scorer, document)`: the scores of the
      distinct topic terms (`toSet()`, first-occurrence order) summed; a
      scorer that throws on a topic term makes the total throw. */
  function TotalProbability(topicTerms: seq<Term>, score: Term -> Result<real>): (r: Result<real>)
    ensures r.Ok? <==> forall t :: t in topicTerms ==> score(t).Ok?
    ensures r.Ok? ==> r.value == SetSum(TermSet(topicTerms), LME.ValueOf(score))
    ensures r.Fail? ==> exists t :: t in topicTerms && score(t) == r
  {
    var distinct := Dedup(topicTerms);
    assert TermSet(distinct) == TermSet(topicTerms);
    SumOverDistinct(distinct, LME.ValueOf(score));
    SumScores(distinct, score)
  }

  /** One term's change, `expansion.scoreTerm - original.scoreTerm`: the
      expansion score is taken first, so its exception is the one raised
      when both throw. */
  function Change(original: Term -> Result<real>, expansion: Term -> Result<real>): Term -> Result<real> {
    t =>
      match expansion(t)
      case Fail(e) => Fail(e)
      case Ok(x) =>
        match original(t)
        case Fail(e) => Fail(e)
        case Ok(y) => Ok(x - y)
  }

  /** Where every term of `terms` scores under both scorers, the in-order
      sum of the changes is the difference of the in-order sums. */
  lemma {:induction false} SumOverChange(terms: seq<Term>, original: Term -> Result<real>, expansion: Term -> Result<real>)
    requires forall i :: 0 <= i < |terms| ==> expansion(terms[i]).Ok? && original(terms[i]).Ok?
    ensures SumOver(terms, LME.ValueOf(Change(original, expansion))) ==
            SumOver(terms, LME.ValueOf(expansion)) - SumOver(terms, LME.ValueOf(original))
    decreases |terms|
  {
    if |terms| > 0 {
      SumOverChange(terms[..|terms| - 1], original, expansion);
    }
  }

  /** `probabilityChange(topicTerms, originalDocScorer, expansionDocScorer,
      document)`: Σ over the distinct topic terms of the expansion score
      minus the original score; either scorer throwing on a topic term
      makes the change throw. */
  function ProbabilityChange(topicTerms: seq<Term>, original: Term -> Result<real>, expansion: Term -> Result<real>)
    : (r: Result<real>)
    ensures r.Ok? <==> forall t :: t in topicTerms ==> expansion(t).Ok? && original(t).Ok?
    ensures r.Ok? ==> r.value == SetSum(TermSet(topicTerms), LME.ValueOf(expansion)) -
                                 SetSum(TermSet(topicTerms), LME.ValueOf(original))
    ensures r.Fail? ==> exists t :: t in topicTerms &&
                          ((expansion(t).Fail? && r == expansion(t)) || (expansion(t).Ok? && r == original(t)))
  {
    var distinct := Dedup(topicTerms);
    var r := SumScores(distinct, Change(original, expansion));
    assert TermSet(distinct) == TermSet(topicTerms);
    assert r.Ok? ==> r.value == SetSum(TermSet(topicTerms), LME.ValueOf(expansion)) -
                                SetSum(TermSet(topicTerms), LME.ValueOf(original)) by {
      if r.Ok? {
        SumOverChange(distinct, original, expansion);
        SumOverDistinct(distinct, LME.ValueOf(expansion));
        SumOverDistinct(distinct, LME.ValueOf(original));
      }
    }
    r
  }

  /** The change is the expansion total minus the original total, and it
      throws exactly when one of the totals does. */
  lemma ChangeIsDifferenceOfTotals(topicTerms: seq<Term>, original: Term -> Result<real>, expansion: Term -> Result<real>)
    ensures ProbabilityChange(topicTerms, original, expansion).Ok? <==>
            TotalProbability(topicTerms, expansion).Ok? && TotalProbability(topicTerms, original).Ok?
    ensures ProbabilityChange(topicTerms, original, expansion).Ok? ==>
            ProbabilityChange(topicTerms, original, expansion).value ==
            TotalProbability(topicTerms, expansion).value - TotalProbability(topicTerms, original).value
  {
  }

  /** A repeated topic term is counted once. */
  lemma RepeatsCountOnce(topicTerms: seq<Term>, t: Term, score: Term -> Result<real>)
    requires t in topicTerms
    ensures TotalProbability(topicTerms + [t], score) == TotalProbability(topicTerms, score)
  {
    assert (topicTerms + [t])[..|topicTerms|] == topicTerms;
  }

  /** `queryTopicTermSimilarity(topicTerms, query, stopper)` without
      stemming: the Jaccard similarity of the topic-term set and the terms
      of a stopped copy of the query. */
  function QueryTopicTermSimilarity(topicTerms: seq<Term>, query: TermVector, stopwords: set<Term>): (r: Dbl)
    ensures r == Evaluators.Jaccard(TermSet(topicTerms), query.Keys - stopwords)
  {
    Evaluators.Jaccard(TermSet(topicTerms), Stop(query, stopwords).Keys)
  }

  /** Stopwords in the topic terms never count as shared with the query. */
  lemma StoppedTermsNotShared(topicTerms: seq<Term>, query: TermVector, stopwords: set<Term>)
    ensures TermSet(topicTerms) * Stop(query, stopwords).Keys <= TermSet(topicTerms) - stopwords
  {
  }
}
