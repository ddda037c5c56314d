/** Where a relevant document lands among the non-relevant ones in two runs
    (analysis/rank_change_one_doc.py).

    The relevance judgments of one query are the sets `relevant` and
    `judged`; a run's result list for that query is its docnos in rank
    order. Reading the run and judgment files is not part of this model. */
module RankChange {
  import opened Text

  datatype Judgments = Judgments(relevant: set<string>, judged: set<string>)

  /** The test of `only_nonrel_docs`: a docno stays when it is not relevant
      or occurs in `keep`, and, when only judged documents are wanted, it is
      judged. `keep` is the bare docno the script passes (`keep=(doc)` is
      not a tuple), so `in` tests for a substring. */
  predicate KeptAsWritten(q: Judgments, judgedOnly: bool, keep: string, docno: string) {
    (docno !in q.relevant || IsSubstring(docno, keep)) && (!judgedOnly || docno in q.judged)
  }

  /** `only_nonrel_docs(results, query, qrels, judged_only, keep)`. */
  function OnlyNonrelDocs(results: seq<string>, q: Judgments, judgedOnly: bool, keep: string): (r: seq<string>)
    ensures |r| <= |results|
    ensures forall d :: d in r <==> d in results && KeptAsWritten(q, judgedOnly, keep, d)
    decreases |results|
  {
    if |results| == 0 then []
    else
      var init := results[..|results| - 1];
      var last := results[|results| - 1];
      assert forall d :: d in results <==> d in init || d == last;
      OnlyNonrelDocs(init, q, judgedOnly, keep) + (if KeptAsWritten(q, judgedOnly, keep, last) then [last] else [])
  }

  /** The filter keeps the run's order: filtering a concatenation is
      concatenating the filtered parts. */
  lemma {:induction false} FilterDistributes(a: seq<string>, b: seq<string>, q: Judgments, judgedOnly: bool, keep: string)
    ensures OnlyNonrelDocs(a + b, q, judgedOnly, keep) == OnlyNonrelDocs(a, q, judgedOnly, keep) + OnlyNonrelDocs(b, q, judgedOnly, keep)
    decreases |b|
  {
    if |b| > 0 {
      var b', x := b[..|b| - 1], b[|b| - 1];
      var tail := if KeptAsWritten(q, judgedOnly, keep, x) then [x] else [];
      assert (a + b)[..|a + b| - 1] == a + b';
      assert (a + b)[|a + b| - 1] == x;
      FilterDistributes(a, b', q, judgedOnly, keep);
      assert OnlyNonrelDocs(a + b, q, judgedOnly, keep) == OnlyNonrelDocs(a + b', q, judgedOnly, keep) + tail;
      assert OnlyNonrelDocs(b, q, judgedOnly, keep) == OnlyNonrelDocs(b', q, judgedOnly, keep) + tail;
    } else {
      assert a + b == a;
    }
  }

  lemma SubstringOfItself(s: string)
    ensures IsSubstring(s, s)
  {
    assert s[0..|s|] == s;
  }

  /** The relevant document itself always passes the filter when it is
      judged, as every relevant document is. */
  lemma TargetKept(q: Judgments, doc: string)
    requires doc in q.judged
    ensures KeptAsWritten(q, true, doc, doc)
  {
    SubstringOfItself(doc);
  }

  /** `.index(doc) + 1`, with -1 for the ValueError of an absent doc. */
  function Rank(list: seq<string>, doc: string): (r: int)
    ensures r == -1 <==> doc !in list
    ensures r != -1 ==> 1 <= r <= |list| && list[r - 1] == doc && forall j :: 0 <= j < r - 1 ==> list[j] != doc
    decreases |list|
  {
    if |list| == 0 then -1
    else if list[0] == doc then 1
    else
      var rest := Rank(list[1..], doc);
      assert forall j :: 1 <= j < |list| ==> list[j] == list[1..][j - 1];
      if rest == -1 then -1 else rest + 1
  }

  /** The rank the script computes for a relevant document in one run. */
  function RankAsWritten(results: seq<string>, q: Judgments, doc: string): (r: int)
    ensures r == -1 <==> doc !in results || doc !in q.judged
    ensures r != -1 ==> 1 <= r <= |results|
  {
    SubstringOfItself(doc);
    Rank(OnlyNonrelDocs(results, q, true, doc), doc)
  }

  /** The printed flag. */
  predicate Flag(baselineRank: int, testRank: int) {
    baselineRank < testRank
  }

  /** The -1 sentinel compares below every real rank: a document missing
      from the baseline is flagged whenever the test run has it, and one
      missing from the test run never is. */
  lemma SentinelOrdering(rank: int)
    requires rank >= 1
    ensures Flag(-1, rank) && !Flag(rank, -1)
  {
  }

  /** Two docnos where one occurs inside the other. */
  const Short: string := "AP1"
  const Long: string := "AP12"

  lemma ShortInLong()
    ensures IsSubstring(Short, Long) && Short != Long
  {
    assert Long[0..3] == Short;
  }

  /** As written, a relevant document whose docno occurs inside the
      target's is kept as if it were non-relevant, and pushes the target
      down: with both relevant and judged, "AP12" gets rank 2 behind
      "AP1", where the only document kept above it should be a
      non-relevant one. */
  lemma SubstringKeepsRelevantDocument()
    ensures var q := Judgments({Short, Long}, {Short, Long});
      OnlyNonrelDocs([Short, Long], q, true, Long) == [Short, Long] &&
      RankAsWritten([Short, Long], q, Long) == 2
  {
    var q := Judgments({Short, Long}, {Short, Long});
    ShortInLong();
    SubstringOfItself(Long);
    assert [Short, Long][..1] == [Short];
    assert OnlyNonrelDocs([Short], q, true, Long) == [Short];
  }

  /** The evident intent: `keep` is a collection holding the target docno,
      so only the target itself is exempt from the relevance test. */
  predicate Kept(q: Judgments, judgedOnly: bool, target: string, docno: string) {
    (docno !in q.relevant || docno == target) && (!judgedOnly || docno in q.judged)
  }

  function OnlyNonrelDocsIntended(results: seq<string>, q: Judgments, judgedOnly: bool, target: string): (r: seq<string>)
    ensures |r| <= |results|
    ensures forall d :: d in r <==> d in results && Kept(q, judgedOnly, target, d)
    decreases |results|
  {
    if |results| == 0 then []
    else
      var init := results[..|results| - 1];
      var last := results[|results| - 1];
      assert forall d :: d in results <==> d in init || d == last;
      OnlyNonrelDocsIntended(init, q, judgedOnly, target) + (if Kept(q, judgedOnly, target, last) then [last] else [])
  }

  function RankIntended(results: seq<string>, q: Judgments, target: string): int {
    Rank(OnlyNonrelDocsIntended(results, q, true, target), target)
  }

  /** The number of judged non-relevant documents in a list. */
  function JudgedNonrelevant(results: seq<string>, q: Judgments): nat
    decreases |results|
  {
    if |results| == 0 then 0
    else JudgedNonrelevant(results[..|results| - 1], q) +
         (if results[|results| - 1] !in q.relevant && results[|results| - 1] in q.judged then 1 else 0)
  }

  /** With the intended filter, a judged relevant document's rank is one
      more than the number of judged non-relevant documents ranked above
      its first occurrence in the run, and -1 when the run lacks it. */
  lemma {:induction false} RankCountsNonrelevantAbove(results: seq<string>, q: Judgments, target: string, k: nat)
    requires target in q.relevant && target in q.judged
    requires k <= |results| && target !in results[..k]
    ensures |OnlyNonrelDocsIntended(results[..k], q, true, target)| == JudgedNonrelevant(results[..k], q)
    ensures target !in OnlyNonrelDocsIntended(results[..k], q, true, target)
    decreases k
  {
    if k > 0 {
      assert results[..k][..k - 1] == results[..k - 1];
      RankCountsNonrelevantAbove(results, q, target, k - 1);
    }
  }

  lemma IntendedRank(results: seq<string>, q: Judgments, target: string)
    requires target in q.relevant && target in q.judged
    ensures target !in results ==> RankIntended(results, q, target) == -1
    ensures target in results ==>
      RankIntended(results, q, target) == JudgedNonrelevant(results[..Rank(results, target) - 1], q) + 1
  {
    if target in results {
      var k := Rank(results, target) - 1;
      IntendedRankAt(results, q, target, k);
    }
  }

  lemma IntendedRankAt(results: seq<string>, q: Judgments, target: string, k: nat)
    requires target in q.relevant && target in q.judged
    requires k < |results| && results[k] == target && target !in results[..k]
    ensures RankIntended(results, q, target) == JudgedNonrelevant(results[..k], q) + 1
  {
    RankCountsNonrelevantAbove(results, q, target, k);
    var kept := OnlyNonrelDocsIntended(results[..k], q, true, target);
    var all := OnlyNonrelDocsIntended(results, q, true, target);
    IntendedAround(results, q, target, k);
    assert all[..|kept|] == kept;
    RankOfFirst(all, target, |kept|);
  }

  /** Filtering around the target: what is kept before it, the target, and
      what is kept after it. */
  lemma IntendedAround(results: seq<string>, q: Judgments, target: string, k: nat)
    requires target in q.relevant && target in q.judged
    requires k < |results| && results[k] == target
    ensures OnlyNonrelDocsIntended(results, q, true, target) ==
            OnlyNonrelDocsIntended(results[..k], q, true, target) + [target] +
            OnlyNonrelDocsIntended(results[k + 1..], q, true, target)
  {
    assert results == results[..k] + [target] + results[k + 1..];
    IntendedDistributes(results[..k] + [target], results[k + 1..], q, target);
    IntendedDistributes(results[..k], [target], q, target);
    assert [target][..0] == [];
    assert OnlyNonrelDocsIntended([target], q, true, target) == [target];
  }

  lemma {:induction false} IntendedDistributes(a: seq<string>, b: seq<string>, q: Judgments, target: string)
    ensures OnlyNonrelDocsIntended(a + b, q, true, target) ==
            OnlyNonrelDocsIntended(a, q, true, target) + OnlyNonrelDocsIntended(b, q, true, target)
    decreases |b|
  {
    if |b| > 0 {
      var b', x := b[..|b| - 1], b[|b| - 1];
      var tail := if Kept(q, true, target, x) then [x] else [];
      assert (a + b)[..|a + b| - 1] == a + b';
      assert (a + b)[|a + b| - 1] == x;
      IntendedDistributes(a, b', q, target);
      assert OnlyNonrelDocsIntended(a + b, q, true, target) == OnlyNonrelDocsIntended(a + b', q, true, target) + tail;
      assert OnlyNonrelDocsIntended(b, q, true, target) == OnlyNonrelDocsIntended(b', q, true, target) + tail;
    } else {
      assert a + b == a;
    }
  }

  lemma RankOfFirst(list: seq<string>, doc: string, i: nat)
    requires i < |list| && list[i] == doc && doc !in list[..i]
    ensures Rank(list, doc) == i + 1
  {
    forall j | 0 <= j < i
      ensures list[j] != doc
    {
      assert list[j] == list[..i][j];
    }
  }

  /** The two filters differ only through relevant docnos occurring
      inside the target's docno. */
  lemma {:induction false} AgreeWithoutSubstrings(results: seq<string>, q: Judgments, judgedOnly: bool, target: string)
    requires forall d :: d in q.relevant && d != target ==> !IsSubstring(d, target)
    ensures OnlyNonrelDocs(results, q, judgedOnly, target) == OnlyNonrelDocsIntended(results, q, judgedOnly, target)
    decreases |results|
  {
    if |results| > 0 {
      AgreeWithoutSubstrings(results[..|results| - 1], q, judgedOnly, target);
      SubstringOfItself(target);
      var last := results[|results| - 1];
      assert KeptAsWritten(q, judgedOnly, target, last) == Kept(q, judgedOnly, target, last);
    }
  }

  /** With the intended filter the example target gets rank 1: the other
      relevant document no longer counts. */
  lemma IntendedIgnoresRelevantDocument()
    ensures RankIntended([Short, Long], Judgments({Short, Long}, {Short, Long}), Long) == 1
  {
    var q := Judgments({Short, Long}, {Short, Long});
    ShortInLong();
    assert [Short, Long][..1] == [Short];
    assert OnlyNonrelDocsIntended([Short], q, true, Long) == [];
  }
}
