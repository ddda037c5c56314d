/** The sorted vocabulary of a group of sparse vectors
    (FeatureUtils.createVocabulary). */
module FeatureUtils {
  import opened Common
  import opened Text

  /** Every term that is a key of at least one of `vectors`: the HashSet the
      source fills with `addAll(vector.getFeatures())`. */
  function Terms(vectors: seq<TermVector>): (r: set<Term>)
    ensures forall t :: t in r <==> exists i :: 0 <= i < |vectors| && t in vectors[i]
  {
    if |vectors| == 0 then {}
    else Terms(vectors[..|vectors| - 1]) + vectors[|vectors| - 1].Keys
  }

  predicate IsLeast(m: Term, s: set<Term>) {
    m in s && forall x :: x in s && x != m ==> StrLess(m, x)
  }

  lemma {:induction false} LeastExists(s: set<Term>)
    requires s != {}
    ensures exists m :: IsLeast(m, s)
    decreases |s|
  {
    var x :| x in s;
    if s == {x} {
      assert IsLeast(x, s);
    } else {
      LeastExists(s - {x});
      var m :| IsLeast(m, s - {x});
      if StrLess(x, m) {
        forall y | y in s && y != x
          ensures StrLess(x, y)
        {
          if y != m {
            StrLessTransitive(x, m, y);
          }
        }
        assert IsLeast(x, s);
      } else {
        StrLessTotal(x, m);
        assert IsLeast(m, s);
      }
    }
  }

  /** The elements of `s` in ascending order: `Collections.sort` applied to
      the list copied from the set. */
  function SortedTerms(s: set<Term>): (r: seq<Term>)
    ensures StrictlySorted(r)
    ensures forall t :: t in r <==> t in s
    ensures |r| == |s|
    decreases |s|
  {
    if s == {} then []
    else
      LeastExists(s);
      StrLessAsymmetricAll();
      var m :| IsLeast(m, s);
      var rest := SortedTerms(s - {m});
      PrependLeast(m, s, rest);
      [m] + rest
  }

  lemma PrependLeast(m: Term, s: set<Term>, rest: seq<Term>)
    requires IsLeast(m, s) && StrictlySorted(rest)
    requires forall t :: t in rest <==> t in s - {m}
    ensures StrictlySorted([m] + rest)
  {
    var r := [m] + rest;
    forall i, j | 0 <= i < j < |r|
      ensures StrLess(r[i], r[j])
    {
      assert r[j] == rest[j - 1];
      if i > 0 {
        assert r[i] == rest[i - 1];
      } else {
        assert rest[j - 1] in rest;
      }
    }
  }

  /** `createVocabulary(sparseVectors...)`: the union of the vectors' terms,
      sorted ascending. */
  function CreateVocabulary(vectors: seq<TermVector>): (r: seq<Term>)
    ensures StrictlySorted(r)
    ensures forall t :: t in r <==> exists i :: 0 <= i < |vectors| && t in vectors[i]
    ensures |vectors| == 0 ==> r == []
  {
    SortedTerms(Terms(vectors))
  }

  /** No term is listed twice. */
  lemma VocabularyDistinct(vectors: seq<TermVector>)
    ensures forall i, j :: 0 <= i < j < |CreateVocabulary(vectors)| ==>
      CreateVocabulary(vectors)[i] != CreateVocabulary(vectors)[j]
  {
    var r := CreateVocabulary(vectors);
    forall i, j | 0 <= i < j < |r|
      ensures r[i] != r[j]
    {
      StrLessIrreflexive(r[i]);
    }
  }

  /** Reordering (or repeating) the input vectors does not change the
      vocabulary: only the set of vectors matters. */
  lemma VocabularyOrderIndependent(vs: seq<TermVector>, ws: seq<TermVector>)
    requires forall v :: v in vs <==> v in ws
    ensures CreateVocabulary(vs) == CreateVocabulary(ws)
  {
    var a := CreateVocabulary(vs);
    var b := CreateVocabulary(ws);
    forall t
      ensures t in a <==> t in b
    {
      if t in a {
        var i :| 0 <= i < |vs| && t in vs[i];
        assert vs[i] in ws;
      }
      if t in b {
        var i :| 0 <= i < |ws| && t in ws[i];
        assert ws[i] in vs;
      }
    }
    StrictlySortedUnique(a, b);
  }

  /** The vocabulary of two language models is the union of their terms. */
  lemma PairVocabulary(lm1: TermVector, lm2: TermVector)
    ensures forall t :: t in CreateVocabulary([lm1, lm2]) <==> t in lm1 || t in lm2
  {
    var vs := [lm1, lm2];
    assert forall t :: (exists i :: 0 <= i < |vs| && t in vs[i]) <==> t in vs[0] || t in vs[1];
  }
}
