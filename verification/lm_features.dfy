/** Alignment of two sparse language models on a shared sorted vocabulary
    (LMFeatures.compareLanguageModels and getProbabilityVector). The
    divergence itself is a parameter. */
module LMFeatures {
  import opened Common
  import opened Text
  import FeatureUtils

  /** `Collections.binarySearch(list, key)` on a strictly sorted list: the
      index of `key` when present, otherwise `-(insertion point) - 1`. */
  method BinarySearch(a: seq<Term>, key: Term) returns (i: int)
    requires StrictlySorted(a)
    ensures 0 <= i ==> i < |a| && a[i] == key
    ensures i < 0 <==> key !in a
    ensures i < 0 ==>
      var ip := -i - 1;
      0 <= ip <= |a| &&
      (forall j :: 0 <= j < ip ==> StrLess(a[j], key)) &&
      (forall j :: ip <= j < |a| ==> StrLess(key, a[j]))
  {
    var lo, hi := 0, |a| - 1;
    while lo <= hi
      invariant 0 <= lo <= hi + 1 <= |a|
      invariant forall j :: 0 <= j < lo ==> StrLess(a[j], key)
      invariant forall j :: hi < j < |a| ==> StrLess(key, a[j])
      decreases hi - lo
    {
      var mid := (lo + hi) / 2;
      if StrLess(a[mid], key) {
        forall j | lo <= j < mid
          ensures StrLess(a[j], key)
        {
          StrLessTransitive(a[j], a[mid], key);
        }
        lo := mid + 1;
      } else if StrLess(key, a[mid]) {
        forall j | mid < j <= hi
          ensures StrLess(key, a[j])
        {
          StrLessTransitive(key, a[mid], a[j]);
        }
        hi := mid - 1;
      } else {
        StrLessTotalOrEqual(a[mid], key);
        return mid;
      }
    }
    forall j | 0 <= j < |a|
      ensures a[j] != key
    {
      StrLessIrreflexive(key);
    }
    i := -(lo + 1);
  }

  lemma StrLessTotalOrEqual(a: string, b: string)
    requires !StrLess(a, b) && !StrLess(b, a)
    ensures a == b
  {
    if a != b {
      StrLessTotal(a, b);
    }
  }

  /** The dense vector the source should produce: position `j` holds the
      weight of the `j`-th vocabulary term, 0 when `lm` lacks it. */
  function Project(lm: TermVector, vocabulary: seq<Term>): (r: seq<real>)
    ensures |r| == |vocabulary|
    ensures forall j :: 0 <= j < |r| && vocabulary[j] !in lm ==> r[j] == 0.0
    ensures forall j :: 0 <= j < |r| && vocabulary[j] in lm ==> r[j] == lm[vocabulary[j]]
  {
    seq(|vocabulary|, j requires 0 <= j < |vocabulary| => Weight(lm, vocabulary[j]))
  }

  /** `getProbabilityVector(lm, vocabulary)`: starts from an all-zero array
      of the vocabulary's length and, for each term of `lm` in whatever
      order the vector iterates, writes its weight at the index binary
      search finds; a term outside the vocabulary is skipped (the source
      prints a warning). */
  method ProbabilityVector(lm: TermVector, vocabulary: seq<Term>) returns (p: seq<real>)
    requires StrictlySorted(vocabulary)
    ensures p == Project(lm, vocabulary)
  {
    p := seq(|vocabulary|, _ => 0.0);
    var pending := lm.Keys;
    while pending != {}
      invariant pending <= lm.Keys
      invariant |p| == |vocabulary|
      invariant forall j :: 0 <= j < |p| ==>
        p[j] == if vocabulary[j] in lm.Keys - pending then lm[vocabulary[j]] else 0.0
      decreases |pending|
    {
      var term :| term in pending;
      var i := BinarySearch(vocabulary, term);
      if i >= 0 {
        UniqueIndex(vocabulary, i);
        p := p[i := lm[term]];
      }
      pending := pending - {term};
    }
  }

  /** Reading a projection back through the vocabulary. */
  function Unproject(vocabulary: seq<Term>, p: seq<real>): (r: TermVector)
    requires StrictlySorted(vocabulary) && |p| == |vocabulary|
    ensures forall t :: t in r <==> t in vocabulary
    ensures forall j :: 0 <= j < |vocabulary| ==> r[vocabulary[j]] == p[j]
  {
    IndicesUnique(vocabulary);
    map j | 0 <= j < |vocabulary| :: vocabulary[j] := p[j]
  }

  lemma IndicesUnique(vocabulary: seq<Term>)
    requires StrictlySorted(vocabulary)
    ensures forall j, k :: 0 <= j < |vocabulary| && 0 <= k < |vocabulary| && vocabulary[j] == vocabulary[k] ==> j == k
  {
    forall j | 0 <= j < |vocabulary|
      ensures forall k :: 0 <= k < |vocabulary| && vocabulary[k] == vocabulary[j] ==> k == j
    {
      UniqueIndex(vocabulary, j);
    }
  }

  /** Round trip: on a strictly sorted vocabulary covering `lm`'s terms, the
      projection loses no weight and invents none. */
  lemma ProjectRoundTrip(lm: TermVector, vocabulary: seq<Term>)
    requires StrictlySorted(vocabulary)
    requires forall t :: t in lm ==> t in vocabulary
    ensures forall t :: Weight(Unproject(vocabulary, Project(lm, vocabulary)), t) == Weight(lm, t)
  {
    var p := Project(lm, vocabulary);
    var u := Unproject(vocabulary, p);
    forall t
      ensures Weight(u, t) == Weight(lm, t)
    {
      if t in vocabulary {
        var j :| 0 <= j < |vocabulary| && vocabulary[j] == t;
        assert u[t] == p[j];
      }
    }
  }

  lemma UniqueIndex(vocabulary: seq<Term>, j: int)
    requires StrictlySorted(vocabulary) && 0 <= j < |vocabulary|
    ensures forall k :: 0 <= k < |vocabulary| && vocabulary[k] == vocabulary[j] ==> k == j
  {
    forall k | 0 <= k < |vocabulary| && vocabulary[k] == vocabulary[j]
      ensures k == j
    {
      if k != j {
        StrLessIrreflexive(vocabulary[j]);
      }
    }
  }

  /** The vocabulary and the two dense vectors `compareLanguageModels`
      hands to the divergence. */
  method Align(lm1: TermVector, lm2: TermVector) returns (vocabulary: seq<Term>, p1: seq<real>, p2: seq<real>)
    ensures vocabulary == FeatureUtils.CreateVocabulary([lm1, lm2])
    ensures StrictlySorted(vocabulary)
    ensures forall t :: t in vocabulary <==> t in lm1 || t in lm2
    ensures |p1| == |p2| == |vocabulary|
    ensures p1 == Project(lm1, vocabulary) && p2 == Project(lm2, vocabulary)
  {
    vocabulary := FeatureUtils.CreateVocabulary([lm1, lm2]);
    FeatureUtils.PairVocabulary(lm1, lm2);
    p1 := ProbabilityVector(lm1, vocabulary);
    p2 := ProbabilityVector(lm2, vocabulary);
  }

  /** Every term of either model has a vocabulary position in both aligned
      vectors, holding that model's weight. */
  lemma AlignCoversBoth(lm1: TermVector, lm2: TermVector, t: Term)
    requires t in lm1 || t in lm2
    ensures var v := FeatureUtils.CreateVocabulary([lm1, lm2]);
      exists j :: 0 <= j < |v| && v[j] == t &&
        Project(lm1, v)[j] == Weight(lm1, t) && Project(lm2, v)[j] == Weight(lm2, t)
  {
    var v := FeatureUtils.CreateVocabulary([lm1, lm2]);
    FeatureUtils.PairVocabulary(lm1, lm2);
    var j :| 0 <= j < |v| && v[j] == t;
    assert Project(lm1, v)[j] == Weight(lm1, t);
  }

  /** `compareLanguageModels(lm1, lm2, comparisonMethod)`. */
  method CompareLanguageModels(lm1: TermVector, lm2: TermVector, compare: (seq<real>, seq<real>) -> real)
    returns (d: real)
    ensures var v := FeatureUtils.CreateVocabulary([lm1, lm2]);
      d == compare(Project(lm1, v), Project(lm2, v))
  {
    var vocabulary, p1, p2 := Align(lm1, lm2);
    d := compare(p1, p2);
  }
}
