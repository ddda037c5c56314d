/** Shared vocabulary of the model: optional values, Java double quotients,
    sparse term vectors and search hits.

    Modelling assumptions stated once here:
    - a term vector (the library's FeatureVector) is a finite map from term to
      weight, and a term that is not a key reads as weight 0;
    - a search hit (SearchHit) carries an `ident` standing for the identity of
      the Java object: hash maps and sets keyed by hits compare identities,
      because SearchHit does not override equals;
    - a hit's stored vector is `None` when it has none or once it has been
      released (set to null); reading it (`getFeatureVector`) goes through
      `VectorOf`, which falls back on the hit's index. */
module Common {

  datatype Option<+T> = None | Some(value: T)

  /** Either a value or the exception the source would throw. */
  datatype Result<+T> = Ok(value: T) | Fail(reason: string)

  type Term = string

  /** A loop that parses each element in turn (`f` receives the element and
      its position) and stops at the first element that throws. */
  function ParseEach<T, U>(xs: seq<T>, f: (T, nat) -> Result<U>): (r: Result<seq<U>>)
    ensures r.Ok? <==> forall i :: 0 <= i < |xs| ==> f(xs[i], i).Ok?
    ensures r.Ok? ==> |r.value| == |xs|
    ensures r.Ok? ==> forall i :: 0 <= i < |xs| ==> r.value[i] == f(xs[i], i).value
    decreases |xs|
  {
    if |xs| == 0 then Ok([])
    else
      var n := |xs| - 1;
      assert forall i :: 0 <= i < n ==> xs[..n][i] == xs[i];
      match ParseEach(xs[..n], f)
      case Fail(e) => Fail(e)
      case Ok(init) =>
        match f(xs[n], n)
        case Fail(e) => Fail(e)
        case Ok(last) => Ok(init + [last])
  }

  type TermVector = map<Term, real>

  /** Weight of `t` in `v`, reading a missing key as 0. */
  function Weight(v: TermVector, t: Term): real {
    if t in v then v[t] else 0.0
  }

  datatype Hit = Hit(ident: nat, docno: string, docID: int, score: real, vector: Option<TermVector>)

  /** What each hit object finds when its vector is read while none is
      stored, by identity: an index-backed hit (IndexBackedSearchHit) loads
      its document's vector from its index, a plain SearchHit has none
      (`None`). IndexBackedSearchHit is not part of this model; loading on
      demand is what the drivers rely on when they read vectors of hits
      they built from a docno or docID alone. */
  type Loader = nat -> Option<TermVector>

  /** `getFeatureVector()`: the stored vector, otherwise the loaded one. */
  function VectorOf(h: Hit, load: Loader): Option<TermVector> {
    if h.vector.Some? then h.vector else load(h.ident)
  }

  /** A hit whose stored vector, if it has one, is the one its index holds:
      the case of every hit read from an index. */
  predicate FromIndex(h: Hit, load: Loader) {
    h.vector.None? || h.vector == load(h.ident)
  }

  /** A double produced by one division, as Java computes it. */
  datatype Dbl = Num(v: real) | NaN | PosInf | NegInf

  /** `a / b` in IEEE arithmetic with exact real operands. */
  function Div(a: real, b: real): (r: Dbl)
    ensures b != 0.0 ==> r == Num(a / b)
    ensures b == 0.0 ==> (r.NaN? <==> a == 0.0)
    ensures r.PosInf? <==> b == 0.0 && a > 0.0
  {
    if b != 0.0 then Num(a / b)
    else if a == 0.0 then NaN
    else if a > 0.0 then PosInf
    else NegInf
  }

  /** IEEE addition lifted to `Dbl`. */
  function Plus(a: Dbl, b: Dbl): Dbl {
    match (a, b)
    case (Num(x), Num(y)) => Num(x + y)
    case (NaN, _) => NaN
    case (_, NaN) => NaN
    case (PosInf, NegInf) => NaN
    case (NegInf, PosInf) => NaN
    case (PosInf, _) => PosInf
    case (_, PosInf) => PosInf
    case _ => NegInf
  }

  /** IEEE division of a `Dbl` by an exact count. */
  function DivBy(a: Dbl, n: real): Dbl {
    match a
    case Num(x) => Div(x, n)
    case NaN => NaN
    case PosInf => if n > 0.0 then PosInf else if n < 0.0 then NegInf else PosInf
    case NegInf => if n > 0.0 then NegInf else if n < 0.0 then PosInf else NegInf
  }

  function Min(a: int, b: int): int { if a <= b then a else b }

  function Max(a: int, b: int): int { if a >= b then a else b }

  /** The first `min(k, |s|)` elements of `s`; nothing when `k <= 0`.
      This is both `croppedHits` and `SearchHits.crop` (assumed to keep a prefix). */
  function Crop<T>(s: seq<T>, k: int): (r: seq<T>)
    ensures |r| == if k <= 0 then 0 else Min(k, |s|)
    ensures r <= s
  {
    if k <= 0 then [] else s[..Min(k, |s|)]
  }

  /** Cropping twice keeps the shorter prefix. */
  lemma CropTwice<T>(s: seq<T>, k1: int, k2: int)
    ensures Crop(Crop(s, k1), k2) == Crop(s, Min(k1, k2))
  {
    if k1 > 0 && k2 > 0 {
      assert Crop(Crop(s, k1), k2) == s[..Min(k1, |s|)][..Min(k2, Min(k1, |s|))];
    }
  }

  /** Kotlin's `toSet()` read back as a sequence: the distinct elements in
      order of first occurrence, as a LinkedHashSet keeps them. */
  function Dedup<T(==,!new)>(xs: seq<T>): (r: seq<T>)
    ensures forall x :: x in r <==> x in xs
    ensures forall i, j :: 0 <= i < j < |r| ==> r[i] != r[j]
    decreases |xs|
  {
    if |xs| == 0 then []
    else
      var init := Dedup(xs[..|xs| - 1]);
      var last := xs[|xs| - 1];
      assert forall x :: x in xs <==> x in xs[..|xs| - 1] || x == last;
      if last in init then init else init + [last]
  }

  /** Sum of a sequence of reals, left to right. */
  function SumReals(xs: seq<real>): real {
    if |xs| == 0 then 0.0 else SumReals(xs[..|xs| - 1]) + xs[|xs| - 1]
  }

  /** Removes the terms of `stopwords` (Stopper.applyStopper, assumed to delete stopwords). */
  function Stop(v: TermVector, stopwords: set<Term>): (r: TermVector)
    ensures r.Keys == v.Keys - stopwords
    ensures forall t :: t in r ==> r[t] == v[t]
  {
    map t | t in v && t !in stopwords :: v[t]
  }

  /** Term-wise sum of two vectors: what repeated FeatureVector.addTerm does
      (assumed to add onto an existing weight). */
  function AddVectors(a: TermVector, b: TermVector): (r: TermVector)
    ensures r.Keys == a.Keys + b.Keys
  {
    map t | t in a.Keys + b.Keys :: Weight(a, t) + Weight(b, t)
  }

  lemma AddVectorsWeight(a: TermVector, b: TermVector, t: Term)
    ensures Weight(AddVectors(a, b), t) == Weight(a, t) + Weight(b, t)
  {
  }

  /** Scales every weight of `v` by `c`. */
  function Scale(v: TermVector, c: real): (r: TermVector)
    ensures r.Keys == v.Keys
  {
    map t | t in v :: c * v[t]
  }

  lemma ScaleWeight(v: TermVector, c: real, t: Term)
    ensures Weight(Scale(v, c), t) == c * Weight(v, t)
  {
  }

  /** `FeatureVector.addTerm(t, w)`: adds `w` onto the current weight of `t`
      (assumed; FeatureVector is not part of this model). */
  function AddTerm(v: TermVector, t: Term, w: real): (r: TermVector)
    ensures r.Keys == v.Keys + {t}
    ensures Weight(r, t) == Weight(v, t) + w
    ensures forall u :: u != t ==> Weight(r, u) == Weight(v, u)
  {
    v[t := Weight(v, t) + w]
  }

  /** The hits with their vectors released (`setFeatureVector(null)` on
      each); everything else about each hit is kept. */
  function Release(hits: seq<Hit>): (r: seq<Hit>)
    ensures |r| == |hits|
    ensures forall i :: 0 <= i < |r| ==> r[i] == hits[i].(vector := None)
  {
    seq(|hits|, i requires 0 <= i < |hits| => hits[i].(vector := None))
  }

  /** A released hit reads back what its index holds, so for a hit whose
      vector came from its index the release changes no later read: only
      the memory is freed. */
  lemma ReleaseRereads(hits: seq<Hit>, load: Loader)
    ensures forall i :: 0 <= i < |hits| ==> VectorOf(Release(hits)[i], load) == load(hits[i].ident)
    ensures forall i :: 0 <= i < |hits| && FromIndex(hits[i], load) ==>
      VectorOf(Release(hits)[i], load) == VectorOf(hits[i], load)
    ensures forall i :: 0 <= i < |hits| ==> FromIndex(Release(hits)[i], load)
  {
  }
}
