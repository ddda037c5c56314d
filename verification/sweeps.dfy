/** The parameter sweeps of the retrieval drivers
    (main/RunExpandedRMRetrievalWithGivenExpansionDocs.java,
    main/RunExpandedRetrievalWithGivenExpansionDocs.java): counted loops,
    the interpolation list handed to the relevance-model builder, the
    in-place clipping of the relevance model, and the scorer weights. */
module Sweeps {
  import opened Common
  import Parsers
  import InterpolationWeights

  /** `for (x = lo; x <= hi; x += step)`. A step that is not positive never
      ends the loop. */
  function Ascending(lo: int, hi: int, step: int): (r: seq<int>)
    requires step > 0
    ensures |r| == if hi < lo then 0 else (hi - lo) / step + 1
    ensures forall i :: 0 <= i < |r| ==> r[i] == lo + i * step && lo <= r[i] <= hi
    decreases hi - lo
  {
    if lo > hi then []
    else
      var rest := Ascending(lo + step, hi, step);
      StepCount(hi - lo, step);
      [lo] + rest
  }

  /** `for (x = hi; x >= lo; x -= step)`. */
  function Descending(hi: int, lo: int, step: int): (r: seq<int>)
    requires step > 0
    ensures |r| == if hi < lo then 0 else (hi - lo) / step + 1
    ensures forall i :: 0 <= i < |r| ==> r[i] == hi - i * step && lo <= r[i] <= hi
    decreases hi - lo
  {
    if hi < lo then []
    else
      var rest := Descending(hi - step, lo, step);
      StepCount(hi - lo, step);
      [hi] + rest
  }

  lemma StepCount(d: int, step: int)
    requires d >= 0 && step > 0
    ensures d < step ==> d / step == 0
    ensures d >= step ==> (d - step) / step + 1 == d / step
  {
    if d < step {
      DivUnique(d, step, 0, d);
    } else {
      var q, m := (d - step) / step, (d - step) % step;
      assert d - step == q * step + m;
      assert d == (q + 1) * step + m;
      DivUnique(d, step, q + 1, m);
    }
  }

  /** The quotient is the only multiplier that leaves a remainder in range. */
  lemma DivUnique(x: int, step: int, a: int, b: int)
    requires step > 0 && 0 <= b < step && x == a * step + b
    ensures x / step == a
  {
    var q, m := x / step, x % step;
    assert x == q * step + m;
    if q != a {
      var k := if q > a then q - a else a - q;
      Distribute(q, a, step);
      AtLeastOneStep(k, step);
    }
  }

  lemma Distribute(q: int, a: int, step: int)
    ensures (q - a) * step == q * step - a * step
    ensures (a - q) * step == a * step - q * step
  {
  }

  lemma AtLeastOneStep(k: int, step: int)
    requires k >= 1 && step > 0
    ensures k * step >= step
  {
  }

  predicate NonIncreasing(s: seq<int>) {
    forall i, j :: 0 <= i < j < |s| ==> s[j] <= s[i]
  }

  lemma DescendingNonIncreasing(hi: int, lo: int, step: int)
    requires step > 0
    ensures NonIncreasing(Descending(hi, lo, step))
  {
    var r := Descending(hi, lo, step);
    forall i, j | 0 <= i < j < |r|
      ensures r[j] <= r[i]
    {
      assert j * step >= i * step;
    }
  }

  /** `fbOrigWeightInt / 10.0` for `fbOrigWeightInt` from 0 to 10: eleven
      tenths rising from 0.0 to 1.0. */
  function FeedbackOrigWeights(): (r: seq<real>)
    ensures |r| == 11 && r[0] == 0.0 && r[10] == 1.0
    ensures forall i, j :: 0 <= i < j < |r| ==> r[i] < r[j]
    ensures forall i :: 0 <= i < |r| ==> InterpolationWeights.IsTenth(r[i]) && r[i] <= 1.0
  {
    var counts := Ascending(0, 10, 1);
    var r := InterpolationWeights.Tenths(counts);
    forall i | 0 <= i < |r|
      ensures InterpolationWeights.IsTenth(r[i])
    {
      assert 10.0 * r[i] == i as real;
    }
    r
  }

  /** The interpolation list of the relevance-model run: the original
      document's weight inserted in front of the expansion weights. */
  function InterpolationList(p: Parsers.Parameters): (r: seq<real>)
    ensures |r| == |p.expWeights| + 1
    ensures r[0] == p.origWeight && r[1..] == p.expWeights
  {
    [p.origWeight] + p.expWeights
  }

  /** With no stored optimum, the original model gets weight 1.0 and the
      one expansion model weight 0.0. */
  lemma DefaultInterpolationList()
    ensures InterpolationList(Parsers.Defaults) == [1.0, 0.0]
  {
  }

  /** `FeatureVector.clip(k)` keeps the `k` heaviest terms; what is assumed
      of it here is only that clipping to a size no larger than before is
      the same as clipping the original to that size. */
  ghost predicate ClipsCompose(clip: (TermVector, int) -> TermVector) {
    forall v, a, b :: b <= a ==> clip(clip(v, a), b) == clip(v, b)
  }

  /** The vector after each in-place `clip` of the fbTerms loop. */
  function ClipSweep(v: TermVector, sizes: seq<int>, clip: (TermVector, int) -> TermVector): (r: seq<TermVector>)
    ensures |r| == |sizes|
    decreases |sizes|
  {
    if |sizes| == 0 then []
    else
      var first := clip(v, sizes[0]);
      [first] + ClipSweep(first, sizes[1..], clip)
  }

  lemma {:induction false} ClipSweepAfter(v: TermVector, a: int, sizes: seq<int>, clip: (TermVector, int) -> TermVector)
    requires ClipsCompose(clip) && NonIncreasing(sizes)
    requires forall i :: 0 <= i < |sizes| ==> sizes[i] <= a
    ensures forall i :: 0 <= i < |sizes| ==> ClipSweep(clip(v, a), sizes, clip)[i] == clip(v, sizes[i])
    decreases |sizes|
  {
    if |sizes| > 0 {
      var r := ClipSweep(clip(v, a), sizes, clip);
      assert clip(clip(v, a), sizes[0]) == clip(v, sizes[0]);
      ClipSweepAfter(v, sizes[0], sizes[1..], clip);
      forall i | 1 <= i < |sizes|
        ensures r[i] == clip(v, sizes[i])
      {
        assert r[i] == ClipSweep(clip(v, sizes[0]), sizes[1..], clip)[i - 1];
      }
    }
  }

  /** Because fbTerms only descends, clipping one relevance model in place
      gives at every step the model clipped afresh to that many terms. */
  lemma InPlaceClipsAreFresh(v: TermVector, maxTerms: int, minTerms: int, step: int,
                              clip: (TermVector, int) -> TermVector)
    requires step > 0 && ClipsCompose(clip)
    ensures var sizes := Descending(maxTerms, minTerms, step);
      forall i :: 0 <= i < |sizes| ==> ClipSweep(v, sizes, clip)[i] == clip(v, sizes[i])
  {
    DescendingNonIncreasing(maxTerms, minTerms, step);
    ClipSweepFresh(v, Descending(maxTerms, minTerms, step), clip);
  }

  /** Over any non-increasing size list, each in-place clip equals a fresh one. */
  lemma {:induction false} ClipSweepFresh(v: TermVector, sizes: seq<int>, clip: (TermVector, int) -> TermVector)
    requires ClipsCompose(clip) && NonIncreasing(sizes)
    ensures forall i :: 0 <= i < |sizes| ==> ClipSweep(v, sizes, clip)[i] == clip(v, sizes[i])
  {
    if |sizes| > 0 {
      ClipSweepAfter(v, sizes[0], sizes[1..], clip);
      var r := ClipSweep(v, sizes, clip);
      forall i | 1 <= i < |sizes|
        ensures r[i] == clip(v, sizes[i])
      {
        assert r[i] == ClipSweep(clip(v, sizes[0]), sizes[1..], clip)[i - 1];
      }
    }
  }

  /** The two scorers of the interpolated run. */
  datatype Scorer = Dirichlet | Expansion

  /** One setting of the expansion run: the expansion scorer's document
      count and the two interpolation weights. */
  datatype Setting = Setting(numDocs: int, origWeight: real, expWeight: real)

  /** For each document count, every weight pair in enumeration order. */
  function Settings(docCounts: seq<int>, pairs: seq<seq<real>>): (r: seq<Setting>)
    requires forall j :: 0 <= j < |pairs| ==> |pairs[j]| == 2
    ensures |r| == |docCounts| * |pairs|
    ensures forall s :: s in r ==> s.numDocs in docCounts && exists j :: 0 <= j < |pairs| && pairs[j] == [s.origWeight, s.expWeight]
    ensures forall i, j :: 0 <= i < |docCounts| && 0 <= j < |pairs| ==>
      Setting(docCounts[i], pairs[j][0], pairs[j][1]) in r
    decreases |docCounts|
  {
    if |docCounts| == 0 then []
    else
      var here := seq(|pairs|, j requires 0 <= j < |pairs| => Setting(docCounts[0], pairs[j][0], pairs[j][1]));
      var rest := Settings(docCounts[1..], pairs);
      DrawnPrepended(docCounts, pairs, here, rest);
      CombinationsPrepended(docCounts, pairs, here, rest);
      here + rest
  }

  /** Putting the first document count's row of settings in front of the
      rest keeps every setting drawn from the inputs. */
  lemma DrawnPrepended(docCounts: seq<int>, pairs: seq<seq<real>>, here: seq<Setting>, rest: seq<Setting>)
    requires |docCounts| > 0 && forall j :: 0 <= j < |pairs| ==> |pairs[j]| == 2
    requires |here| == |pairs| && forall j :: 0 <= j < |pairs| ==> here[j] == Setting(docCounts[0], pairs[j][0], pairs[j][1])
    requires forall s :: s in rest ==>
      (s.numDocs in docCounts[1..] && exists j :: 0 <= j < |pairs| && pairs[j] == [s.origWeight, s.expWeight])
    ensures forall s :: s in here + rest ==>
      (s.numDocs in docCounts && exists j :: 0 <= j < |pairs| && pairs[j] == [s.origWeight, s.expWeight])
  {
    forall s | s in here + rest
      ensures s.numDocs in docCounts && exists j :: 0 <= j < |pairs| && pairs[j] == [s.origWeight, s.expWeight]
    {
      if s in here {
        var j :| 0 <= j < |here| && here[j] == s;
        assert pairs[j] == [pairs[j][0], pairs[j][1]];
        assert docCounts[0] in docCounts;
      } else {
        assert s in rest;
        assert s.numDocs in docCounts[1..];
      }
    }
  }

  /** Putting the first document count's row of settings in front of the
      rest keeps every (count, pair) combination. */
  lemma CombinationsPrepended(docCounts: seq<int>, pairs: seq<seq<real>>, here: seq<Setting>, rest: seq<Setting>)
    requires |docCounts| > 0 && forall j :: 0 <= j < |pairs| ==> |pairs[j]| == 2
    requires |here| == |pairs| && forall j :: 0 <= j < |pairs| ==> here[j] == Setting(docCounts[0], pairs[j][0], pairs[j][1])
    requires forall i, j :: 0 <= i < |docCounts[1..]| && 0 <= j < |pairs| ==>
      Setting(docCounts[1..][i], pairs[j][0], pairs[j][1]) in rest
    ensures forall i, j :: 0 <= i < |docCounts| && 0 <= j < |pairs| ==>
      Setting(docCounts[i], pairs[j][0], pairs[j][1]) in here + rest
  {
    forall i, j | 0 <= i < |docCounts| && 0 <= j < |pairs|
      ensures Setting(docCounts[i], pairs[j][0], pairs[j][1]) in here + rest
    {
      if i == 0 {
        assert (here + rest)[j] == here[j];
      } else {
        assert docCounts[1..][i - 1] == docCounts[i];
      }
    }
  }

  /** The sweep of RunExpandedRetrievalWithGivenExpansionDocs. */
  function ExpansionSweep(minDocs: int, maxDocs: int, interval: int): (r: seq<Setting>)
    requires interval > 0
    ensures |r| == |Ascending(minDocs, maxDocs, interval)| * 11
    ensures forall i, j :: 0 <= i < |Ascending(minDocs, maxDocs, interval)| && 0 <= j <= 10 ==>
      Setting(Ascending(minDocs, maxDocs, interval)[i], Tenth(j), Tenth(10 - j)) in r
  {
    InterpolationWeights.BinomOne(11);
    var counts := Ascending(minDocs, maxDocs, interval);
    var w := InterpolationWeights.Weights(2);
    TenthPairsAll(counts, w, Settings(counts, w));
    Settings(counts, w)
  }

  /** `j / 10.0`: the j-th tenth. */
  function Tenth(j: int): real {
    j as real / 10.0
  }

  /** Every document count meets each of the eleven pairs (i/10, (10-i)/10). */
  lemma TenthPairsAll(counts: seq<int>, w: seq<seq<real>>, r: seq<Setting>)
    requires w == InterpolationWeights.Weights(2)
    requires forall j :: 0 <= j < |w| ==> |w[j]| == 2
    requires forall i, j :: 0 <= i < |counts| && 0 <= j < |w| ==> Setting(counts[i], w[j][0], w[j][1]) in r
    ensures forall i, j :: 0 <= i < |counts| && 0 <= j <= 10 ==>
      Setting(counts[i], Tenth(j), Tenth(10 - j)) in r
  {
    forall i, j | 0 <= i < |counts| && 0 <= j <= 10
      ensures Setting(counts[i], Tenth(j), Tenth(10 - j)) in r
    {
      InterpolationWeights.WeightsOfTwo(2, j);
      assert Setting(counts[i], w[j][0], w[j][1]) in r;
    }
  }

  /** Every setting splits the weight between the two scorers, in tenths,
      and asks for no more expansion documents than the expander was set
      up to hold. */
  lemma SweepSettingsValid(minDocs: int, maxDocs: int, interval: int)
    requires interval > 0
    ensures forall s :: s in ExpansionSweep(minDocs, maxDocs, interval) ==>
      s.origWeight + s.expWeight == 1.0 && 0.0 <= s.origWeight <= 1.0 && 0.0 <= s.expWeight <= 1.0 &&
      minDocs <= s.numDocs <= maxDocs
  {
    var w := InterpolationWeights.Weights(2);
    forall s | s in ExpansionSweep(minDocs, maxDocs, interval)
      ensures s.origWeight + s.expWeight == 1.0 && 0.0 <= s.origWeight <= 1.0 && 0.0 <= s.expWeight <= 1.0
    {
      var j :| 0 <= j < |w| && w[j] == [s.origWeight, s.expWeight];
      assert SumReals(w[j]) == 1.0;
      assert SumReals(w[j]) == SumReals([s.origWeight]) + s.expWeight;
      assert InterpolationWeights.IsTenth(w[j][0]) && InterpolationWeights.IsTenth(w[j][1]);
    }
  }

  /** `scorers.put(dirichletScorer, w0); scorers.put(expansionScorer, w1)`. */
  function PutWeights(scorers: map<Scorer, real>, s: Setting): (r: map<Scorer, real>)
    ensures r.Keys == scorers.Keys + {Dirichlet, Expansion}
    ensures r[Dirichlet] == s.origWeight && r[Expansion] == s.expWeight
  {
    scorers[Dirichlet := s.origWeight][Expansion := s.expWeight]
  }

  /** The scorer map after the settings so far, starting empty. */
  function ScorersAfter(settings: seq<Setting>): map<Scorer, real>
    decreases |settings|
  {
    if |settings| == 0 then map[] else PutWeights(ScorersAfter(settings[..|settings| - 1]), settings[|settings| - 1])
  }

  /** Re-putting the same two scorers never grows the map: after any
      setting it holds exactly that setting's two weights. */
  lemma ScorersHoldLastSetting(settings: seq<Setting>)
    requires |settings| > 0
    ensures var last := settings[|settings| - 1];
      ScorersAfter(settings) == map[Dirichlet := last.origWeight, Expansion := last.expWeight]
  {
    var m := ScorersAfter(settings);
    assert forall k :: k in m ==> k == Dirichlet || k == Expansion;
  }
}
