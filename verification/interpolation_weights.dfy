/** Enumeration of interpolation weights for parameter sweeps
    (InterpolationWeights.java).

    The source enumerates, with integers, every ordered n-tuple of
    non-negative integers that sums to 10, and divides each entry by 10
    afterwards so that every tuple sums to exactly 1.0. `Combinations` and
    `Loop` follow the private recursive method line for line; `Parts` is an
    independent, prefix-free reference enumeration, and `IsComposition` is
    the specification both are proved against. */
module InterpolationWeights {
  import opened Common

  /** Sum of integers (the source's private `sum`). */
  function Sum(xs: seq<int>): int {
    if |xs| == 0 then 0 else Sum(xs[..|xs| - 1]) + xs[|xs| - 1]
  }

  lemma SumAppend(xs: seq<int>, x: int)
    ensures Sum(xs + [x]) == Sum(xs) + x
  {
    assert (xs + [x])[..|xs|] == xs;
  }

  lemma {:induction false} SumPrepend(x: int, xs: seq<int>)
    ensures Sum([x] + xs) == x + Sum(xs)
    decreases |xs|
  {
    if |xs| > 0 {
      var init := xs[..|xs| - 1];
      assert ([x] + xs)[..|xs|] == [x] + init;
      SumPrepend(x, init);
    }
  }

  /** `c` writes `total` as an ordered sum of `n` non-negative parts. */
  ghost predicate IsComposition(c: seq<int>, n: int, total: int) {
    |c| == n && (forall j :: 0 <= j < |c| ==> c[j] >= 0) && Sum(c) == total
  }

  // ---------------------------------------------------------------------
  // The source's recursion

  /** `weights(n, addTo, soFar)`: with one slot left, the slot receives
      `10 - sum(soFar)`; otherwise the first free slot takes every value
      `x` in `0..addTo` in increasing order and the rest is enumerated with
      `addTo - x`. The recursion only reaches its base case when `n >= 1`;
      for `n <= 0` the Java method recurses without end. */
  function Combinations(n: int, addTo: int, soFar: seq<int>): seq<seq<int>>
    requires n >= 1
    decreases n, 1, 0
  {
    if n == 1 then [soFar + [10 - Sum(soFar)]]
    else Loop(n, addTo, soFar, 0)
  }

  /** The `for (x = ...; x <= addTo; x++)` loop of the recursive method,
      from iteration `x` on, concatenating what each iteration collects. */
  function Loop(n: int, addTo: int, soFar: seq<int>, x: int): seq<seq<int>>
    requires n >= 2
    decreases n, 0, addTo + 1 - x
  {
    if x > addTo then []
    else Combinations(n - 1, addTo - x, soFar + [x]) + Loop(n, addTo, soFar, x + 1)
  }

  // ---------------------------------------------------------------------
  // Reference enumeration

  function PrependAll(p: seq<int>, cs: seq<seq<int>>): (r: seq<seq<int>>)
    ensures |r| == |cs|
    ensures forall i :: 0 <= i < |cs| ==> r[i] == p + cs[i]
  {
    seq(|cs|, i requires 0 <= i < |cs| => p + cs[i])
  }

  /** Compositions of `total` into `n` parts, first part varying slowest. */
  function Parts(n: int, total: int): seq<seq<int>>
    requires n >= 1
    decreases n, 1, 0
  {
    if n == 1 then [[total]] else PartsFrom(n, total, 0)
  }

  function PartsFrom(n: int, total: int, x: int): seq<seq<int>>
    requires n >= 2
    decreases n, 0, total + 1 - x
  {
    if x > total then []
    else PrependAll([x], Parts(n - 1, total - x)) + PartsFrom(n, total, x + 1)
  }

  lemma PrependAllConcat(p: seq<int>, a: seq<seq<int>>, b: seq<seq<int>>)
    ensures PrependAll(p, a + b) == PrependAll(p, a) + PrependAll(p, b)
  {
  }

  lemma PrependAllTwice(p: seq<int>, x: int, cs: seq<seq<int>>)
    ensures PrependAll(p + [x], cs) == PrependAll(p, PrependAll([x], cs))
  {
    forall i | 0 <= i < |cs|
      ensures (p + [x]) + cs[i] == p + ([x] + cs[i])
    {
    }
  }

  /** The source's recursion, started with any `soFar` and the remaining
      mass `addTo` with `sum(soFar) + addTo == 10`, produces `soFar`
      followed by each composition of `addTo`: the invariant makes the base
      case's `10 - sum(soFar)` equal to `addTo`. */
  lemma {:induction false} CombinationsAreParts(n: int, addTo: int, soFar: seq<int>)
    requires n >= 1
    requires Sum(soFar) + addTo == 10
    ensures Combinations(n, addTo, soFar) == PrependAll(soFar, Parts(n, addTo))
    decreases n, 1, 0
  {
    if n > 1 {
      LoopIsPartsFrom(n, addTo, soFar, 0);
    }
  }

  lemma {:induction false} LoopIsPartsFrom(n: int, addTo: int, soFar: seq<int>, x: int)
    requires n >= 2
    requires Sum(soFar) + addTo == 10
    ensures Loop(n, addTo, soFar, x) == PrependAll(soFar, PartsFrom(n, addTo, x))
    decreases n, 0, addTo + 1 - x
  {
    if x <= addTo {
      SumAppend(soFar, x);
      CombinationsAreParts(n - 1, addTo - x, soFar + [x]);
      LoopIsPartsFrom(n, addTo, soFar, x + 1);
      PrependAllTwice(soFar, x, Parts(n - 1, addTo - x));
      PrependAllConcat(soFar, PrependAll([x], Parts(n - 1, addTo - x)), PartsFrom(n, addTo, x + 1));
    }
  }

  // ---------------------------------------------------------------------
  // Soundness and completeness

  lemma {:induction false} PartsSound(n: int, total: int)
    requires n >= 1 && total >= 0
    ensures forall c :: c in Parts(n, total) ==> IsComposition(c, n, total)
    decreases n, 1, 0
  {
    if n == 1 {
      assert Parts(n, total) == [[total]];
      assert [total][..0] == [];
      assert Sum([total]) == total;
    } else {
      PartsFromSound(n, total, 0);
    }
  }

  lemma {:induction false} PartsFromSound(n: int, total: int, x: int)
    requires n >= 2 && total >= 0 && x >= 0
    ensures forall c :: c in PartsFrom(n, total, x) ==> IsComposition(c, n, total) && c[0] >= x
    decreases n, 0, total + 1 - x
  {
    if x <= total {
      PartsSound(n - 1, total - x);
      PartsFromSound(n, total, x + 1);
      forall c | c in PrependAll([x], Parts(n - 1, total - x))
        ensures IsComposition(c, n, total) && c[0] >= x
      {
        var i :| 0 <= i < |Parts(n - 1, total - x)| && c == PrependAll([x], Parts(n - 1, total - x))[i];
        var p := Parts(n - 1, total - x)[i];
        assert p in Parts(n - 1, total - x);
        PrependSound(x, p, n, total);
        assert c == [x] + p;
      }
    }
  }

  lemma PrependSound(x: int, p: seq<int>, n: int, total: int)
    requires x >= 0 && IsComposition(p, n - 1, total - x)
    ensures IsComposition([x] + p, n, total)
  {
    SumPrepend(x, p);
    var c := [x] + p;
    forall j | 0 <= j < |c|
      ensures c[j] >= 0
    {
      if j > 0 {
        assert c[j] == p[j - 1];
      }
    }
  }

  lemma {:induction false} PartsComplete(n: int, total: int, c: seq<int>)
    requires n >= 1 && IsComposition(c, n, total)
    ensures c in Parts(n, total)
    decreases n, 1, 0
  {
    if n == 1 {
      assert c == [c[0]];
      assert Sum(c) == c[0] by { assert c[..0] == []; }
    } else {
      PartsFromComplete(n, total, 0, c);
    }
  }

  lemma {:induction false} PartsFromComplete(n: int, total: int, x: int, c: seq<int>)
    requires n >= 2 && IsComposition(c, n, total) && 0 <= x <= c[0]
    ensures c in PartsFrom(n, total, x)
    decreases n, 0, total + 1 - x
  {
    var tail := c[1..];
    assert c == [c[0]] + tail;
    SumPrepend(c[0], tail);
    SumNonNegative(tail);
    assert x <= total;
    if x == c[0] {
      PartsComplete(n - 1, total - x, tail);
      var i :| 0 <= i < |Parts(n - 1, total - x)| && Parts(n - 1, total - x)[i] == tail;
      assert PrependAll([x], Parts(n - 1, total - x))[i] == c;
    } else {
      PartsFromComplete(n, total, x + 1, c);
    }
  }

  lemma {:induction false} SumNonNegative(xs: seq<int>)
    requires forall j :: 0 <= j < |xs| ==> xs[j] >= 0
    ensures Sum(xs) >= 0
    decreases |xs|
  {
    if |xs| > 0 {
      SumNonNegative(xs[..|xs| - 1]);
    }
  }

  // ---------------------------------------------------------------------
  // Order: strictly ascending lexicographically, hence no duplicates

  predicate LexLess(a: seq<int>, b: seq<int>)
    decreases |a|
  {
    |a| > 0 && |b| > 0 && (a[0] < b[0] || (a[0] == b[0] && LexLess(a[1..], b[1..])))
  }

  lemma {:induction false} LexLessIrreflexive(a: seq<int>)
    ensures !LexLess(a, a)
    decreases |a|
  {
    if |a| > 0 {
      LexLessIrreflexive(a[1..]);
    }
  }

  predicate StrictlyAscending(cs: seq<seq<int>>) {
    forall i, j :: 0 <= i < j < |cs| ==> LexLess(cs[i], cs[j])
  }

  lemma AscendingConcat(s: seq<seq<int>>, t: seq<seq<int>>)
    requires StrictlyAscending(s) && StrictlyAscending(t)
    requires forall i, j :: 0 <= i < |s| && 0 <= j < |t| ==> LexLess(s[i], t[j])
    ensures StrictlyAscending(s + t)
  {
    forall i, j | 0 <= i < j < |s + t|
      ensures LexLess((s + t)[i], (s + t)[j])
    {
      if j < |s| {
      } else if i >= |s| {
        assert LexLess(t[i - |s|], t[j - |s|]);
      } else {
        assert LexLess(s[i], t[j - |s|]);
      }
    }
  }

  lemma PrependKeepsOrder(x: int, cs: seq<seq<int>>)
    requires StrictlyAscending(cs)
    ensures StrictlyAscending(PrependAll([x], cs))
  {
    var r := PrependAll([x], cs);
    forall i, j | 0 <= i < j < |r|
      ensures LexLess(r[i], r[j])
    {
      assert r[i][1..] == cs[i];
      assert r[j][1..] == cs[j];
    }
  }

  lemma {:induction false} PartsAscending(n: int, total: int)
    requires n >= 1 && total >= 0
    ensures StrictlyAscending(Parts(n, total))
    decreases n, 1, 0
  {
    if n > 1 {
      PartsFromAscending(n, total, 0);
    }
  }

  lemma {:induction false} PartsFromAscending(n: int, total: int, x: int)
    requires n >= 2 && total >= 0 && x >= 0
    ensures StrictlyAscending(PartsFrom(n, total, x))
    decreases n, 0, total + 1 - x
  {
    if x <= total {
      var block := PrependAll([x], Parts(n - 1, total - x));
      var rest := PartsFrom(n, total, x + 1);
      PartsAscending(n - 1, total - x);
      PrependKeepsOrder(x, Parts(n - 1, total - x));
      PartsFromAscending(n, total, x + 1);
      PartsFromSound(n, total, x + 1);
      forall i, j | 0 <= i < |block| && 0 <= j < |rest|
        ensures LexLess(block[i], rest[j])
      {
        assert rest[j] in rest;
      }
      AscendingConcat(block, rest);
    }
  }

  // ---------------------------------------------------------------------
  // Count: stars and bars

  /** Binomial coefficient by Pascal's rule. */
  function Binom(m: nat, k: nat): nat
    decreases m
  {
    if k == 0 then 1 else if m == 0 then 0 else Binom(m - 1, k - 1) + Binom(m - 1, k)
  }

  lemma {:induction false} BinomAbove(m: nat, k: nat)
    requires k > m
    ensures Binom(m, k) == 0
    decreases m
  {
    if m > 0 {
      BinomAbove(m - 1, k - 1);
      BinomAbove(m - 1, k);
    }
  }

  lemma {:induction false} BinomOne(m: nat)
    ensures Binom(m, 1) == m
    decreases m
  {
    if m > 0 {
      BinomOne(m - 1);
    }
  }

  lemma {:induction false} BinomTwo(m: nat)
    ensures 2 * Binom(m, 2) == m * (m - 1)
    decreases m
  {
    if m > 0 {
      BinomTwo(m - 1);
      BinomOne(m - 1);
    }
  }

  lemma {:induction false} PartsCount(n: int, total: int)
    requires n >= 1 && total >= 0
    ensures |Parts(n, total)| == Binom(total + n - 1, n - 1)
    decreases n, 1, 0
  {
    if n > 1 {
      PartsFromCount(n, total, 0);
    }
  }

  lemma {:induction false} PartsFromCount(n: int, total: int, x: int)
    requires n >= 2 && total >= 0 && 0 <= x <= total + 1
    ensures |PartsFrom(n, total, x)| == Binom(total - x + n - 1, n - 1)
    decreases n, 0, total + 1 - x
  {
    if x > total {
      BinomAbove(n - 2, n - 1);
    } else {
      PartsCount(n - 1, total - x);
      PartsFromCount(n, total, x + 1);
    }
  }

  // ---------------------------------------------------------------------
  // The public method

  function Tenths(c: seq<int>): (r: seq<real>)
    ensures |r| == |c|
    ensures forall j :: 0 <= j < |c| ==> r[j] == c[j] as real / 10.0
  {
    seq(|c|, j requires 0 <= j < |c| => c[j] as real / 10.0)
  }

  lemma {:induction false} TenthsSum(c: seq<int>)
    ensures SumReals(Tenths(c)) == Sum(c) as real / 10.0
    decreases |c|
  {
    if |c| > 0 {
      var init := c[..|c| - 1];
      assert Tenths(c)[..|c| - 1] == Tenths(init);
      TenthsSum(init);
    }
  }

  /** A weight the source can produce: a non-negative multiple of 0.1. */
  predicate IsTenth(w: real) {
    w >= 0.0 && (10.0 * w).Floor as real == 10.0 * w
  }

  /** Strict lexicographic order on weight tuples. */
  predicate LexLessReal(a: seq<real>, b: seq<real>)
    decreases |a|
  {
    |a| > 0 && |b| > 0 && (a[0] < b[0] || (a[0] == b[0] && LexLessReal(a[1..], b[1..])))
  }

  lemma {:induction false} TenthsKeepOrder(a: seq<int>, b: seq<int>)
    requires LexLess(a, b)
    ensures LexLessReal(Tenths(a), Tenths(b))
    decreases |a|
  {
    if a[0] == b[0] {
      assert Tenths(a)[1..] == Tenths(a[1..]);
      assert Tenths(b)[1..] == Tenths(b[1..]);
      TenthsKeepOrder(a[1..], b[1..]);
    }
  }

  /** `weights(n)`: every weight tuple of length `n` whose entries are
      multiples of 0.1 summing to exactly 1.0, each exactly once, in
      ascending lexicographic order; there are C(n+9, n-1) of them. */
  function Weights(n: int): (r: seq<seq<real>>)
    requires n >= 1
    ensures |r| == Binom(n + 9, n - 1)
    ensures forall i :: 0 <= i < |r| ==> |r[i]| == n && SumReals(r[i]) == 1.0
    ensures forall i, j :: 0 <= i < |r| && 0 <= j < |r[i]| ==> IsTenth(r[i][j]) && r[i][j] <= 1.0
    ensures forall i, k :: 0 <= i < k < |r| ==> LexLessReal(r[i], r[k])
  {
    TableFacts(n);
    Table(n)
  }

  /** Each integer composition produced by the recursion, divided by 10. */
  function Table(n: int): seq<seq<real>>
    requires n >= 1
  {
    var cs := Combinations(n, 10, []);
    seq(|cs|, i requires 0 <= i < |cs| => Tenths(cs[i]))
  }

  lemma TableFacts(n: int)
    requires n >= 1
    ensures |Table(n)| == Binom(n + 9, n - 1)
    ensures forall i :: 0 <= i < |Table(n)| ==> |Table(n)[i]| == n && SumReals(Table(n)[i]) == 1.0
    ensures forall i, j :: 0 <= i < |Table(n)| && 0 <= j < |Table(n)[i]| ==> IsTenth(Table(n)[i][j]) && Table(n)[i][j] <= 1.0
    ensures forall i, k :: 0 <= i < k < |Table(n)| ==> LexLessReal(Table(n)[i], Table(n)[k])
  {
    var cs := Combinations(n, 10, []);
    CombinationsAreParts(n, 10, []);
    assert forall i :: 0 <= i < |cs| ==> cs[i] == Parts(n, 10)[i];
    PartsSound(n, 10);
    PartsAscending(n, 10);
    PartsCount(n, 10);
    var r := Table(n);
    forall i | 0 <= i < |r|
      ensures |r[i]| == n && SumReals(r[i]) == 1.0
      ensures forall j :: 0 <= j < n ==> IsTenth(r[i][j]) && r[i][j] <= 1.0
    {
      assert cs[i] in Parts(n, 10);
      TenthsSum(cs[i]);
      forall j | 0 <= j < n
        ensures IsTenth(r[i][j]) && r[i][j] <= 1.0
      {
        PartBounded(cs[i], j);
        assert 10.0 * r[i][j] == cs[i][j] as real;
      }
    }
    forall i, k | 0 <= i < k < |r|
      ensures LexLessReal(r[i], r[k])
    {
      TenthsKeepOrder(cs[i], cs[k]);
    }
  }

  lemma {:induction false} PartBounded(c: seq<int>, j: int)
    requires forall i :: 0 <= i < |c| ==> c[i] >= 0
    requires 0 <= j < |c|
    ensures c[j] <= Sum(c)
    decreases |c|
  {
    var init := c[..|c| - 1];
    SumNonNegative(init);
    if j < |c| - 1 {
      PartBounded(init, j);
    }
  }

  /** Completeness of `weights(n)`: every tuple of `n` non-negative
      multiples of 0.1 summing to 1.0 is produced. */
  lemma WeightsComplete(n: int, w: seq<real>)
    requires n >= 1 && |w| == n
    requires forall j :: 0 <= j < n ==> IsTenth(w[j])
    requires SumReals(w) == 1.0
    ensures w in Weights(n)
  {
    var c := seq(n, j requires 0 <= j < n => (10.0 * w[j]).Floor);
    assert Tenths(c) == w;
    TenthsSum(c);
    assert IsComposition(c, n, 10);
    PartsComplete(n, 10, c);
    CombinationsAreParts(n, 10, []);
    var i :| 0 <= i < |Parts(n, 10)| && Parts(n, 10)[i] == c;
    assert Combinations(n, 10, [])[i] == c;
    assert Weights(n)[i] == Tenths(c);
  }

  /** No tuple occurs twice. */
  lemma WeightsDistinct(n: int)
    requires n >= 1
    ensures forall i, k :: 0 <= i < k < |Weights(n)| ==> Weights(n)[i] != Weights(n)[k]
  {
    var r := Weights(n);
    forall i, k | 0 <= i < k < |r|
      ensures r[i] != r[k]
    {
      if r[i] == r[k] {
        LexLessRealIrreflexive(r[i]);
      }
    }
  }

  lemma {:induction false} LexLessRealIrreflexive(a: seq<real>)
    ensures !LexLessReal(a, a)
    decreases |a|
  {
    if |a| > 0 {
      LexLessRealIrreflexive(a[1..]);
    }
  }

  /** The counts the sweeps rely on: 1, 11 and 66 tuples for n = 1, 2, 3. */
  lemma SmallCounts()
    ensures |Weights(1)| == 1 && |Weights(2)| == 11 && |Weights(3)| == 66
  {
    BinomOne(11);
    BinomTwo(12);
  }

  /** For two distributions the i-th tuple is (i/10, 1 - i/10). Stated
      for a symbolic `n` so that the solver does not unfold the enumeration
      for a literal argument. */
  lemma WeightsOfTwo(n: int, i: int)
    requires n == 2 && 0 <= i <= 10
    ensures |Weights(n)| == 11
    ensures Weights(n)[i] == [i as real / 10.0, (10 - i) as real / 10.0]
  {
    PairCount(n);
    PairOfTenths(n, 10, i);
  }

  lemma PairCount(n: int)
    requires n == 2
    ensures |Table(n)| == 11
  {
    TableFacts(n);
    BinomOne(n + 9);
  }

  lemma PairOfTenths(n: int, total: int, i: int)
    requires n == 2 && total == 10 && 0 <= i <= total
    ensures |Table(n)| > i && Table(n)[i] == [i as real / 10.0, (total - i) as real / 10.0]
  {
    PairComposition(n, total, i);
    var c := [i, total - i];
    assert Table(n)[i] == Tenths(c);
  }

  /** The source's recursion for two slots yields (i, 10 - i) at position i. */
  lemma PairComposition(n: int, total: int, i: int)
    requires n == 2 && total == 10 && 0 <= i <= total
    ensures |Combinations(n, total, [])| > i && Combinations(n, total, [])[i] == [i, total - i]
  {
    CombinationsAreParts(n, total, []);
    PairParts(n, total, i);
  }

  lemma PairParts(n: int, total: int, i: int)
    requires n == 2 && 0 <= i <= total
    ensures |Parts(n, total)| > i && Parts(n, total)[i] == [i, total - i]
  {
    PairsFrom(n, total, 0, i);
  }

  lemma {:induction false} PairsFrom(n: int, total: int, x: int, i: int)
    requires n == 2 && 0 <= x && 0 <= i && x + i <= total
    ensures |PartsFrom(n, total, x)| == total + 1 - x
    ensures PartsFrom(n, total, x)[i] == [x + i, total - x - i]
    decreases total + 1 - x
  {
    if i == 0 {
      if x + 1 <= total {
        PairsFrom(n, total, x + 1, 0);
      } else {
        assert PartsFrom(n, total, x + 1) == [];
      }
    } else {
      PairsFrom(n, total, x + 1, i - 1);
    }
  }
}
