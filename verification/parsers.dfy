/** Line formats read by the experiment drivers: the optimal-parameters
    file (utils/OptimalParameters.kt) and TREC run output
    (searchhits/SearchHitsBatchReader.kt).

    A file is its sequence of lines. `parseReal` and `parseInt` are Kotlin's
    `toDouble` and `toInt`, `None` standing for the NumberFormatException. */
module Parsers {
  import opened Common
  import opened Text

  datatype Parameters = Parameters(origWeight: real, expWeights: seq<real>, numDocs: int, numTerms: int)

  /** The values kept when no line names the query. */
  const Defaults: Parameters := Parameters(1.0, [0.0], 5, 5)

  const OriginalWeight: string := "origW"
  const ExpansionWeight: string := "expW"
  const ExpansionDocs: string := "expDocs"
  const ExpansionTerms: string := "expTerms"

  /** `first { it.startsWith(prefix) }`: the first such field, or `None`
      where Kotlin throws NoSuchElementException. */
  function FirstWithPrefix(fields: seq<string>, prefix: string): (r: Option<string>)
    ensures r.None? <==> forall i :: 0 <= i < |fields| ==> !StartsWith(fields[i], prefix)
    ensures r.Some? ==> exists i :: 0 <= i < |fields| && fields[i] == r.value && StartsWith(fields[i], prefix) &&
                                    (forall j :: 0 <= j < i ==> !StartsWith(fields[j], prefix))
    decreases |fields|
  {
    if |fields| == 0 then None
    else if StartsWith(fields[0], prefix) then Some(fields[0])
    else
      var rest := FirstWithPrefix(fields[1..], prefix);
      assert forall i :: 1 <= i < |fields| ==> fields[i] == fields[1..][i - 1];
      rest
  }

  /** `split(":").last()`: the text after the last ':', or the whole field. */
  function AfterLastColon(field: string): (r: string)
    ensures ':' !in r
    ensures ':' !in field ==> r == field
  {
    SplitWithoutSeparator(field, ':');
    var pieces := KotlinSplit(field, ':');
    pieces[|pieces| - 1]
  }

  /** `filter { it.startsWith(prefix) }`: the fields with the prefix, in
      their order. */
  function WithPrefix(fields: seq<string>, prefix: string): (r: seq<string>)
    ensures |r| <= |fields|
    ensures forall f :: f in r <==> f in fields && StartsWith(f, prefix)
    decreases |fields|
  {
    if |fields| == 0 then []
    else
      var init := fields[..|fields| - 1];
      var last := fields[|fields| - 1];
      assert forall f :: f in fields <==> f in init || f == last;
      WithPrefix(init, prefix) + (if StartsWith(last, prefix) then [last] else [])
  }

  /** `filter { it.startsWith("expW") }.map { it.split(":").last().toDouble() }`:
      it fails exactly when some `expW` field does not parse, and otherwise
      holds the `i`-th `expW` field's value at position `i`. */
  function ExpansionWeights(fields: seq<string>, parseReal: string -> Option<real>): (r: Result<seq<real>>)
    ensures r.Ok? <==> forall i :: 0 <= i < |fields| && StartsWith(fields[i], ExpansionWeight) ==>
                                     parseReal(AfterLastColon(fields[i])).Some?
    ensures r.Ok? ==> var named := WithPrefix(fields, ExpansionWeight);
      |r.value| == |named| && forall i :: 0 <= i < |named| ==> parseReal(AfterLastColon(named[i])) == Some(r.value[i])
    decreases |fields|
  {
    if |fields| == 0 then Ok([])
    else match ExpansionWeights(fields[..|fields| - 1], parseReal)
      case Fail(e) =>
        assert forall i :: 0 <= i < |fields| - 1 ==> fields[..|fields| - 1][i] == fields[i];
        Fail(e)
      case Ok(init) =>
        var last := fields[|fields| - 1];
        assert forall i :: 0 <= i < |fields| - 1 ==> fields[..|fields| - 1][i] == fields[i];
        if !StartsWith(last, ExpansionWeight) then Ok(init)
        else match parseReal(AfterLastColon(last))
          case None => Fail("NumberFormatException: " + last)
          case Some(w) => Ok(init + [w])
  }

  /** A value named by the first field with `prefix`, parsed; missing or
      malformed values throw. */
  function Named<T>(fields: seq<string>, prefix: string, parse: string -> Option<T>): (r: Result<T>)
    ensures r.Ok? <==> FirstWithPrefix(fields, prefix).Some? && parse(AfterLastColon(FirstWithPrefix(fields, prefix).value)).Some?
    ensures r.Ok? ==> r.value == parse(AfterLastColon(FirstWithPrefix(fields, prefix).value)).value
  {
    match FirstWithPrefix(fields, prefix)
    case None => Fail("NoSuchElementException: no field " + prefix)
    case Some(field) =>
      match parse(AfterLastColon(field))
      case None => Fail("NumberFormatException: " + field)
      case Some(v) => Ok(v)
  }

  /** The parameters of a matching line: its second space-separated token,
      trimmed and split on ','. */
  function ParseParameters(parts: seq<string>, parseReal: string -> Option<real>, parseInt: string -> Option<int>)
    : (r: Result<Parameters>)
    ensures |parts| < 2 ==> r.Fail?
    ensures |parts| >= 2 ==>
      var fields := KotlinSplit(Trim(parts[1]), ',');
      (r.Ok? <==> Named(fields, OriginalWeight, parseReal).Ok? && Named(fields, ExpansionDocs, parseInt).Ok? &&
                  Named(fields, ExpansionTerms, parseInt).Ok? && ExpansionWeights(fields, parseReal).Ok?) &&
      (r.Ok? ==> r.value == Parameters(Named(fields, OriginalWeight, parseReal).value, ExpansionWeights(fields, parseReal).value,
                                       Named(fields, ExpansionDocs, parseInt).value, Named(fields, ExpansionTerms, parseInt).value))
  {
    if |parts| < 2 then Fail("IndexOutOfBoundsException: no parameter token")
    else
      var fields := KotlinSplit(Trim(parts[1]), ',');
      match Named(fields, OriginalWeight, parseReal)
      case Fail(e) => Fail(e)
      case Ok(origWeight) =>
        match Named(fields, ExpansionDocs, parseInt)
        case Fail(e) => Fail(e)
        case Ok(numDocs) =>
          match Named(fields, ExpansionTerms, parseInt)
          case Fail(e) => Fail(e)
          case Ok(numTerms) =>
            match ExpansionWeights(fields, parseReal)
            case Fail(e) => Fail(e)
            case Ok(expWeights) => Ok(Parameters(origWeight, expWeights, numDocs, numTerms))
  }

  predicate Names(line: string, queryName: string) {
    KotlinSplit(line, ' ')[0] == queryName
  }

  /** `readOptimalParameters()`: the first line whose first space-separated
      token is the query name supplies every parameter, and reading stops
      there; with no such line the defaults stand. */
  function ReadOptimalParameters(lines: seq<string>, queryName: string,
                                 parseReal: string -> Option<real>, parseInt: string -> Option<int>)
    : (r: Result<Parameters>)
    ensures (forall i :: 0 <= i < |lines| ==> !Names(lines[i], queryName)) ==> r == Ok(Defaults)
    decreases |lines|
  {
    if |lines| == 0 then Ok(Defaults)
    else if Names(lines[0], queryName) then ParseParameters(KotlinSplit(lines[0], ' '), parseReal, parseInt)
    else
      var rest := ReadOptimalParameters(lines[1..], queryName, parseReal, parseInt);
      assert forall i :: 1 <= i < |lines| ==> lines[i] == lines[1..][i - 1];
      rest
  }

  /** Only the first matching line counts: what precedes it does not name
      the query and what follows it is never read. */
  lemma {:induction false} FirstMatchDecides(before: seq<string>, line: string, after: seq<string>, queryName: string,
                                             parseReal: string -> Option<real>, parseInt: string -> Option<int>)
    requires forall i :: 0 <= i < |before| ==> !Names(before[i], queryName)
    requires Names(line, queryName)
    ensures ReadOptimalParameters(before + [line] + after, queryName, parseReal, parseInt) ==
            ParseParameters(KotlinSplit(line, ' '), parseReal, parseInt)
    decreases |before|
  {
    var lines := before + [line] + after;
    if |before| > 0 {
      assert lines[1..] == before[1..] + [line] + after;
      FirstMatchDecides(before[1..], line, after, queryName, parseReal, parseInt);
    }
  }

  /** The state of the `readTrecOutput` loop: lists stored so far, the
      current query and the list being accumulated. */
  datatype Reader = Reader(batch: map<string, seq<Hit>>, currentQuery: string, hits: seq<Hit>)

  /** The hit of a line: docno from field 2, score from field 4 of the
      single-space split; a short or malformed line throws. */
  function ParseHit(data: seq<string>, ident: nat, parseReal: string -> Option<real>): (r: Result<Hit>)
    ensures r.Ok? <==> |data| >= 5 && parseReal(data[4]).Some?
    ensures r.Ok? ==> r.value.ident == ident && r.value.docno == data[2] && r.value.score == parseReal(data[4]).value &&
                      r.value.vector.None?
  {
    if |data| < 5 then Fail("IndexOutOfBoundsException: fewer than five fields")
    else match parseReal(data[4])
      case None => Fail("NumberFormatException: " + data[4])
      case Some(score) => Ok(Hit(ident, data[2], 0, score, None))
  }

  /** One line. `fires(i)` is the outcome of the reference test
      `query !== currentQuery` on line `i`: it compares object identities,
      not contents, so it is a parameter here. When it fires, the
      accumulated list is stored under the current query and a new one is
      started. */
  function Step(state: Reader, line: string, i: nat, fires: nat -> bool, parseReal: string -> Option<real>)
    : (r: Result<Reader>)
    ensures r.Ok? <==> ParseHit(KotlinSplit(line, ' '), i, parseReal).Ok?
    ensures r.Ok? ==> r.value.batch.Keys == state.batch.Keys + (if fires(i) then {state.currentQuery} else {})
    ensures r.Ok? && fires(i) ==>
      r.value.batch[state.currentQuery] == state.hits && r.value.currentQuery == KotlinSplit(line, ' ')[0] &&
      r.value.hits == [ParseHit(KotlinSplit(line, ' '), i, parseReal).value]
    ensures r.Ok? && !fires(i) ==>
      r.value.batch == state.batch && r.value.currentQuery == state.currentQuery &&
      r.value.hits == state.hits + [ParseHit(KotlinSplit(line, ' '), i, parseReal).value]
    ensures r.Ok? ==> forall q :: q in state.batch && q != state.currentQuery ==> r.value.batch[q] == state.batch[q]
  {
    var data := KotlinSplit(line, ' ');
    var query := data[0];
    var next := if fires(i) then Reader(state.batch[state.currentQuery := state.hits], query, []) else state;
    match ParseHit(data, i, parseReal)
    case Fail(e) => Fail(e)
    case Ok(hit) => Ok(next.(hits := next.hits + [hit]))
  }

  /** The hit line `i` reads as. */
  function LineHit(lines: seq<string>, i: nat, parseReal: string -> Option<real>): Result<Hit>
    requires i < |lines|
  {
    ParseHit(KotlinSplit(lines[i], ' '), i, parseReal)
  }

  /** The `forEach` loop over the first `n` lines, starting from the first
      line's query with nothing stored: it fails exactly when one of those
      lines is malformed. */
  function Loop(lines: seq<string>, n: nat, fires: nat -> bool, parseReal: string -> Option<real>): (r: Result<Reader>)
    requires 0 < |lines| && n <= |lines|
    ensures r.Ok? <==> forall i :: 0 <= i < n ==> LineHit(lines, i, parseReal).Ok?
    ensures n == 0 ==> r == Ok(Reader(map[], KotlinSplit(lines[0], ' ')[0], []))
  {
    if n == 0 then Ok(Reader(map[], KotlinSplit(lines[0], ' ')[0], []))
    else match Loop(lines, n - 1, fires, parseReal)
      case Fail(e) => Fail(e)
      case Ok(state) =>
        assert Step(state, lines[n - 1], n - 1, fires, parseReal).Ok? <==> LineHit(lines, n - 1, parseReal).Ok?;
        Step(state, lines[n - 1], n - 1, fires, parseReal)
  }

  /** The list being accumulated after `n` lines holds the hits of the
      last lines read, in order. */
  predicate PendingFromLines(lines: seq<string>, n: nat, s: Reader, parseReal: string -> Option<real>)
    requires n <= |lines|
  {
    |s.hits| <= n && (n > 0 ==> |s.hits| > 0) &&
    forall k :: 0 <= k < |s.hits| ==> LineHit(lines, n - |s.hits| + k, parseReal) == Ok(s.hits[k])
  }

  /** Every stored hit after `n` lines is the hit of a line read before the
      pending ones. */
  predicate StoredFromLines(lines: seq<string>, n: nat, s: Reader, parseReal: string -> Option<real>)
    requires n <= |lines|
  {
    forall q, k :: q in s.batch && 0 <= k < |s.batch[q]| ==>
      s.batch[q][k].ident < n - |s.hits| && s.batch[q][k].ident < |lines| &&
      LineHit(lines, s.batch[q][k].ident, parseReal) == Ok(s.batch[q][k])
  }

  /** One step keeps both facts. */
  lemma StepKeepsLineHits(lines: seq<string>, n: nat, p: Reader, fires: nat -> bool, parseReal: string -> Option<real>)
    requires 0 < n <= |lines|
    requires PendingFromLines(lines, n - 1, p, parseReal) && StoredFromLines(lines, n - 1, p, parseReal)
    requires Step(p, lines[n - 1], n - 1, fires, parseReal).Ok?
    ensures var s := Step(p, lines[n - 1], n - 1, fires, parseReal).value;
      PendingFromLines(lines, n, s, parseReal) && StoredFromLines(lines, n, s, parseReal)
  {
    var s := Step(p, lines[n - 1], n - 1, fires, parseReal).value;
    var hit := LineHit(lines, n - 1, parseReal).value;
    if fires(n - 1) {
      assert s.hits == [hit];
      forall q, k | q in s.batch && 0 <= k < |s.batch[q]|
        ensures s.batch[q][k].ident < n - |s.hits| && s.batch[q][k].ident < |lines| &&
                LineHit(lines, s.batch[q][k].ident, parseReal) == Ok(s.batch[q][k])
      {
        if q == p.currentQuery {
          assert s.batch[q] == p.hits;
          assert LineHit(lines, n - 1 - |p.hits| + k, parseReal) == Ok(p.hits[k]);
        } else {
          assert s.batch[q] == p.batch[q];
        }
      }
    } else {
      assert s.hits == p.hits + [hit];
      forall k | 0 <= k < |s.hits|
        ensures LineHit(lines, n - |s.hits| + k, parseReal) == Ok(s.hits[k])
      {
        if k < |p.hits| {
          assert s.hits[k] == p.hits[k];
        }
      }
    }
  }

  /** After `n` lines the list being accumulated holds the hits of the last
      lines read, in order, and every stored hit is the hit of an earlier
      line. */
  lemma {:induction false} LoopKeepsLineHits(lines: seq<string>, n: nat, fires: nat -> bool, parseReal: string -> Option<real>)
    requires 0 < |lines| && n <= |lines|
    requires Loop(lines, n, fires, parseReal).Ok?
    ensures PendingFromLines(lines, n, Loop(lines, n, fires, parseReal).value, parseReal)
    ensures StoredFromLines(lines, n, Loop(lines, n, fires, parseReal).value, parseReal)
    decreases n
  {
    if n > 0 {
      var prev := Loop(lines, n - 1, fires, parseReal);
      assert prev.Ok?;
      LoopKeepsLineHits(lines, n - 1, fires, parseReal);
      StepKeepsLineHits(lines, n, prev.value, fires, parseReal);
    }
  }

  /** If the test never fires, nothing is stored. */
  lemma {:induction false} NeverFiringStoresNothing(lines: seq<string>, n: nat, fires: nat -> bool,
                                                    parseReal: string -> Option<real>)
    requires 0 < |lines| && n <= |lines|
    requires forall i :: 0 <= i < n ==> !fires(i)
    requires Loop(lines, n, fires, parseReal).Ok?
    ensures Loop(lines, n, fires, parseReal).value.batch == map[]
    decreases n
  {
    if n > 0 {
      NeverFiringStoresNothing(lines, n - 1, fires, parseReal);
    }
  }

  /** `readTrecOutput(fileName)` as written: an empty file throws on
      `lines[0]`, a malformed line throws, and the list accumulated when the
      loop ends is never stored, so the last line's hit is never returned;
      every returned hit is the hit of its own line. */
  function ReadTrecOutput(lines: seq<string>, fires: nat -> bool, parseReal: string -> Option<real>)
    : (r: Result<map<string, seq<Hit>>>)
    ensures |lines| == 0 ==> r.Fail?
    ensures |lines| > 0 ==> (r.Ok? <==> Loop(lines, |lines|, fires, parseReal).Ok?)
    ensures |lines| > 0 && r.Ok? ==> r.value == Loop(lines, |lines|, fires, parseReal).value.batch
    ensures r.Ok? <==> |lines| > 0 && forall i :: 0 <= i < |lines| ==> LineHit(lines, i, parseReal).Ok?
    ensures r.Ok? ==> forall q, k :: q in r.value && 0 <= k < |r.value[q]| ==>
      r.value[q][k].ident < |lines| - 1 && LineHit(lines, r.value[q][k].ident, parseReal) == Ok(r.value[q][k])
    ensures r.Ok? && (forall i :: 0 <= i < |lines| ==> !fires(i)) ==> r.value == map[]
  {
    if |lines| == 0 then Fail("IndexOutOfBoundsException: empty file")
    else
      var loop := Loop(lines, |lines|, fires, parseReal);
      assert loop.Ok? ==> loop.value.batch == map[] || exists i :: 0 <= i < |lines| && fires(i) by {
        if loop.Ok? && forall i :: 0 <= i < |lines| ==> !fires(i) {
          NeverFiringStoresNothing(lines, |lines|, fires, parseReal);
        }
      }
      assert loop.Ok? ==> forall q, k :: q in loop.value.batch && 0 <= k < |loop.value.batch[q]| ==>
        loop.value.batch[q][k].ident < |lines| - 1 && LineHit(lines, loop.value.batch[q][k].ident, parseReal) == Ok(loop.value.batch[q][k]) by {
        if loop.Ok? {
          LoopKeepsLineHits(lines, |lines|, fires, parseReal);
          assert StoredFromLines(lines, |lines|, loop.value, parseReal);
          assert |loop.value.hits| > 0;
        }
      }
      match loop
      case Fail(e) => Fail(e)
      case Ok(state) => Ok(state.batch)
  }

  /** Whatever the reference test does, the last line's hit is in the list
      still being accumulated when the loop ends, which is dropped. */
  lemma LastHitPending(lines: seq<string>, fires: nat -> bool, parseReal: string -> Option<real>)
    requires |lines| > 0 && Loop(lines, |lines|, fires, parseReal).Ok?
    ensures var state := Loop(lines, |lines|, fires, parseReal).value;
      |state.hits| > 0 && state.hits[|state.hits| - 1].ident == |lines| - 1
  {
  }

  /** Strings produced by separate `split` calls are distinct objects, so
      the test fires on every line; then every stored list holds at most
      one hit. */
  lemma {:induction false} AlwaysFiringStoresSingletons(lines: seq<string>, n: nat, fires: nat -> bool,
                                                        parseReal: string -> Option<real>)
    requires 0 < |lines| && n <= |lines|
    requires forall i :: fires(i)
    requires Loop(lines, n, fires, parseReal).Ok?
    ensures var state := Loop(lines, n, fires, parseReal).value;
      |state.hits| <= 1 && forall q :: q in state.batch ==> |state.batch[q]| <= 1
  {
    if n > 0 {
      AlwaysFiringStoresSingletons(lines, n - 1, fires, parseReal);
    }
  }

  /** The fields of the sample run line used below. */
  lemma SampleLineFields()
    ensures KotlinSplit("q 0 d 0 1", ' ') == ["q", "0", "d", "0", "1"]
  {
    var fields := ["q", "0", "d", "0", "1"];
    assert Join(fields, ' ') == "q 0 d 0 1";
    JoinSplit(fields, ' ');
  }

  /** A one-line run file, read with the test firing as it does: the only
      hit is lost and the query maps to an empty list. */
  lemma OneLineLosesItsHit(fires: nat -> bool, parseReal: string -> Option<real>)
    requires fires(0) && parseReal("1").Some?
    ensures ReadTrecOutput(["q 0 d 0 1"], fires, parseReal) == Ok(map["q" := []])
  {
    var line := "q 0 d 0 1";
    var data := ["q", "0", "d", "0", "1"];
    SampleLineFields();
    var lines := [line];
    var start := Reader(map[], "q", []);
    assert Loop(lines, 0, fires, parseReal) == Ok(start);
    var hit := Hit(0, "d", 0, parseReal("1").value, None);
    assert ParseHit(data, 0, parseReal) == Ok(hit);
    assert KotlinSplit(line, ' ')[0] == "q";
    assert ParseHit(KotlinSplit(line, ' '), 0, parseReal) == Ok(hit);
    assert start.batch[start.currentQuery := start.hits] == map["q" := []];
    var next := Reader(map["q" := []], "q", []);
    assert (if fires(0) then Reader(start.batch[start.currentQuery := start.hits], "q", []) else start) == next;
    assert next.(hits := next.hits + [hit]) == Reader(map["q" := []], "q", [hit]);
    assert Step(start, line, 0, fires, parseReal) == Ok(Reader(map["q" := []], "q", [hit]));
    assert Loop(lines, 1, fires, parseReal) == Ok(Reader(map["q" := []], "q", [hit]));
  }

  /** The evidently intended reader: queries compared by content and the
      last list stored after the loop. */
  function StepIntended(state: Reader, line: string, i: nat, parseReal: string -> Option<real>): Result<Reader> {
    var data := KotlinSplit(line, ' ');
    StepIntendedFields(state, data, i, parseReal)
  }

  function StepIntendedFields(state: Reader, data: seq<string>, i: nat, parseReal: string -> Option<real>): (r: Result<Reader>)
    requires |data| > 0
    ensures r.Ok? ==> r.value.currentQuery == data[0]
  {
    var query := data[0];
    var next := if query != state.currentQuery then Reader(state.batch[state.currentQuery := state.hits], query, []) else state;
    match ParseHit(data, i, parseReal)
    case Fail(e) => Fail(e)
    case Ok(hit) => Ok(next.(hits := next.hits + [hit]))
  }

  function LoopIntended(lines: seq<string>, n: nat, parseReal: string -> Option<real>): Result<Reader>
    requires 0 < |lines| && n <= |lines|
  {
    if n == 0 then Ok(Reader(map[], KotlinSplit(lines[0], ' ')[0], []))
    else match LoopIntended(lines, n - 1, parseReal)
      case Fail(e) => Fail(e)
      case Ok(state) => StepIntended(state, lines[n - 1], n - 1, parseReal)
  }

  function ReadTrecOutputIntended(lines: seq<string>, parseReal: string -> Option<real>): (r: Result<map<string, seq<Hit>>>)
    ensures |lines| == 0 ==> r == Ok(map[])
  {
    if |lines| == 0 then Ok(map[])
    else match LoopIntended(lines, |lines|, parseReal)
      case Fail(e) => Fail(e)
      case Ok(state) => Ok(state.batch[state.currentQuery := state.hits])
  }

  /** With every line naming one query, the intended reader keeps every
      line's hit, in order, under that query. */
  lemma {:induction false} OneQueryKeepsAll(lines: seq<string>, n: nat, q: string, parseReal: string -> Option<real>)
    requires 0 < |lines| && n <= |lines|
    requires forall i :: 0 <= i < |lines| ==> KotlinSplit(lines[i], ' ')[0] == q
    requires LoopIntended(lines, n, parseReal).Ok?
    ensures var state := LoopIntended(lines, n, parseReal).value;
      state.batch == map[] && state.currentQuery == q && |state.hits| == n &&
      forall i :: 0 <= i < n ==> ParseHit(KotlinSplit(lines[i], ' '), i, parseReal) == Ok(state.hits[i])
  {
    if n > 0 {
      OneQueryKeepsAll(lines, n - 1, q, parseReal);
    }
  }

  /** Hence the intended result for a one-query file is that query mapped
      to all of its hits. */
  lemma OneQueryIntendedResult(lines: seq<string>, q: string, parseReal: string -> Option<real>)
    requires 0 < |lines|
    requires forall i :: 0 <= i < |lines| ==> KotlinSplit(lines[i], ' ')[0] == q
    requires ReadTrecOutputIntended(lines, parseReal).Ok?
    ensures var r := ReadTrecOutputIntended(lines, parseReal).value;
      r.Keys == {q} && |r[q]| == |lines| &&
      forall i :: 0 <= i < |lines| ==> ParseHit(KotlinSplit(lines[i], ' '), i, parseReal) == Ok(r[q][i])
  {
    OneQueryKeepsAll(lines, |lines|, q, parseReal);
  }
}
