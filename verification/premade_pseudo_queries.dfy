/** An expander whose pseudo-queries are read from a file of
    `docno,term,weight` lines instead of being built from the document
    (expansion/DocumentExpanderWithPremadePseudoQueries.java).

    The file is its sequence of lines, or `None` when it cannot be found;
    `parseDouble` is `Double.parseDouble`, `None` standing for the
    NumberFormatException it throws. `FeatureVector.setTerm` is assumed to
    store the weight as given, without consulting the stopper. */
module PremadePseudoQueries {
  import opened Common
  import opened Text
  import FeatureUtils
  import DocumentExpander

  /** docno to (term to weight). */
  type PseudoQueries = map<string, map<Term, real>>

  /** One line: split on ',' the Java way; fields 0, 1 and 2 are docno,
      term and weight, later fields are ignored. The docno's inner map is
      created on first sight and the term's weight is overwritten. */
  function ReadLine(pq: PseudoQueries, line: string, parseDouble: string -> Option<real>): (r: Result<PseudoQueries>)
    ensures var parts := JavaSplit(line, ',');
      r.Ok? <==> |parts| >= 3 && parseDouble(parts[2]).Some?
    ensures r.Ok? ==>
      var parts := JavaSplit(line, ',');
      var docno, term := parts[0], parts[1];
      && r.value.Keys == pq.Keys + {docno}
      && docno in r.value && term in r.value[docno]
      && r.value[docno][term] == parseDouble(parts[2]).value
      && (docno !in pq ==> r.value[docno] == map[term := parseDouble(parts[2]).value])
      && (docno in pq ==> r.value[docno].Keys == pq[docno].Keys + {term})
      && (docno in pq ==> forall t :: t in pq[docno] && t != term ==> r.value[docno][t] == pq[docno][t])
      && (forall d :: d in pq && d != docno ==> r.value[d] == pq[d])
  {
    var parts := JavaSplit(line, ',');
    if |parts| < 3 then Fail("ArrayIndexOutOfBoundsException: fewer than three fields")
    else match parseDouble(parts[2])
      case None => Fail("NumberFormatException: " + parts[2])
      case Some(weight) =>
        var inner := if parts[0] in pq then pq[parts[0]] else map[];
        Ok(pq[parts[0] := inner[parts[1] := weight]])
  }

  /** A line `ReadLine` accepts: at least three fields, the third a number. */
  predicate LineParses(line: string, parseDouble: string -> Option<real>) {
    var parts := JavaSplit(line, ',');
    |parts| >= 3 && parseDouble(parts[2]).Some?
  }

  /** The table as the field holds it after reading, and the exception
      that ended the reading, if one did. */
  datatype Read = Read(table: PseudoQueries, failure: Option<string>)

  /** The lines in order, each stored as soon as it is read; the first bad
      line's exception ends the loop with the earlier lines already in the
      table. */
  function ReadLines(pq: PseudoQueries, lines: seq<string>, parseDouble: string -> Option<real>): (r: Read)
    ensures r.failure.None? <==> forall i :: 0 <= i < |lines| ==> LineParses(lines[i], parseDouble)
    ensures forall d :: d in pq ==> d in r.table && pq[d].Keys <= r.table[d].Keys
    decreases |lines|
  {
    if |lines| == 0 then Read(pq, None)
    else
      var init := lines[..|lines| - 1];
      assert forall i :: 0 <= i < |init| ==> init[i] == lines[i];
      var before := ReadLines(pq, init, parseDouble);
      if before.failure.Some? then before
      else match ReadLine(before.table, lines[|lines| - 1], parseDouble)
        case Fail(e) => Read(before.table, Some(e))
        case Ok(t) => Read(t, None)
  }

  /** `readPremadePseudoQueries(path)`: a missing file is reported and
      leaves the table as it was; otherwise the lines are read into the
      table, and an exception from a bad line escapes with the table
      holding what the lines before it stored. */
  function ReadPremadePseudoQueries(pq: PseudoQueries, file: Option<seq<string>>, parseDouble: string -> Option<real>)
    : (r: Read)
    ensures file.None? ==> r == Read(pq, None)
    ensures r.failure.None? <==> file.None? || forall i :: 0 <= i < |file.value| ==> LineParses(file.value[i], parseDouble)
    ensures forall d :: d in pq ==> d in r.table && pq[d].Keys <= r.table[d].Keys
  {
    match file
    case None => Read(pq, None)
    case Some(lines) => ReadLines(pq, lines, parseDouble)
  }

  /** One step of `ReadLines` after an exception changes nothing. */
  lemma StopsAfterFailure(pq: PseudoQueries, lines: seq<string>, parseDouble: string -> Option<real>)
    requires |lines| > 0 && ReadLines(pq, lines[..|lines| - 1], parseDouble).failure.Some?
    ensures ReadLines(pq, lines, parseDouble) == ReadLines(pq, lines[..|lines| - 1], parseDouble)
  {
  }

  /** Once a line has thrown, later lines are never read. */
  lemma {:induction false} FailureEndsReading(pq: PseudoQueries, lines: seq<string>, more: seq<string>,
                                              parseDouble: string -> Option<real>)
    requires ReadLines(pq, lines, parseDouble).failure.Some?
    ensures ReadLines(pq, lines + more, parseDouble) == ReadLines(pq, lines, parseDouble)
    decreases |more|
  {
    if |more| == 0 {
      assert lines + more == lines;
    } else {
      var all := lines + more;
      var m := more[..|more| - 1];
      assert all[..|all| - 1] == lines + m;
      FailureEndsReading(pq, lines, m, parseDouble);
      StopsAfterFailure(pq, all, parseDouble);
    }
  }

  /** A bad line leaves exactly the table the lines before it built, with
      its own exception; nothing after it is read. */
  lemma FailedLineKeepsEarlierLines(pq: PseudoQueries, lines: seq<string>, line: string, more: seq<string>,
                                    parseDouble: string -> Option<real>)
    requires forall i :: 0 <= i < |lines| ==> LineParses(lines[i], parseDouble)
    requires !LineParses(line, parseDouble)
    ensures var r := ReadLines(pq, lines + [line] + more, parseDouble);
      && r.table == ReadLines(pq, lines, parseDouble).table
      && r.failure == Some(ReadLine(ReadLines(pq, lines, parseDouble).table, line, parseDouble).reason)
  {
    assert (lines + [line])[..|lines|] == lines;
    FailureEndsReading(pq, lines + [line], more, parseDouble);
  }

  /** The last line for a (docno, term) decides its weight: after reading
      `lines + [line]` without an exception, the pair of `line` holds the
      weight of `line`. */
  lemma LastLineWins(pq: PseudoQueries, lines: seq<string>, line: string, parseDouble: string -> Option<real>)
    requires ReadLines(pq, lines + [line], parseDouble).failure.None?
    ensures var parts := JavaSplit(line, ',');
      var r := ReadLines(pq, lines + [line], parseDouble).table;
      |parts| >= 3 && parts[0] in r && parts[1] in r[parts[0]] &&
      r[parts[0]][parts[1]] == parseDouble(parts[2]).value
  {
    assert (lines + [line])[..|lines|] == lines;
  }

  /** Only the first three fields matter. */
  lemma ExtraFieldsIgnored(pq: PseudoQueries, l1: string, l2: string, parseDouble: string -> Option<real>)
    requires |JavaSplit(l1, ',')| >= 3 && |JavaSplit(l2, ',')| >= 3
    requires JavaSplit(l1, ',')[..3] == JavaSplit(l2, ',')[..3]
    ensures ReadLine(pq, l1, parseDouble) == ReadLine(pq, l2, parseDouble)
  {
    var p1, p2 := JavaSplit(l1, ','), JavaSplit(l2, ',');
    assert p1[0] == p1[..3][0] && p1[1] == p1[..3][1] && p1[2] == p1[..3][2];
    assert p2[0] == p2[..3][0] && p2[1] == p2[..3][1] && p2[2] == p2[..3][2];
  }

  /** `setTerm` for each term in turn, starting from an empty vector. */
  function SetTerms(terms: seq<Term>, weights: map<Term, real>): (r: TermVector)
    requires forall i :: 0 <= i < |terms| ==> terms[i] in weights
    ensures r.Keys == set t | t in terms
    decreases |terms|
  {
    if |terms| == 0 then map[]
    else
      var last := terms[|terms| - 1];
      SetTerms(terms[..|terms| - 1], weights)[last := weights[last]]
  }

  /** Setting every term of a table copies the table. */
  lemma {:induction false} SetTermsCopies(terms: seq<Term>, weights: map<Term, real>)
    requires forall i :: 0 <= i < |terms| ==> terms[i] in weights
    ensures forall t :: t in SetTerms(terms, weights) ==> SetTerms(terms, weights)[t] == weights[t]
    decreases |terms|
  {
    if |terms| > 0 {
      SetTermsCopies(terms[..|terms| - 1], weights);
    }
  }

  /** `createDocumentPseudoQuery(document)`: exactly the stored pairs for
      the document's docno, not clipped to `numTerms`; an unknown docno
      dereferences null and throws. */
  function PseudoQuery(pq: PseudoQueries, document: Hit): (r: Result<TermVector>)
    ensures r.Ok? <==> document.docno in pq
    ensures r.Ok? ==> r.value == pq[document.docno]
  {
    if document.docno !in pq then Fail("NullPointerException: no pseudo-query for " + document.docno)
    else
      var weights := pq[document.docno];
      var terms := FeatureUtils.SortedTerms(weights.Keys);
      SetTermsCopies(terms, weights);
      Ok(SetTerms(terms, weights))
  }

  /** Expansion uses the premade pseudo-query in the inherited loader: a
      document with no premade pseudo-query and no cached entry makes
      `expandDocument` throw, it does not fall back to an empty list. */
  lemma UnknownDocnoThrows(e: DocumentExpander.Expander, pq: PseudoQueries, runQuery: DocumentExpander.RunQuery,
                           document: Hit, numDocs: int)
    requires document.ident !in e.cache && document.docno !in pq
    ensures DocumentExpander.ExpandDocument(e, d => PseudoQuery(pq, d), runQuery, document, numDocs).Fail?
  {
  }
}
