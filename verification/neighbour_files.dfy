/** Reading precomputed neighbour lists into per-document hit lists, as the
    retrieval drivers do before building a pre-expanded expander
    (main/RunExpandedRMRetrievalWithGivenExpansionDocs.java,
    main/RunExpandedRetrievalWithGivenExpansionDocs.java, main/RunDELM.java).

    CSV parsing is not modelled: a file is its sequence of rows of three
    text columns. `parseReal` and `parseInt` are `Double.parseDouble` and
    `Integer.parseInt`, `None` standing for the NumberFormatException. A
    hit's `ident` is its row number, so every row gives a distinct object;
    fields the drivers leave to the index (`docID` from a docno, `docno`
    from a docID) are 0 and "". */
module NeighbourFiles {
  import opened Common
  import opened Text

  /** A row of a neighbour file: the original docno, a related docno and
      their cosine similarity, as text. */
  datatype Row = Row(origDocno: string, relatedDocno: string, cosine: string)

  /** Every key appended to its own list, lists in input order. */
  function GroupBy<K>(pairs: seq<(K, Hit)>): map<K, seq<Hit>>
    decreases |pairs|
  {
    if |pairs| == 0 then map[]
    else
      var groups := GroupBy(pairs[..|pairs| - 1]);
      var (key, hit) := pairs[|pairs| - 1];
      groups[key := (if key in groups then groups[key] else []) + [hit]]
  }

  /** The reference: the hits paired with `key`, in input order. */
  function Select<K(==)>(pairs: seq<(K, Hit)>, key: K): seq<Hit>
    decreases |pairs|
  {
    if |pairs| == 0 then []
    else Select(pairs[..|pairs| - 1], key) + (if pairs[|pairs| - 1].0 == key then [pairs[|pairs| - 1].1] else [])
  }

  predicate HasKey<K(==)>(pairs: seq<(K, Hit)>, key: K) {
    exists i :: 0 <= i < |pairs| && pairs[i].0 == key
  }

  /** Grouping loses and reorders nothing: a key has a list exactly when
      some pair carries it, and that list is every hit paired with it, in
      input order. */
  lemma {:induction false} GroupIsSelect<K>(pairs: seq<(K, Hit)>, key: K)
    ensures key in GroupBy(pairs) <==> HasKey(pairs, key)
    ensures key in GroupBy(pairs) ==> GroupBy(pairs)[key] == Select(pairs, key)
    ensures key !in GroupBy(pairs) ==> Select(pairs, key) == []
    decreases |pairs|
  {
    if |pairs| > 0 {
      var init := pairs[..|pairs| - 1];
      GroupIsSelect(init, key);
      if HasKey(init, key) {
        var i :| 0 <= i < |init| && init[i].0 == key;
        assert pairs[i].0 == key;
      }
      if HasKey(pairs, key) && pairs[|pairs| - 1].0 != key {
        var i :| 0 <= i < |pairs| && pairs[i].0 == key;
        assert init[i].0 == key;
      }
    }
  }

  /** `GroupIsSelect` for every key at once. */
  lemma GroupIsSelectAll<K>(pairs: seq<(K, Hit)>)
    ensures forall key :: key in GroupBy(pairs) <==> HasKey(pairs, key)
    ensures forall key :: key in GroupBy(pairs) ==> GroupBy(pairs)[key] == Select(pairs, key)
  {
    forall key
      ensures (key in GroupBy(pairs) <==> HasKey(pairs, key)) &&
              (key in GroupBy(pairs) ==> GroupBy(pairs)[key] == Select(pairs, key))
    {
      GroupIsSelect(pairs, key);
    }
  }

  /** The hit of row `i`: related docno and parsed cosine. */
  function RowHit(row: Row, i: nat, parseReal: string -> Option<real>): (r: Result<Hit>)
    ensures r.Ok? <==> parseReal(row.cosine).Some?
    ensures r.Ok? ==> r.value.ident == i && r.value.docno == row.relatedDocno && r.value.score == parseReal(row.cosine).value
  {
    match parseReal(row.cosine)
    case None => Fail("NumberFormatException: " + row.cosine)
    case Some(cosine) => Ok(Hit(i, row.relatedDocno, 0, cosine, None))
  }

  /** Every row as a (origDocno, hit) pair; a malformed cosine anywhere
      aborts the read. */
  function ParseRows(rows: seq<Row>, parseReal: string -> Option<real>): (r: Result<seq<(string, Hit)>>)
    ensures r.Ok? <==> forall i :: 0 <= i < |rows| ==> RowHit(rows[i], i, parseReal).Ok?
    ensures r.Ok? ==> |r.value| == |rows|
    ensures r.Ok? ==> forall i :: 0 <= i < |rows| ==> r.value[i] == (rows[i].origDocno, RowHit(rows[i], i, parseReal).value)
  {
    ParseEach(rows, (row: Row, i) => match RowHit(row, i, parseReal)
                                     case Fail(e) => Fail(e)
                                     case Ok(hit) => Ok((row.origDocno, hit)))
  }

  /** The uncapped reading loop of RunExpandedRetrievalWithGivenExpansionDocs:
      every row appended to its original document's list. */
  function ReadAll(rows: seq<Row>, parseReal: string -> Option<real>): (r: Result<map<string, seq<Hit>>>)
    ensures r.Ok? <==> forall i :: 0 <= i < |rows| ==> parseReal(rows[i].cosine).Some?
    ensures r.Ok? ==> forall key :: key in r.value <==> exists i :: 0 <= i < |rows| && rows[i].origDocno == key
    ensures r.Ok? ==> forall key :: key in r.value ==> r.value[key] == Select(ParseRows(rows, parseReal).value, key)
  {
    match ParseRows(rows, parseReal)
    case Fail(e) => Fail(e)
    case Ok(pairs) =>
      assert forall i :: 0 <= i < |rows| ==> pairs[i].0 == rows[i].origDocno;
      GroupIsSelectAll(pairs);
      Ok(GroupBy(pairs))
  }

  /** The capped reading loop of RunExpandedRMRetrievalWithGivenExpansionDocs:
      the original docno gets an (empty) list on first sight; a row whose
      list already holds `numDocs` hits is skipped before its cosine is
      parsed. */
  function ReadCapped(rows: seq<Row>, numDocs: int, parseReal: string -> Option<real>): (r: Result<map<string, seq<Hit>>>)
    ensures r.Ok? ==> forall key :: key in r.value ==> |r.value[key]| <= Max(numDocs, 0)
    decreases |rows|
  {
    if |rows| == 0 then Ok(map[])
    else
      var n := |rows| - 1;
      match ReadCapped(rows[..n], numDocs, parseReal)
      case Fail(e) => Fail(e)
      case Ok(groups) =>
        var key := rows[n].origDocno;
        var seen := if key in groups then groups else groups[key := []];
        if |seen[key]| >= numDocs then Ok(seen)
        else
          match RowHit(rows[n], n, parseReal)
          case Fail(e) => Fail(e)
          case Ok(hit) => Ok(seen[key := seen[key] + [hit]])
  }

  predicate NamesDocument(rows: seq<Row>, key: string) {
    exists i :: 0 <= i < |rows| && rows[i].origDocno == key
  }

  /** When every cosine parses, the capped loop keeps, for each original
      document, exactly the first `numDocs` of the hits the uncapped loop
      collects, and every document named in the file has a list, however
      small the cap. */
  lemma {:induction false} CappedIsCropped(rows: seq<Row>, numDocs: int, parseReal: string -> Option<real>)
    requires ReadAll(rows, parseReal).Ok?
    ensures ReadCapped(rows, numDocs, parseReal).Ok?
    ensures ReadCapped(rows, numDocs, parseReal).value.Keys == ReadAll(rows, parseReal).value.Keys
    ensures forall key :: key in ReadAll(rows, parseReal).value ==>
      ReadCapped(rows, numDocs, parseReal).value[key] == Crop(ReadAll(rows, parseReal).value[key], numDocs)
    decreases |rows|
  {
    if |rows| > 0 {
      var n := |rows| - 1;
      var pairs := ParseRows(rows, parseReal).value;
      ParseRowsPrefix(rows, parseReal);
      var init := ParseRows(rows[..n], parseReal).value;
      CappedIsCropped(rows[..n], numDocs, parseReal);
      var all := GroupBy(init);
      var capped := ReadCapped(rows[..n], numDocs, parseReal).value;
      var key, hit := rows[n].origDocno, pairs[n].1;
      assert pairs == init + [(key, hit)];
      assert GroupBy(pairs) == AppendHit(all, key, hit);
      assert ReadCapped(rows, numDocs, parseReal) == Ok(CappedAppend(capped, key, hit, numDocs));
      CappedStep(all, capped, key, hit, numDocs);
    }
  }

  function AppendHit(groups: map<string, seq<Hit>>, key: string, hit: Hit): map<string, seq<Hit>> {
    groups[key := (if key in groups then groups[key] else []) + [hit]]
  }

  function CappedAppend(groups: map<string, seq<Hit>>, key: string, hit: Hit, numDocs: int): map<string, seq<Hit>> {
    var seen := if key in groups then groups else groups[key := []];
    if |seen[key]| >= numDocs then seen else seen[key := seen[key] + [hit]]
  }

  /** One row keeps the capped lists the crops of the uncapped ones. */
  lemma CappedStep(all: map<string, seq<Hit>>, capped: map<string, seq<Hit>>, key: string, hit: Hit, numDocs: int)
    requires capped.Keys == all.Keys
    requires forall k :: k in all ==> capped[k] == Crop(all[k], numDocs)
    ensures CappedAppend(capped, key, hit, numDocs).Keys == AppendHit(all, key, hit).Keys
    ensures forall k :: k in AppendHit(all, key, hit) ==>
      CappedAppend(capped, key, hit, numDocs)[k] == Crop(AppendHit(all, key, hit)[k], numDocs)
  {
    var prior := if key in all then all[key] else [];
    var seen := if key in capped then capped else capped[key := []];
    assert seen[key] == Crop(prior, numDocs);
    CropAppend(prior, hit, numDocs);
  }

  /** Parsing all rows parses every prefix, to the same pairs. */
  lemma ParseRowsPrefix(rows: seq<Row>, parseReal: string -> Option<real>)
    requires |rows| > 0 && ParseRows(rows, parseReal).Ok?
    ensures var n := |rows| - 1;
      ParseRows(rows[..n], parseReal).Ok? &&
      ParseRows(rows[..n], parseReal).value == ParseRows(rows, parseReal).value[..n]
  {
    var n := |rows| - 1;
    assert forall i :: 0 <= i < n ==> rows[..n][i] == rows[i];
  }

  /** Appending to a list changes its crop only while the crop is short. */
  lemma CropAppend<T>(s: seq<T>, x: T, k: int)
    ensures |Crop(s, k)| >= k ==> Crop(s + [x], k) == Crop(s, k)
    ensures |Crop(s, k)| < k ==> Crop(s + [x], k) == Crop(s, k) + [x]
  {
    if k > 0 && |s| >= k {
      assert (s + [x])[..k] == s[..k];
    }
  }

  /** With a cap of zero no cosine is ever parsed and every original
      document gets an empty list. */
  lemma {:induction false} ZeroCapParsesNothing(rows: seq<Row>, parseReal: string -> Option<real>)
    ensures ReadCapped(rows, 0, parseReal).Ok?
    ensures forall key :: key in ReadCapped(rows, 0, parseReal).value <==> NamesDocument(rows, key)
    ensures forall key :: key in ReadCapped(rows, 0, parseReal).value ==> ReadCapped(rows, 0, parseReal).value[key] == []
    decreases |rows|
  {
    if |rows| > 0 {
      var n := |rows| - 1;
      ZeroCapParsesNothing(rows[..n], parseReal);
      forall key | NamesDocument(rows, key) && key != rows[n].origDocno
        ensures NamesDocument(rows[..n], key)
      {
        var i :| 0 <= i < |rows| && rows[i].origDocno == key;
        assert rows[..n][i] == rows[i];
      }
      forall key | NamesDocument(rows[..n], key)
        ensures NamesDocument(rows, key)
      {
        var i :| 0 <= i < n && rows[..n][i].origDocno == key;
        assert rows[i] == rows[..n][i];
      }
    }
  }

  /** A line of a RunDELM cluster file, "docId expDocId score", split on
      single spaces: the document's integer id and a hit carrying the
      expansion document's id and score. A missing or malformed field
      throws. */
  function ParseClusterLine(line: string, i: nat, parseInt: string -> Option<int>, parseReal: string -> Option<real>)
    : (r: Result<(int, Hit)>)
    ensures var parts := JavaSplit(line, ' ');
      r.Ok? <==> |parts| >= 3 && parseInt(parts[0]).Some? && parseInt(parts[1]).Some? && parseReal(parts[2]).Some?
    ensures var parts := JavaSplit(line, ' ');
      r.Ok? ==> r.value.0 == parseInt(parts[0]).value && r.value.1.ident == i &&
                r.value.1.docID == parseInt(parts[1]).value && r.value.1.score == parseReal(parts[2]).value
  {
    var parts := JavaSplit(line, ' ');
    if |parts| == 0 then Fail("ArrayIndexOutOfBoundsException: 0")
    else match parseInt(parts[0])
      case None => Fail("NumberFormatException: " + parts[0])
      case Some(docId) =>
        if |parts| < 2 then Fail("ArrayIndexOutOfBoundsException: 1")
        else match parseInt(parts[1])
          case None => Fail("NumberFormatException: " + parts[1])
          case Some(expDocId) =>
            if |parts| < 3 then Fail("ArrayIndexOutOfBoundsException: 2")
            else match parseReal(parts[2])
              case None => Fail("NumberFormatException: " + parts[2])
              case Some(score) => Ok((docId, Hit(i, "", expDocId, score, None)))
  }

  function ParseClusterLines(lines: seq<string>, parseInt: string -> Option<int>, parseReal: string -> Option<real>)
    : (r: Result<seq<(int, Hit)>>)
    ensures r.Ok? <==> forall i :: 0 <= i < |lines| ==> ParseClusterLine(lines[i], i, parseInt, parseReal).Ok?
    ensures r.Ok? ==> |r.value| == |lines|
    ensures r.Ok? ==> forall i :: 0 <= i < |lines| ==> r.value[i] == ParseClusterLine(lines[i], i, parseInt, parseReal).value
  {
    ParseEach(lines, (line, i) => ParseClusterLine(line, i, parseInt, parseReal))
  }

  /** RunDELM's reading loop: every line's hit appended, uncapped, to the
      list of its document id (`getOrDefault`, `add`, `put`). */
  function ReadClusters(lines: seq<string>, parseInt: string -> Option<int>, parseReal: string -> Option<real>)
    : (r: Result<map<int, seq<Hit>>>)
    ensures r.Ok? <==> forall i :: 0 <= i < |lines| ==> ParseClusterLine(lines[i], i, parseInt, parseReal).Ok?
    ensures r.Ok? ==> forall docId :: docId in r.value <==>
      exists i :: 0 <= i < |lines| && ParseClusterLine(lines[i], i, parseInt, parseReal).value.0 == docId
    ensures r.Ok? ==> forall docId :: docId in r.value ==> r.value[docId] == Select(ParseClusterLines(lines, parseInt, parseReal).value, docId)
  {
    match ParseClusterLines(lines, parseInt, parseReal)
    case Fail(e) => Fail(e)
    case Ok(pairs) =>
      GroupIsSelectAll(pairs);
      Ok(GroupBy(pairs))
  }

  /** Each document id's list is its lines' hits in file order. */
  lemma ClustersInFileOrder(lines: seq<string>, parseInt: string -> Option<int>, parseReal: string -> Option<real>, docId: int)
    requires ReadClusters(lines, parseInt, parseReal).Ok?
    ensures var pairs := ParseClusterLines(lines, parseInt, parseReal).value;
      (docId in ReadClusters(lines, parseInt, parseReal).value <==> HasKey(pairs, docId)) &&
      (docId in ReadClusters(lines, parseInt, parseReal).value ==>
        ReadClusters(lines, parseInt, parseReal).value[docId] == Select(pairs, docId))
  {
    GroupIsSelect(ParseClusterLines(lines, parseInt, parseReal).value, docId);
  }
}
