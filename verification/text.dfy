/** String operations the parsers rely on, with the semantics of the
    language each source file is written in. */
module Text {

  /** Every field between occurrences of `sep`, empty ones included:
      Kotlin's `split` and the first stage of Java's `String.split`. */
  function SplitAll(s: string, sep: char): (r: seq<string>)
    ensures |r| >= 1
    ensures forall i :: 0 <= i < |r| ==> sep !in r[i]
    decreases |s|
  {
    if |s| == 0 then [""]
    else
      var rest := SplitAll(s[1..], sep);
      if s[0] == sep then [""] + rest
      else [[s[0]] + rest[0]] + rest[1..]
  }

  lemma {:induction false} SplitWithoutSeparator(s: string, sep: char)
    ensures sep !in s ==> SplitAll(s, sep) == [s]
    decreases |s|
  {
    if |s| > 0 && sep !in s {
      SplitWithoutSeparator(s[1..], sep);
      assert s == [s[0]] + s[1..];
    }
  }

  /** The fields glued back together with `sep` between them. */
  function Join(fields: seq<string>, sep: char): string
    requires |fields| >= 1
  {
    if |fields| == 1 then fields[0] else fields[0] + [sep] + Join(fields[1..], sep)
  }

  /** Splitting loses nothing: joining the fields restores the string. */
  lemma {:induction false} SplitJoin(s: string, sep: char)
    ensures Join(SplitAll(s, sep), sep) == s
    decreases |s|
  {
    if |s| > 0 {
      var rest := SplitAll(s[1..], sep);
      SplitJoin(s[1..], sep);
      if s[0] != sep {
        var r := SplitAll(s, sep);
        assert r[1..] == rest[1..];
        if |rest| > 1 {
          assert Join(rest, sep) == rest[0] + [sep] + Join(rest[1..], sep);
        }
      }
      assert s == [s[0]] + s[1..];
    }
  }

  /** A leading field free of the separator comes off as the first field. */
  lemma {:induction false} SplitField(a: string, sep: char, b: string)
    requires sep !in a
    ensures SplitAll(a + [sep] + b, sep) == [a] + SplitAll(b, sep)
    decreases |a|
  {
    var s := a + [sep] + b;
    if |a| == 0 {
      assert s[1..] == b;
    } else {
      assert s[1..] == a[1..] + [sep] + b;
      SplitField(a[1..], sep, b);
      assert [a[0]] + a[1..] == a;
    }
  }

  /** Joining fields free of the separator and splitting again gives the
      fields back. */
  lemma {:induction false} JoinSplit(fields: seq<string>, sep: char)
    requires |fields| >= 1
    requires forall i :: 0 <= i < |fields| ==> sep !in fields[i]
    ensures SplitAll(Join(fields, sep), sep) == fields
    decreases |fields|
  {
    if |fields| == 1 {
      SplitWithoutSeparator(fields[0], sep);
    } else {
      JoinSplit(fields[1..], sep);
      SplitField(fields[0], sep, Join(fields[1..], sep));
    }
  }

  /** Drops empty strings from the end of `fields`. */
  function DropTrailingEmpty(fields: seq<string>): (r: seq<string>)
    ensures r <= fields
    ensures |r| > 0 ==> r[|r| - 1] != ""
    ensures forall i :: |r| <= i < |fields| ==> fields[i] == ""
  {
    if |fields| == 0 then []
    else if fields[|fields| - 1] == "" then DropTrailingEmpty(fields[..|fields| - 1])
    else fields
  }

  /** Java's `String.split` with a one-character pattern and no limit: the
      whole string when the separator does not occur, otherwise every field
      with the trailing empty ones removed. */
  function JavaSplit(s: string, sep: char): (r: seq<string>)
    ensures sep !in s ==> r == [s]
    ensures r <= SplitAll(s, sep)
  {
    SplitWithoutSeparator(s, sep);
    if sep !in s then [s] else DropTrailingEmpty(SplitAll(s, sep))
  }

  /** Kotlin's `String.split(c)`: every field, empty ones included. */
  function KotlinSplit(s: string, sep: char): (r: seq<string>)
    ensures |r| >= 1
  {
    SplitAll(s, sep)
  }

  /** Kotlin's `Char.isWhitespace()`, the characters `trim()` removes: Java's
      `Character.isWhitespace` (tab, line feed, U+000B, form feed, carriage
      return, U+001C to U+001F and the Unicode space, line and paragraph
      separators other than the no-break ones) together with
      `Character.isSpaceChar` (which adds the no-break spaces U+00A0, U+2007
      and U+202F back). The separators are those of Unicode 8 onwards. */
  predicate IsSpace(c: char) {
    ('\U{0009}' <= c <= '\U{000D}') || ('\U{001C}' <= c <= '\U{0020}') ||
    c == '\U{00A0}' || c == '\U{1680}' || ('\U{2000}' <= c <= '\U{200A}') ||
    c == '\U{2028}' || c == '\U{2029}' || c == '\U{202F}' || c == '\U{205F}' || c == '\U{3000}'
  }

  function TrimStart(s: string): (r: string)
    ensures |r| <= |s|
    ensures |r| > 0 ==> !IsSpace(r[0])
    ensures r == s[|s| - |r|..]
    ensures forall k :: 0 <= k < |s| - |r| ==> IsSpace(s[k])
  {
    if |s| > 0 && IsSpace(s[0]) then TrimStart(s[1..]) else s
  }

  function TrimEnd(s: string): (r: string)
    ensures |r| <= |s|
    ensures |r| > 0 ==> !IsSpace(r[|r| - 1])
    ensures r == s[..|r|]
    ensures forall k :: |r| <= k < |s| ==> IsSpace(s[k])
  {
    if |s| > 0 && IsSpace(s[|s| - 1]) then TrimEnd(s[..|s| - 1]) else s
  }

  /** Kotlin's `trim()`: the middle of `s` left once the whitespace at both
      ends is gone; it neither starts nor ends with whitespace, and only
      whitespace was cut off. */
  function Trim(s: string): (r: string)
    ensures |r| > 0 ==> !IsSpace(r[0]) && !IsSpace(r[|r| - 1])
    ensures exists i, j :: 0 <= i <= j <= |s| && r == s[i..j] &&
                           (forall k :: 0 <= k < i ==> IsSpace(s[k])) &&
                           (forall k :: j <= k < |s| ==> IsSpace(s[k]))
  {
    TrimIsSlice(s);
    TrimEnd(TrimStart(s))
  }

  /** Trimming the front and then the back leaves a slice of `s` with only
      whitespace cut off on either side. */
  lemma TrimIsSlice(s: string)
    ensures var r := TrimEnd(TrimStart(s));
      var i := |s| - |TrimStart(s)|;
      && i + |r| <= |s|
      && r == s[i..i + |r|]
      && (|r| > 0 ==> r[0] == TrimStart(s)[0])
      && (forall k :: 0 <= k < i ==> IsSpace(s[k]))
      && (forall k :: i + |r| <= k < |s| ==> IsSpace(s[k]))
  {
    var start := TrimStart(s);
    var i := |s| - |start|;
    var r := TrimEnd(start);
    var j := i + |r|;
    assert start == s[i..];
    assert r == start[..|r|];
    forall k | j <= k < |s|
      ensures IsSpace(s[k])
    {
      assert s[k] == start[k - i];
    }
  }

  predicate StartsWith(s: string, prefix: string) {
    prefix <= s
  }

  /** Python's `x in s` for strings: `x` occurs contiguously in `s`. */
  predicate IsSubstring(x: string, s: string) {
    exists i, j :: 0 <= i <= j <= |s| && s[i..j] == x
  }

  /** The UTF-16 code units of one character: the character itself below
      U+10000, its surrogate pair above. */
  function CodeUnits(c: char): (r: seq<int>)
    ensures 1 <= |r| <= 2
    ensures c as int < 0x1_0000 <==> |r| == 1
    ensures forall i :: 0 <= i < |r| ==> 0 <= r[i] < 0x1_0000
  {
    var v := c as int;
    if v < 0x1_0000 then [v]
    else [0xD800 + (v - 0x1_0000) / 0x400, 0xDC00 + (v - 0x1_0000) % 0x400]
  }

  /** A Java string: the concatenated code units of its characters. */
  function Utf16(s: string): (r: seq<int>)
    ensures |r| >= |s|
  {
    if |s| == 0 then [] else CodeUnits(s[0]) + Utf16(s[1..])
  }

  /** No character's code units begin another's: the first unit of a
      surrogate pair is never a character below U+10000, and a pair
      determines its character. */
  lemma CodeUnitsPrefixFree(x: char, y: char, s: seq<int>, t: seq<int>)
    requires CodeUnits(x) + s == CodeUnits(y) + t
    ensures x == y && s == t
  {
    var u := CodeUnits(x) + s;
    var v := CodeUnits(y) + t;
    assert u[0] == v[0];
    if x as int < 0x1_0000 && y as int < 0x1_0000 {
    } else if x as int >= 0x1_0000 && y as int >= 0x1_0000 {
      assert u[1] == v[1];
      var p := x as int - 0x1_0000;
      var q := y as int - 0x1_0000;
      assert p / 0x400 == q / 0x400 && p % 0x400 == q % 0x400;
      assert p == 0x400 * (p / 0x400) + p % 0x400;
      assert q == 0x400 * (q / 0x400) + q % 0x400;
    }
    assert CodeUnits(x) == CodeUnits(y);
    assert s == u[|CodeUnits(x)|..] && t == v[|CodeUnits(y)|..];
  }

  /** Distinct strings have distinct code units. */
  lemma {:induction false} Utf16Injective(a: string, b: string)
    requires Utf16(a) == Utf16(b)
    ensures a == b
    decreases |a|
  {
    if |a| > 0 && |b| > 0 {
      CodeUnitsPrefixFree(a[0], b[0], Utf16(a[1..]), Utf16(b[1..]));
      Utf16Injective(a[1..], b[1..]);
      assert a == [a[0]] + a[1..] && b == [b[0]] + b[1..];
    }
  }

  /** Lexicographic order on code-unit sequences, a proper prefix first. */
  predicate UnitsLess(a: seq<int>, b: seq<int>)
    decreases |a|
  {
    if |a| == 0 then |b| > 0
    else if |b| == 0 then false
    else if a[0] != b[0] then a[0] < b[0]
    else UnitsLess(a[1..], b[1..])
  }

  /** Java's `String.compareTo(a, b) < 0`: lexicographic order on UTF-16
      code units (so U+FF01 sorts after U+1F600, whose first unit is
      U+D83D), a proper prefix first. */
  predicate StrLess(a: string, b: string) {
    UnitsLess(Utf16(a), Utf16(b))
  }

  lemma {:induction false} UnitsLessIrreflexive(a: seq<int>)
    ensures !UnitsLess(a, a)
    decreases |a|
  {
    if |a| > 0 {
      UnitsLessIrreflexive(a[1..]);
    }
  }

  lemma {:induction false} UnitsLessTransitive(a: seq<int>, b: seq<int>, c: seq<int>)
    requires UnitsLess(a, b) && UnitsLess(b, c)
    ensures UnitsLess(a, c)
    decreases |a|
  {
    if |a| > 0 && a[0] == b[0] && b[0] == c[0] {
      UnitsLessTransitive(a[1..], b[1..], c[1..]);
    }
  }

  lemma {:induction false} UnitsLessTotal(a: seq<int>, b: seq<int>)
    requires a != b
    ensures UnitsLess(a, b) || UnitsLess(b, a)
    decreases |a|
  {
    if |a| > 0 && |b| > 0 && a[0] == b[0] {
      assert a == [a[0]] + a[1..];
      assert b == [b[0]] + b[1..];
      UnitsLessTotal(a[1..], b[1..]);
    }
  }

  lemma StrLessIrreflexive(a: string)
    ensures !StrLess(a, a)
  {
    UnitsLessIrreflexive(Utf16(a));
  }

  lemma StrLessTransitive(a: string, b: string, c: string)
    requires StrLess(a, b) && StrLess(b, c)
    ensures StrLess(a, c)
  {
    UnitsLessTransitive(Utf16(a), Utf16(b), Utf16(c));
  }

  lemma StrLessTotal(a: string, b: string)
    requires a != b
    ensures StrLess(a, b) || StrLess(b, a)
  {
    if Utf16(a) == Utf16(b) {
      Utf16Injective(a, b);
    }
    UnitsLessTotal(Utf16(a), Utf16(b));
  }

  /** The example of the order: a full-width exclamation mark sorts after
      an emoji, though its code point is smaller. */
  lemma SurrogatesSortHigh()
    ensures StrLess("\U{1F600}", "\U{FF01}")
    ensures '\U{FF01}' < '\U{1F600}'
  {
    assert Utf16("\U{1F600}") == [0xD83D, 0xDE00];
    assert Utf16("\U{FF01}") == [0xFF01];
  }

  lemma StrLessAsymmetric(a: string, b: string)
    requires StrLess(a, b)
    ensures !StrLess(b, a)
  {
    if StrLess(b, a) {
      StrLessTransitive(a, b, a);
      StrLessIrreflexive(a);
    }
  }

  lemma StrLessAsymmetricAll()
    ensures forall a, b :: StrLess(a, b) ==> !StrLess(b, a)
  {
    forall a, b | StrLess(a, b)
      ensures !StrLess(b, a)
    {
      StrLessAsymmetric(a, b);
    }
  }

  /** Ascending without repetition under `StrLess`: the order
      `Collections.sort` puts distinct strings in. */
  predicate StrictlySorted(s: seq<string>) {
    forall i, j :: 0 <= i < j < |s| ==> StrLess(s[i], s[j])
  }

  /** Two strictly sorted lists with the same elements are the same list. */
  lemma {:induction false} StrictlySortedUnique(a: seq<string>, b: seq<string>)
    requires StrictlySorted(a) && StrictlySorted(b)
    requires forall t :: t in a <==> t in b
    ensures a == b
    decreases |a|
  {
    assert |a| > 0 ==> a[0] in b;
    assert |b| > 0 ==> b[0] in a;
    if |a| > 0 && |b| > 0 {
      assert a[0] in b;
      assert b[0] in a;
      if a[0] != b[0] {
        var i :| 0 <= i < |b| && b[i] == a[0];
        var j :| 0 <= j < |a| && a[j] == b[0];
        assert StrLess(b[0], a[0]);
        assert StrLess(a[0], b[0]);
        StrLessAsymmetric(a[0], b[0]);
      }
      forall t
        ensures t in a[1..] <==> t in b[1..]
      {
        if t in a[1..] {
          TailMember(a, b, t);
        }
        if t in b[1..] {
          TailMember(b, a, t);
        }
      }
      StrictlySortedUnique(a[1..], b[1..]);
      assert a == [a[0]] + a[1..];
      assert b == [b[0]] + b[1..];
    }
  }

  lemma TailMember(a: seq<string>, b: seq<string>, t: string)
    requires StrictlySorted(a) && StrictlySorted(b) && |a| > 0 && |b| > 0
    requires a[0] == b[0] && t in a[1..] && t in b
    ensures t in b[1..]
  {
    var k :| 1 <= k < |a| && a[k] == t;
    var l :| 0 <= l < |b| && b[l] == t;
    if l == 0 {
      StrLessIrreflexive(a[0]);
      assert false;
    }
    assert b[1..][l - 1] == t;
  }
}
