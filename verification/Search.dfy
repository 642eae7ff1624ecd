/**
 The substring search of list_invoices: escaping a term for LIKE, against the matcher of
 section 8.5 of ISO/IEC 9075-2:2003 with backslash as the escape character.
 Case folding is ASCII.
 */
module Search {
  import opened Ascii

  // ---------- Escaping ----------

  /** str.replace with a one-character needle. */
  function Replace(s: string, needle: char, with: string): string {
    if s == "" then "" else (if s[0] == needle then with else [s[0]]) + Replace(s[1..], needle, with)
  }

  /** _escape_like: three whole-string replacements, the backslash first. */
  function EscapeLike(term: string): string {
    Replace(Replace(Replace(term, '\\', "\\\\"), '%', "\\%"), '_', "\\_")
  }

  predicate Special(c: char) { c == '\\' || c == '%' || c == '_' }

  function EscapeChar(c: char): string { if Special(c) then ['\\', c] else [c] }

  function EscapeEach(s: string): string {
    if s == "" then "" else EscapeChar(s[0]) + EscapeEach(s[1..])
  }

  lemma {:induction false} ReplaceConcat(a: string, b: string, needle: char, with: string)
    ensures Replace(a + b, needle, with) == Replace(a, needle, with) + Replace(b, needle, with)
  {
    if a == "" {
      assert a + b == b;
    } else {
      assert (a + b)[1..] == a[1..] + b;
      ReplaceConcat(a[1..], b, needle, with);
    }
  }

  lemma ReplaceOne(c: char, needle: char, with: string)
    ensures Replace([c], needle, with) == if c == needle then with else [c]
  {
    assert [c][1..] == "";
  }

  lemma ReplaceTwo(c: char, d: char, needle: char, with: string)
    requires c != needle
    ensures Replace([c, d], needle, with) == [c] + Replace([d], needle, with)
  {
    assert [c, d][1..] == [d];
  }

  lemma EscapeLikeOfChar(c: char)
    ensures EscapeLike([c]) == EscapeChar(c)
  {
    ReplaceOne(c, '\\', "\\\\");
    if c == '\\' {
      ReplaceTwo('\\', '\\', '%', "\\%");
      ReplaceOne('\\', '%', "\\%");
      ReplaceTwo('\\', '\\', '_', "\\_");
      ReplaceOne('\\', '_', "\\_");
    } else {
      ReplaceOne(c, '%', "\\%");
      if c == '%' {
        ReplaceTwo('\\', '%', '_', "\\_");
        ReplaceOne('%', '_', "\\_");
      } else {
        ReplaceOne(c, '_', "\\_");
      }
    }
  }

  /** In this order the three replacements do not disturb one another: each character is escaped once. */
  lemma {:induction false} EscapeLikeIsEach(term: string)
    ensures EscapeLike(term) == EscapeEach(term)
  {
    if term == "" {
    } else {
      var head, rest := [term[0]], term[1..];
      assert term == head + rest;
      ReplaceConcat(head, rest, '\\', "\\\\");
      var h1, r1 := Replace(head, '\\', "\\\\"), Replace(rest, '\\', "\\\\");
      ReplaceConcat(h1, r1, '%', "\\%");
      ReplaceConcat(Replace(h1, '%', "\\%"), Replace(r1, '%', "\\%"), '_', "\\_");
      EscapeLikeOfChar(term[0]);
      EscapeLikeIsEach(rest);
    }
  }

  // ---------- Matching ----------

  /** s ILIKE pattern ESCAPE '\': % any string, _ any character, an escaped character itself. */
  predicate ILike(s: string, pattern: string)
    decreases |pattern|, |s|
  {
    if pattern == "" then s == ""
    else if pattern[0] == '%' then
      ILike(s, pattern[1..]) || (s != "" && ILike(s[1..], pattern))
    else if pattern[0] == '_' then
      s != "" && ILike(s[1..], pattern[1..])
    else if pattern[0] == '\\' then
      |pattern| >= 2 && s != "" && Lower(s[0]) == Lower(pattern[1]) && ILike(s[1..], pattern[2..])
    else
      s != "" && Lower(s[0]) == Lower(pattern[0]) && ILike(s[1..], pattern[1..])
  }

  /** Section 8.5 calls a pattern invalid unless every escape character precedes %, _ or itself. */
  predicate ValidPattern(pattern: string) {
    if pattern == "" then true
    else if pattern[0] == '\\' then |pattern| >= 2 && Special(pattern[1]) && ValidPattern(pattern[2..])
    else ValidPattern(pattern[1..])
  }

  /** The pattern list_invoices builds. */
  function SearchPattern(term: string): string { "%" + EscapeLike(term) + "%" }

  ghost predicate OccursAt(term: string, s: string, i: int) {
    0 <= i <= |s| - |term| && LowerAll(s[i..i + |term|]) == LowerAll(term)
  }

  /** term is a substring of s, ignoring case. */
  ghost predicate Occurs(term: string, s: string) {
    exists i :: OccursAt(term, s, i)
  }

  lemma {:induction false} PercentMatchesAnything(s: string)
    ensures ILike(s, "%")
  {
    assert "%"[1..] == "";
    if s == "" {
    } else {
      PercentMatchesAnything(s[1..]);
    }
  }

  /** The wildcards and the escape: _ stands for any one character, an escaped character for itself alone. */
  lemma WildcardsMatch(s: string, c: char)
    ensures ILike(s, "_") <==> |s| == 1
    ensures ILike(s, ['\\', c]) <==> |s| == 1 && Lower(s[0]) == Lower(c)
  {
    assert "_"[1..] == "" && ['\\', c][2..] == "";
    if s != "" { assert |s[1..]| == |s| - 1; }
  }

  /** An escaped term followed by % matches exactly the strings it is a prefix of. */
  lemma {:induction false} EscapedMatchesPrefix(term: string, s: string)
    ensures ILike(s, EscapeEach(term) + "%") <==> OccursAt(term, s, 0)
  {
    var pattern := EscapeEach(term) + "%";
    if term == "" {
      assert pattern == "%";
      PercentMatchesAnything(s);
      assert s[0..0] == term;
    } else {
      var rest := EscapeEach(term[1..]) + "%";
      if Special(term[0]) {
        assert pattern[0] == '\\' && pattern[1] == term[0] && pattern[2..] == rest;
      } else {
        assert pattern[0] == term[0] && pattern[1..] == rest;
      }
      if s != "" {
        EscapedMatchesPrefix(term[1..], s[1..]);
        PrefixStep(term, s);
      }
    }
  }

  lemma PrefixStep(term: string, s: string)
    requires term != "" && s != ""
    ensures OccursAt(term, s, 0) <==> Lower(s[0]) == Lower(term[0]) && OccursAt(term[1..], s[1..], 0)
  {
    if |term| <= |s| {
      var a, b := LowerAll(s[0..|term|]), LowerAll(term);
      var c, d := LowerAll(s[1..][0..|term| - 1]), LowerAll(term[1..]);
      assert a[1..] == c && b[1..] == d;
      assert a == [a[0]] + a[1..] && b == [b[0]] + b[1..];
    }
  }

  /** An occurrence after the first character is one in the rest. */
  lemma OccursLater(term: string, s: string, i: int)
    requires s != "" && i >= 1
    ensures OccursAt(term, s, i) <==> OccursAt(term, s[1..], i - 1)
  {
    if i <= |s| - |term| { SliceOfRest(s, i, i + |term|); }
  }

  lemma SliceOfRest(s: string, i: int, j: int)
    requires 1 <= i <= j <= |s|
    ensures s[1..][i - 1..j - 1] == s[i..j]
  {
    forall k | 0 <= k < j - i ensures s[1..][i - 1..j - 1][k] == s[i..j][k] {
      assert s[1..][i - 1..j - 1][k] == s[1..][i - 1 + k] == s[i + k];
    }
  }

  lemma {:induction false} PercentSearches(term: string, s: string)
    ensures ILike(s, "%" + (EscapeEach(term) + "%")) <==> Occurs(term, s)
  {
    var tail := EscapeEach(term) + "%";
    var pattern := "%" + tail;
    assert pattern[1..] == tail;
    EscapedMatchesPrefix(term, s);
    hide EscapeEach, LowerAll;
    if s == "" {
      assert forall i :: OccursAt(term, s, i) ==> i == 0;
    } else {
      PercentSearches(term, s[1..]);
      if Occurs(term, s) && !OccursAt(term, s, 0) {
        var i :| OccursAt(term, s, i);
        OccursLater(term, s, i);
      }
      if Occurs(term, s[1..]) {
        var j :| OccursAt(term, s[1..], j);
        OccursLater(term, s, j + 1);
      }
    }
  }

  lemma {:induction false} EscapedIsValid(term: string)
    ensures ValidPattern(EscapeEach(term) + "%")
  {
    var pattern := EscapeEach(term) + "%";
    if term == "" {
      assert pattern[1..] == "";
    } else {
      var rest := EscapeEach(term[1..]) + "%";
      EscapedIsValid(term[1..]);
      if Special(term[0]) { assert pattern[2..] == rest; } else { assert pattern[1..] == rest; }
    }
  }

  /**
   A search is a literal, case-insensitive substring test: nothing a user types acts as a wildcard,
   nothing is lost, and the pattern is always a valid one.
   */
  lemma SearchIsSubstring(term: string, s: string)
    ensures ILike(s, SearchPattern(term)) <==> Occurs(term, s)
    ensures ValidPattern(SearchPattern(term))
  {
    EscapeLikeIsEach(term);
    assert SearchPattern(term) == "%" + (EscapeEach(term) + "%");
    PercentSearches(term, s);
    EscapedIsValid(term);
    assert SearchPattern(term)[1..] == EscapeEach(term) + "%";
  }

  /** Escaping the backslash last would escape the escapes: the order matters. */
  lemma OrderMatters()
    ensures Replace(Replace("%", '%', "\\%"), '\\', "\\\\") != EscapeEach("%")
  {
    ReplaceOne('%', '%', "\\%");
    var s := Replace("\\%", '\\', "\\\\");
    assert "\\%"[1..] == "%";
    assert s[0] == '\\' && s[1] == '\\';
    assert EscapeEach("%")[1] == '%';
  }
}
