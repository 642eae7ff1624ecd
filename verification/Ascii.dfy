/** ASCII case and white space, as str.lower, str.upper and str.strip treat them. */
module Ascii {

  function Lower(c: char): char {
    if 'A' <= c <= 'Z' then (c as int + 32) as char else c
  }

  function Upper(c: char): char {
    if 'a' <= c <= 'z' then (c as int - 32) as char else c
  }

  function LowerAll(s: string): (r: string)
    ensures |r| == |s| && forall i :: 0 <= i < |s| ==> r[i] == Lower(s[i])
  {
    seq(|s|, i requires 0 <= i < |s| => Lower(s[i]))
  }

  function UpperAll(s: string): (r: string)
    ensures |r| == |s| && forall i :: 0 <= i < |s| ==> r[i] == Upper(s[i])
  {
    seq(|s|, i requires 0 <= i < |s| => Upper(s[i]))
  }

  predicate IsSpace(c: char) {
    var n := c as int;
    9 <= n <= 13 || 28 <= n <= 32
  }

  function StripLeft(s: string): string {
    if s != "" && IsSpace(s[0]) then StripLeft(s[1..]) else s
  }

  function StripRight(s: string): string {
    if s != "" && IsSpace(s[|s| - 1]) then StripRight(s[..|s| - 1]) else s
  }

  function Strip(s: string): string { StripRight(StripLeft(s)) }

  // ---------- What they do ----------

  predicate Letter(c: char) { 'a' <= c <= 'z' || 'A' <= c <= 'Z' }

  /** Lower and Upper identify a character with its other case, and nothing else. */
  lemma CaseExactly(c: char, d: char)
    ensures Lower(c) == Lower(d) <==> Upper(c) == Upper(d)
    ensures Lower(c) == Lower(d) <==>
              c == d || (Letter(c) && Letter(d) && (c as int - d as int == 32 || d as int - c as int == 32))
    ensures Letter(c) ==> 'a' <= Lower(c) <= 'z' && 'A' <= Upper(c) <= 'Z'
  {
  }

  /** The characters str.isspace accepts below 128: six by name, and the four information separators. */
  lemma SpacesExactly(c: char)
    ensures IsSpace(c) <==> c in {' ', '\t', '\n', '\r', 11 as char, 12 as char} || (28 as char) <= c <= (31 as char)
  {
  }

  predicate AllSpace(s: string) { forall i :: 0 <= i < |s| ==> IsSpace(s[i]) }

  predicate Trimmed(s: string) { s != "" ==> !IsSpace(s[0]) && !IsSpace(s[|s| - 1]) }

  lemma {:induction false} StripLeftExactly(a: string, s: string)
    requires AllSpace(a) && (s != "" ==> !IsSpace(s[0]))
    ensures StripLeft(a + s) == s
  {
    if a == "" {
      assert a + s == s;
    } else {
      assert (a + s)[1..] == a[1..] + s;
      StripLeftExactly(a[1..], s);
    }
  }

  lemma {:induction false} StripRightExactly(s: string, b: string)
    requires AllSpace(b) && (s != "" ==> !IsSpace(s[|s| - 1]))
    ensures StripRight(s + b) == s
  {
    if b == "" {
      assert s + b == s;
    } else {
      var k := |b| - 1;
      assert (s + b)[..|s| + k] == s + b[..k];
      StripRightExactly(s, b[..k]);
    }
  }

  /** Strip removes the white space around a text, all of it and nothing else. */
  lemma StripExactly(a: string, s: string, b: string)
    requires AllSpace(a) && AllSpace(b) && Trimmed(s)
    ensures Strip(a + s + b) == s
  {
    if s == "" {
      assert a + s + b == a + b && AllSpace(a + b);
      StripLeftExactly(a + b, "");
      assert a + b + "" == a + b;
    } else {
      assert a + s + b == a + (s + b);
      StripLeftExactly(a, s + b);
      StripRightExactly(s, b);
    }
  }
}
