/**
 The invoice number format language: parsing a format string, validating it, and rendering
 a number from it.  The modelled grammar is the documented one: literal text with doubled
 braces, `{prefix}`, `{date}`, and `{sequence}` with an optional specification: a zero, digits, a `d`.
 */
module NumberFormat {
  import opened Model
  import opened Decimals

  datatype Segment =
    | Literal(c: char)
    | Prefix
    | Date
    | Sequence(width: nat)
    | Positional              // a replacement field without a name
    | Unknown(name: string)   // a replacement field naming no placeholder
  {
    predicate Documented() { !Positional? && !Unknown? }
  }

  /** Undocumented: a construct of Python's format mini-language outside the modelled grammar. */
  datatype Parsed = Template(segments: seq<Segment>) | Malformed | Undocumented

  datatype Verdict = Accepted | Rejected | Raised

  const DEFAULT_FORMAT: string := "{prefix}-{date}-{sequence:04d}"
  const DEFAULT_SEGMENTS: seq<Segment> := [Prefix, Literal('-'), Date, Literal('-'), Sequence(4)]
  const SAMPLE_PREFIX: string := "TEST"
  const SAMPLE_DATE: string := "20260103"
  const MAX_SAMPLE_LENGTH: nat := 100

  // ---------- Parsing ----------

  /** The first position of `c` in `s`, or |s|. */
  function Find(s: string, c: char): (k: nat)
    ensures k <= |s| && (k < |s| ==> s[k] == c)
    ensures forall i :: 0 <= i < k ==> s[i] != c
  {
    if s == "" || s[0] == c then 0 else 1 + Find(s[1..], c)
  }

  function Prepend(segment: Segment, rest: Parsed): Parsed {
    if rest.Template? then Template([segment] + rest.segments) else rest
  }

  /** A specification without its type. */
  function Untyped(spec: string): string {
    if spec != "" && spec[|spec| - 1] == 'd' then spec[..|spec| - 1] else spec
  }

  /** The width that `d`, `0N` or `0Nd` asks zeros to be added up to. */
  function SpecWidth(spec: string): Option<nat> {
    var digits := Untyped(spec);
    if digits == "" then Some(0)
    else if digits[0] == '0' && AllDigits(digits) then Some(Value(digits))
    else None
  }

  /** A replacement field, from its name and its specification, as a one-segment template. */
  function FieldOf(name: string, spec: string): (p: Parsed)
    ensures !p.Malformed?
    ensures p.Template? ==> |p.segments| == 1 && !p.segments[0].Literal?
  {
    if name == "" then Template([Positional])
    else if name == "prefix" then if spec == "" then Template([Prefix]) else Undocumented
    else if name == "date" then if spec == "" then Template([Date]) else Undocumented
    else if name == "sequence" then
      if SpecWidth(spec).Some? then Template([Sequence(SpecWidth(spec).value)]) else Undocumented
    else Template([Unknown(name)])
  }

  /** What stands between a pair of braces. */
  function ParseField(content: string): (p: Parsed)
    ensures !p.Malformed?
    ensures p.Template? ==> |p.segments| == 1 && !p.segments[0].Literal? && '{' !in content
  {
    if '{' in content || '[' in content || '!' in content then Undocumented
    else
      var colon := Find(content, ':');
      FieldOf(content[..colon], if colon < |content| then content[colon + 1..] else "")
  }

  /** string.Formatter().parse on the modelled grammar. */
  function Parse(s: string): Parsed
    decreases |s|
  {
    if s == "" then Template([])
    else if s[0] == '{' then
      if |s| >= 2 && s[1] == '{' then Prepend(Literal('{'), Parse(s[2..]))
      else
        var close := Find(s[1..], '}');
        if close == |s| - 1 then Malformed
        else
          var field := ParseField(s[1..][..close]);
          if field.Template? then Prepend(field.segments[0], Parse(s[1..][close + 1..]))
          else Undocumented
    else if s[0] == '}' then
      if |s| >= 2 && s[1] == '}' then Prepend(Literal('}'), Parse(s[2..])) else Malformed
    else Prepend(Literal(s[0]), Parse(s[1..]))
  }

  function ZeroPadSpec(w: nat): string { "0" + Digits(w) + "d" }

  function SequenceField(w: nat): string {
    if w == 0 then "sequence" else "sequence" + [':'] + ZeroPadSpec(w)
  }

  /** A documented segment written back as format text. */
  function UnparseSegment(segment: Segment): string
    requires segment.Documented()
  {
    match segment
    case Literal(c) => if c == '{' then "{{" else if c == '}' then "}}" else [c]
    case Prefix => "{" + "prefix" + "}"
    case Date => "{" + "date" + "}"
    case Sequence(w) => "{" + SequenceField(w) + "}"
  }

  predicate AllDocumented(segments: seq<Segment>) {
    forall i :: 0 <= i < |segments| ==> segments[i].Documented()
  }

  function Unparse(segments: seq<Segment>): string
    requires AllDocumented(segments)
  {
    if segments == [] then "" else UnparseSegment(segments[0]) + Unparse(segments[1..])
  }

  lemma FindAfter(a: string, c: char, b: string)
    requires c !in a
    ensures Find(a + [c] + b, c) == |a|
  {
    var s := a + [c] + b;
    assert s[|a|] == c;
    assert forall i :: 0 <= i < |a| ==> s[i] == a[i];
  }

  predicate Plain(s: string) {
    '{' !in s && '}' !in s && '[' !in s && '!' !in s
  }

  /** A brace-delimited field parses as its content, whatever follows. */
  lemma ParseOneField(content: string, segment: Segment, rest: string)
    requires content != "" && Plain(content)
    requires ParseField(content) == Template([segment])
    ensures Parse("{" + content + "}" + rest) == Prepend(segment, Parse(rest))
  {
    var s := "{" + content + "}" + rest;
    assert s[1..] == content + ['}'] + rest;
    FindAfter(content, '}', rest);
    assert s[1..][..|content|] == content;
    assert s[1..][|content| + 1..] == rest;
    assert s[1] == content[0];
  }

  lemma ZeroPadSpecReads(w: nat)
    ensures SpecWidth(ZeroPadSpec(w)) == Some(w) && Plain(ZeroPadSpec(w))
  {
    var spec := ZeroPadSpec(w);
    assert Untyped(spec) == "0" + Digits(w);
    assert Zeros(1) == "0";
    assert forall c :: c in Digits(w) ==> IsDigit(c);
    ValueOfDigits(w);
    ValueIgnoresLeadingZeros(1, Digits(w));
  }

  lemma SplitAtColon(name: string, spec: string)
    requires ':' !in name
    ensures var content := name + [':'] + spec;
            && Find(content, ':') == |name|
            && content[..|name|] == name && content[|name| + 1..] == spec
  {
    FindAfter(name, ':', spec);
  }

  lemma SequenceFieldOf(w: nat)
    ensures FieldOf("sequence", "") == Template([Sequence(0)])
    ensures FieldOf("sequence", ZeroPadSpec(w)) == Template([Sequence(w)])
  {
    assert "sequence"[0] == 's' && "prefix"[0] == 'p' && "date"[0] == 'd';
    ZeroPadSpecReads(w);
  }

  lemma ParseSequenceField(w: nat)
    ensures Plain(SequenceField(w)) && SequenceField(w) != "" && ParseField(SequenceField(w)) == Template([Sequence(w)])
  {
    var name := "sequence";
    assert Plain(name) && ':' !in name;
    SequenceFieldOf(w);
    ZeroPadSpecReads(w);
    hide FieldOf, ZeroPadSpec, Plain, SpecWidth;
    if w == 0 {
      PlainName(name);
    } else {
      PaddedFieldSplits(name, ZeroPadSpec(w));
    }
  }

  lemma PlainName(name: string)
    requires Plain(name) && ':' !in name
    ensures ParseField(name) == FieldOf(name, "")
  {
    hide FieldOf;
    assert Find(name, ':') == |name| && name[..|name|] == name;
  }

  lemma PaddedFieldSplits(name: string, spec: string)
    requires Plain(name) && ':' !in name && Plain(spec)
    ensures Plain(name + [':'] + spec)
    ensures ParseField(name + [':'] + spec) == FieldOf(name, spec)
  {
    SplitAtColon(name, spec);
  }

  lemma PrefixField()
    ensures ParseField("prefix") == Template([Prefix]) && Plain("prefix")
  {
    var name := "prefix";
    assert Plain(name) && ':' !in name && FieldOf(name, "") == Template([Prefix]);
    hide Plain, FieldOf, ParseField;
    PlainName(name);
  }

  lemma DateField()
    ensures ParseField("date") == Template([Date]) && Plain("date")
  {
    var name := "date";
    assert Plain(name) && ':' !in name && name[0] != "prefix"[0] && FieldOf(name, "") == Template([Date]);
    hide Plain, FieldOf, ParseField;
    PlainName(name);
  }

  lemma ParseLiteral(c: char, rest: string)
    ensures Parse(UnparseSegment(Literal(c)) + rest) == Prepend(Literal(c), Parse(rest))
  {
    var text := UnparseSegment(Literal(c));
    assert (text + rest)[|text|..] == rest;
  }

  /** Parsing peels off one written segment. */
  lemma ParseHead(segment: Segment, rest: string)
    requires segment.Documented()
    ensures Parse(UnparseSegment(segment) + rest) == Prepend(segment, Parse(rest))
  {
    hide Parse, ParseField, SequenceField;
    match segment {
      case Literal(c) => ParseLiteral(c, rest);
      case Prefix =>
        PrefixField();
        ParseOneField("prefix", Prefix, rest);
      case Date =>
        DateField();
        ParseOneField("date", Date, rest);
      case Sequence(w) =>
        ParseSequenceField(w);
        ParseOneField(SequenceField(w), Sequence(w), rest);
    }
  }

  /** The parser reads every documented template back from its text. */
  lemma {:induction false} ParseUnparse(segments: seq<Segment>)
    requires AllDocumented(segments)
    ensures Parse(Unparse(segments)) == Template(segments)
  {
    hide UnparseSegment;
    if segments == [] {
    } else {
      hide Parse;
      ParseUnparse(segments[1..]);
      ParseHead(segments[0], Unparse(segments[1..]));
      assert segments == [segments[0]] + segments[1..];
    }
  }

  // ---------- Rendering ----------

  function RenderSegment(segment: Segment, prefix: string, date: string, number: nat): string
    requires segment.Documented()
  {
    match segment
    case Literal(c) => [c]
    case Prefix => prefix
    case Date => date
    case Sequence(w) => ZeroPadded(number, w)
  }

  /** str.format with the three keyword arguments. */
  function Render(segments: seq<Segment>, prefix: string, date: string, number: nat): string
    requires AllDocumented(segments)
  {
    if segments == [] then ""
    else RenderSegment(segments[0], prefix, date, number) + Render(segments[1..], prefix, date, number)
  }

  predicate HasSequence(segments: seq<Segment>) {
    exists i :: 0 <= i < |segments| && segments[i].Sequence?
  }

  lemma SequenceInRest(segments: seq<Segment>)
    requires segments != []
    ensures HasSequence(segments) <==> segments[0].Sequence? || HasSequence(segments[1..])
  {
    var rest := segments[1..];
    if HasSequence(rest) {
      var i :| 0 <= i < |rest| && rest[i].Sequence?;
      assert segments[i + 1].Sequence?;
    }
    if HasSequence(segments) && !segments[0].Sequence? {
      var i :| 0 <= i < |segments| && segments[i].Sequence?;
      assert rest[i - 1].Sequence?;
    }
  }

  lemma SegmentLengthMonotone(s: Segment, prefix: string, d: string, e: string, m: nat, n: nat)
    requires s.Documented() && |d| == |e| && m <= n
    ensures |RenderSegment(s, prefix, d, m)| <= |RenderSegment(s, prefix, e, n)|
  {
    LengthMonotone(m, n);
  }

  lemma {:induction false} RenderLengthMonotone(
    segments: seq<Segment>, prefix: string, d: string, e: string, m: nat, n: nat)
    requires AllDocumented(segments) && |d| == |e| && m <= n
    ensures |Render(segments, prefix, d, m)| <= |Render(segments, prefix, e, n)|
  {
    if segments == [] {
    } else {
      SegmentLengthMonotone(segments[0], prefix, d, e, m, n);
      RenderLengthMonotone(segments[1..], prefix, d, e, m, n);
    }
  }

  /** Lengths only grow with the number, so equal renderings are aligned segment by segment. */
  lemma {:induction false} RenderAligned(
    segments: seq<Segment>, prefix: string, d: string, e: string, m: nat, n: nat)
    requires AllDocumented(segments) && HasSequence(segments) && |d| == |e| && m <= n
    requires Render(segments, prefix, d, m) == Render(segments, prefix, e, n)
    ensures m == n
  {
    var head, rest := segments[0], segments[1..];
    var h, h' := RenderSegment(head, prefix, d, m), RenderSegment(head, prefix, e, n);
    var t, t' := Render(rest, prefix, d, m), Render(rest, prefix, e, n);
    SegmentLengthMonotone(head, prefix, d, e, m, n);
    RenderLengthMonotone(rest, prefix, d, e, m, n);
    assert |h| == |h'| by { assert |h + t| == |h' + t'|; }
    assert h == (h + t)[..|h|] == (h' + t')[..|h'|] == h';
    if head.Sequence? {
      ValueOfZeroPadded(m, head.width);
      ValueOfZeroPadded(n, head.width);
    } else {
      assert t == (h + t)[|h|..] == (h' + t')[|h'|..] == t';
      SequenceInRest(segments);
      RenderAligned(rest, prefix, d, e, m, n);
    }
  }

  /** Distinct sequence numbers never render alike, on the same day or on different ones. */
  lemma RenderInjective(segments: seq<Segment>, prefix: string, d: string, e: string, m: nat, n: nat)
    requires AllDocumented(segments) && HasSequence(segments) && |d| == |e|
    ensures Render(segments, prefix, d, m) == Render(segments, prefix, e, n) ==> m == n
  {
    if Render(segments, prefix, d, m) == Render(segments, prefix, e, n) {
      if m <= n {
        RenderAligned(segments, prefix, d, e, m, n);
      } else {
        RenderAligned(segments, prefix, e, d, n, m);
      }
    }
  }

  // ---------- What a rendered text says, position by position ----------

  /** What stands in the text for a segment. */
  predicate Reads(segment: Segment, slice: string, prefix: string, date: string, number: nat) {
    match segment
    case Literal(c) => slice == [c]
    case Prefix => slice == prefix
    case Date => slice == date
    case Sequence(w) => Numeral(slice, w, number)
    case _ => false
  }

  /** The offsets `cuts` cut the text into one slice for each segment. */
  predicate IsCut(cuts: seq<nat>, segments: seq<Segment>, text: string, prefix: string, date: string, number: nat) {
    && |cuts| == |segments| + 1 && cuts[0] == 0 && cuts[|segments|] == |text|
    && forall i :: 0 <= i < |segments| ==> ReadsAt(cuts, i, segments, text, prefix, date, number)
  }

  predicate ReadsAt(
    cuts: seq<nat>, i: nat, segments: seq<Segment>, text: string, prefix: string, date: string, number: nat)
    requires i < |segments| < |cuts|
  {
    cuts[i] <= cuts[i + 1] <= |text| && Reads(segments[i], text[cuts[i]..cuts[i + 1]], prefix, date, number)
  }

  lemma SegmentReads(segment: Segment, prefix: string, date: string, number: nat)
    requires segment.Documented()
    ensures Reads(segment, RenderSegment(segment, prefix, date, number), prefix, date, number)
  {
    if segment.Sequence? { ZeroPaddedIsNumeral(number, segment.width); }
  }

  /** One slice more, in front. */
  lemma CutCons(
    head: string, cuts: seq<nat>, segment: Segment, segments: seq<Segment>, text: string, prefix: string, date: string,
    number: nat) returns (cuts': seq<nat>)
    requires Reads(segment, head, prefix, date, number) && IsCut(cuts, segments, text, prefix, date, number)
    ensures IsCut(cuts', [segment] + segments, head + text, prefix, date, number)
  {
    hide Reads;
    cuts' := [0] + seq(|cuts|, i requires 0 <= i < |cuts| => cuts[i] + |head|);
    var all, whole := [segment] + segments, head + text;
    forall i | 0 <= i < |all| ensures ReadsAt(cuts', i, all, whole, prefix, date, number) {
      if i == 0 {
        assert whole[0..|head|] == head;
      } else {
        assert ReadsAt(cuts, i - 1, segments, text, prefix, date, number);
        assert whole[|head| + cuts[i - 1]..|head| + cuts[i]] == text[cuts[i - 1]..cuts[i]];
      }
    }
  }

  /**
   A rendered text can be cut so that the prefix stands where the template has the prefix, the date where
   it has the date, each literal character at its place, and the padded numeral at each sequence field.
   */
  lemma {:induction false} RenderReads(segments: seq<Segment>, prefix: string, date: string, number: nat)
    requires AllDocumented(segments)
    ensures exists cuts :: IsCut(cuts, segments, Render(segments, prefix, date, number), prefix, date, number)
  {
    if segments == [] {
      var cuts: seq<nat> := [0];
      assert IsCut(cuts, segments, Render(segments, prefix, date, number), prefix, date, number);
    } else {
      var rest, text := segments[1..], Render(segments[1..], prefix, date, number);
      RenderReads(rest, prefix, date, number);
      SegmentReads(segments[0], prefix, date, number);
      hide IsCut, Reads, RenderSegment;
      var cuts :| IsCut(cuts, rest, text, prefix, date, number);
      var head := RenderSegment(segments[0], prefix, date, number);
      var cuts' := CutCons(head, cuts, segments[0], rest, text, prefix, date, number);
      assert segments == [segments[0]] + rest && Render(segments, prefix, date, number) == head + text;
      assert IsCut(cuts', segments, head + text, prefix, date, number);
    }
  }

  // ---------- Validation ----------

  function FieldNames(segments: seq<Segment>): seq<string> {
    if segments == [] then []
    else
      var rest := FieldNames(segments[1..]);
      match segments[0]
      case Literal(_) => rest
      case Positional => rest
      case Prefix => ["prefix"] + rest
      case Date => ["date"] + rest
      case Sequence(_) => ["sequence"] + rest
      case Unknown(name) => [name] + rest
  }

  /** No unknown field carries the name of a placeholder; the parser never makes one. */
  predicate WellNamed(segments: seq<Segment>) {
    forall i :: 0 <= i < |segments| && segments[i].Unknown? ==>
      segments[i].name != "prefix" && segments[i].name != "date" && segments[i].name != "sequence"
  }

  lemma {:induction false} ParseWellNamed(s: string)
    ensures Parse(s).Template? ==> WellNamed(Parse(s).segments)
    decreases |s|
  {
    if s == "" {
    } else if s[0] == '{' {
      if |s| >= 2 && s[1] == '{' {
        ParseWellNamed(s[2..]);
      } else {
        var close := Find(s[1..], '}');
        if close != |s| - 1 { ParseWellNamed(s[1..][close + 1..]); }
      }
    } else if s[0] == '}' {
      if |s| >= 2 && s[1] == '}' { ParseWellNamed(s[2..]); }
    } else {
      ParseWellNamed(s[1..]);
    }
  }

  lemma {:induction false} FieldNamesExactly(segments: seq<Segment>)
    requires WellNamed(segments)
    ensures "sequence" in FieldNames(segments) <==> HasSequence(segments)
    ensures (forall name :: name in FieldNames(segments) ==> name in ["prefix", "date", "sequence"]) <==>
            forall i :: 0 <= i < |segments| ==> !segments[i].Unknown?
  {
    if segments == [] {
    } else {
      var head, rest := segments[0], segments[1..];
      FieldNamesExactly(rest);
      assert forall i :: 0 <= i < |rest| ==> rest[i] == segments[i + 1];
      SequenceInRest(segments);
      hide HasSequence;
      if head.Unknown? { assert head.name in FieldNames(segments); }
      assert forall name :: name in FieldNames(rest) ==> name in FieldNames(segments);
    }
  }

  /** validate_invoice_number_format.  Raised: a ValueError leaves the function. */
  function Validate(format: string): Verdict
    requires !Parse(format).Undocumented?
  {
    if format == "" then Rejected
    else if Parse(format).Malformed? then Raised
    else
      var segments := Parse(format).segments;
      var names := FieldNames(segments);
      if names == [] then Rejected
      else if exists name :: name in names && name !in ["prefix", "date", "sequence"] then Rejected
      else if "sequence" !in names then Rejected
      else if exists i :: 0 <= i < |segments| && !segments[i].Documented() then Rejected
      else
        var sample := Render(segments, SAMPLE_PREFIX, SAMPLE_DATE, 1);
        if |sample| == 0 || |sample| > MAX_SAMPLE_LENGTH then Rejected
        else if sample != format then Accepted
        else Rejected
  }

  function CountOpen(s: string): nat {
    if s == "" then 0 else (if s[0] == '{' then 1 else 0) + CountOpen(s[1..])
  }

  lemma {:induction false} CountOpenConcat(a: string, b: string)
    ensures CountOpen(a + b) == CountOpen(a) + CountOpen(b)
  {
    if a == "" {
      assert a + b == b;
    } else {
      assert (a + b)[1..] == a[1..] + b;
      CountOpenConcat(a[1..], b);
    }
  }

  lemma {:induction false} CountOpenZero(s: string)
    requires '{' !in s
    ensures CountOpen(s) == 0
  {
    if s == "" {
    } else {
      CountOpenZero(s[1..]);
    }
  }

  /** How many opening braces a segment takes in the text, beyond those it renders. */
  function Braces(segments: seq<Segment>): nat {
    if segments == [] then 0
    else (if segments[0].Literal? then if segments[0].c == '{' then 2 else 0 else 1) + Braces(segments[1..])
  }

  /** A field's own text has no opening brace. */
  lemma CountOpenAfterField(t: string, close: nat)
    requires close < |t| && t[close] == '}' && '{' !in t[..close]
    ensures CountOpen(t) == CountOpen(t[close + 1..])
  {
    CountOpenZero(t[..close]);
    assert t == t[..close] + t[close..];
    CountOpenConcat(t[..close], t[close..]);
    assert t[close..][1..] == t[close + 1..];
  }

  lemma BracesCons(segment: Segment, rest: seq<Segment>)
    ensures Braces([segment] + rest) ==
            (if segment.Literal? then if segment.c == '{' then 2 else 0 else 1) + Braces(rest)
  {
    assert ([segment] + rest)[1..] == rest;
  }

  lemma {:induction false} BracesInText(s: string)
    requires Parse(s).Template?
    ensures CountOpen(s) == Braces(Parse(s).segments)
    decreases |s|
  {
    hide ParseField, Braces;
    if s == "" {
      assert Braces([]) == 0 by { NoBraces(); }
    } else {
      var head, rest := Parse(s).segments[0], Parse(s).segments[1..];
      assert Parse(s).segments == [head] + rest;
      BracesCons(head, rest);
      if s[0] == '{' {
        if |s| >= 2 && s[1] == '{' {
          BracesInText(s[2..]);
          assert s[1..][1..] == s[2..];
        } else {
          var t := s[1..];
          var close := Find(t, '}');
          BracesInText(t[close + 1..]);
          CountOpenAfterField(t, close);
        }
      } else if s[0] == '}' {
        BracesInText(s[2..]);
        assert s[1..][1..] == s[2..];
      } else {
        BracesInText(s[1..]);
      }
    }
  }

  lemma NoBraces()
    ensures Braces([]) == 0
  {
  }

  lemma SegmentBraces(segment: Segment)
    requires segment.Documented()
    ensures CountOpen(RenderSegment(segment, SAMPLE_PREFIX, SAMPLE_DATE, 1)) ==
            if segment.Literal? && segment.c == '{' then 1 else 0
  {
    if segment.Literal? {
      assert CountOpen([segment.c][1..]) == 0;
    } else {
      assert forall c :: c in ZeroPadded(1, if segment.Sequence? then segment.width else 0) ==> IsDigit(c);
      CountOpenZero(RenderSegment(segment, SAMPLE_PREFIX, SAMPLE_DATE, 1));
    }
  }

  lemma {:induction false} BracesRendered(segments: seq<Segment>)
    requires AllDocumented(segments)
    ensures CountOpen(Render(segments, SAMPLE_PREFIX, SAMPLE_DATE, 1)) <= Braces(segments)
    ensures HasSequence(segments) ==>
              CountOpen(Render(segments, SAMPLE_PREFIX, SAMPLE_DATE, 1)) < Braces(segments)
  {
    if segments == [] {
    } else {
      var head, rest := segments[0], segments[1..];
      var h := RenderSegment(head, SAMPLE_PREFIX, SAMPLE_DATE, 1);
      BracesRendered(rest);
      CountOpenConcat(h, Render(rest, SAMPLE_PREFIX, SAMPLE_DATE, 1));
      SequenceInRest(segments);
      SegmentBraces(head);
    }
  }

  /** The check that the sample differs from the format never fails: a placeholder has a brace too many. */
  lemma SampleDiffers(format: string)
    requires Parse(format).Template?
    requires AllDocumented(Parse(format).segments) && HasSequence(Parse(format).segments)
    ensures Render(Parse(format).segments, SAMPLE_PREFIX, SAMPLE_DATE, 1) != format
  {
    BracesInText(format);
    BracesRendered(Parse(format).segments);
  }

  lemma {:induction false} RenderNonEmpty(segments: seq<Segment>, prefix: string, date: string, n: nat)
    requires AllDocumented(segments) && HasSequence(segments)
    ensures |Render(segments, prefix, date, n)| > 0
  {
    SequenceInRest(segments);
    if segments[0].Sequence? {
    } else {
      RenderNonEmpty(segments[1..], prefix, date, n);
    }
  }

  /** Braces balance: each opening one is doubled or closed later, each closing one closes a field or is doubled. */
  predicate Balanced(s: string)
    decreases |s|
  {
    if s == "" then true
    else if s[0] == '{' then if |s| >= 2 && s[1] == '{' then Balanced(s[2..]) else Closes(s[1..])
    else if s[0] == '}' then |s| >= 2 && s[1] == '}' && Balanced(s[2..])
    else Balanced(s[1..])
  }

  /** The same from inside a field. */
  predicate Closes(s: string)
    decreases |s|
  {
    s != "" && if s[0] == '}' then Balanced(s[1..]) else Closes(s[1..])
  }

  lemma {:induction false} ClosesAtFirst(s: string)
    ensures var close := Find(s, '}');
            Closes(s) <==> close < |s| && Balanced(s[close + 1..])
  {
    if s == "" || s[0] == '}' {
    } else {
      ClosesAtFirst(s[1..]);
      var close := Find(s, '}');
      if close < |s| { assert s[1..][close..] == s[close + 1..]; }
    }
  }

  /** The parse fails exactly on unbalanced braces. */
  lemma {:induction false} MalformedIffUnbalanced(s: string)
    requires !Parse(s).Undocumented?
    ensures Parse(s).Malformed? <==> !Balanced(s)
    decreases |s|
  {
    hide ParseField;
    if s == "" {
    } else if s[0] == '{' {
      if |s| >= 2 && s[1] == '{' {
        MalformedIffUnbalanced(s[2..]);
      } else {
        var close := Find(s[1..], '}');
        ClosesAtFirst(s[1..]);
        if close < |s[1..]| { MalformedIffUnbalanced(s[1..][close + 1..]); }
      }
    } else if s[0] == '}' {
      if |s| >= 2 && s[1] == '}' { MalformedIffUnbalanced(s[2..]); }
    } else {
      MalformedIffUnbalanced(s[1..]);
    }
  }

  /**
   Exactly which formats are accepted, and on which the validator raises instead of answering
   False as its documentation promises: the raise is the parse at the top, outside the try block.
   */
  lemma ValidateExactly(format: string)
    requires !Parse(format).Undocumented?
    ensures Validate(format) == Raised <==> !Balanced(format)
    ensures Validate(format) == Accepted <==>
            && Balanced(format)
            && AllDocumented(Parse(format).segments)
            && HasSequence(Parse(format).segments)
            && |Render(Parse(format).segments, SAMPLE_PREFIX, SAMPLE_DATE, 1)| <= MAX_SAMPLE_LENGTH
  {
    MalformedIffUnbalanced(format);
    hide Balanced, Parse, Render, FieldNames;
    if Parse(format).Template? {
      var segments := Parse(format).segments;
      ParseWellNamed(format);
      FieldNamesExactly(segments);
      if AllDocumented(segments) && HasSequence(segments) {
        SampleDiffers(format);
        RenderNonEmpty(segments, SAMPLE_PREFIX, SAMPLE_DATE, 1);
        assert FieldNames(segments) != [] by { assert "sequence" in FieldNames(segments); }
      }
    }
  }

  /** An unclosed brace makes the validator raise. */
  lemma RaisesOnUnclosedBrace()
    ensures Validate("{sequence") == Raised
  {
    var s := "{sequence";
    assert '}' !in s[1..];
    assert Find(s[1..], '}') == |s| - 1;
  }

  /** The format generate_invoice_number renders with, unless the validator raises. */
  function Effective(format: string): (segments: seq<Segment>)
    requires !Parse(format).Undocumented? && Validate(format) != Raised
    ensures AllDocumented(segments) && HasSequence(segments)
  {
    if Validate(format) == Accepted then
      ValidateExactly(format);
      Parse(format).segments
    else
      assert DEFAULT_SEGMENTS[4].Sequence?;
      DEFAULT_SEGMENTS
  }

  lemma UnparseCons(head: Segment, rest: seq<Segment>)
    requires head.Documented() && AllDocumented(rest)
    ensures AllDocumented([head] + rest)
    ensures Unparse([head] + rest) == UnparseSegment(head) + Unparse(rest)
  {
    assert ([head] + rest)[1..] == rest;
  }

  /** The default template, and the text of its last k segments. */
  lemma DefaultFrom(k: nat)
    requires k < 5
    ensures AllDocumented(DEFAULT_SEGMENTS[k..]) && DEFAULT_SEGMENTS[k].Documented()
    ensures Unparse(DEFAULT_SEGMENTS[k..]) == UnparseSegment(DEFAULT_SEGMENTS[k]) + Unparse(DEFAULT_SEGMENTS[k + 1..])
  {
    var head, rest := DEFAULT_SEGMENTS[k], DEFAULT_SEGMENTS[k + 1..];
    assert DEFAULT_SEGMENTS[k..] == [head] + rest;
    UnparseCons(head, rest);
  }

  lemma DefaultSequenceText()
    ensures UnparseSegment(Sequence(4)) == "{sequence:04d}"
  {
    var four := ['4'];
    assert DigitChar(4) == '4';
    assert Digits(4) == four;
    assert ZeroPadSpec(4) == "04d";
  }

  lemma DefaultConcatenated()
    ensures "{prefix}" + ("-" + ("{date}" + ("-" + "{sequence:04d}"))) == DEFAULT_FORMAT
  {
  }

  lemma DefaultText()
    ensures Unparse(DEFAULT_SEGMENTS) == DEFAULT_FORMAT
  {
    DefaultFrom(0);
    DefaultFrom(1);
    DefaultFrom(2);
    DefaultFrom(3);
    DefaultFrom(4);
    DefaultSequenceText();
    PlaceholderTexts();
    DefaultConcatenated();
    hide Unparse, UnparseSegment, AllDocumented, DEFAULT_FORMAT;
    assert DEFAULT_SEGMENTS[5..] == [] && DEFAULT_SEGMENTS[0..] == DEFAULT_SEGMENTS;
  }

  lemma PlaceholderTexts()
    ensures UnparseSegment(Prefix) == "{prefix}" && UnparseSegment(Date) == "{date}"
    ensures UnparseSegment(Literal('-')) == "-"
  {
  }

  lemma DefaultSampleLength()
    ensures |Render(DEFAULT_SEGMENTS, SAMPLE_PREFIX, SAMPLE_DATE, 1)| == 18
  {
    var t := DEFAULT_SEGMENTS;
    assert t[1..][1..] == t[2..] && t[2..][1..] == t[3..] && t[3..][1..] == t[4..] && t[4..][1..] == [];
    assert |ZeroPadded(1, 4)| == 4;
  }

  /** The fallback template is what the default format string says, and that string is valid. */
  lemma DefaultFormat()
    ensures Parse(DEFAULT_FORMAT) == Template(DEFAULT_SEGMENTS)
    ensures Validate(DEFAULT_FORMAT) == Accepted
  {
    DefaultText();
    assert AllDocumented(DEFAULT_SEGMENTS) && DEFAULT_SEGMENTS[4].Sequence?;
    hide DEFAULT_FORMAT, DEFAULT_SEGMENTS, Parse, Unparse, Render, Validate, Balanced, AllDocumented;
    ParseUnparse(DEFAULT_SEGMENTS);
    DefaultSampleLength();
    ValidateExactly(DEFAULT_FORMAT);
  }

  /** PREFIX-YYYYMMDD-NNNN, as the fallback template renders it. */
  lemma DefaultRendered(prefix: string, date: string, number: nat)
    ensures AllDocumented(DEFAULT_SEGMENTS)
    ensures Render(DEFAULT_SEGMENTS, prefix, date, number) ==
            prefix + ("-" + (date + ("-" + ZeroPadded(number, 4))))
  {
    RenderFrom(0, prefix, date, number);
    RenderFrom(1, prefix, date, number);
    RenderFrom(2, prefix, date, number);
    RenderFrom(3, prefix, date, number);
    RenderFrom(4, prefix, date, number);
    hide Render, ZeroPadded;
    assert DEFAULT_SEGMENTS[5..] == [] && DEFAULT_SEGMENTS[0..] == DEFAULT_SEGMENTS;
    assert Render([], prefix, date, number) == "" by { NothingRendered(prefix, date, number); }
    assert ZeroPadded(number, 4) + "" == ZeroPadded(number, 4);
  }

  lemma NothingRendered(prefix: string, date: string, number: nat)
    ensures Render([], prefix, date, number) == ""
  {
  }

  lemma RenderFrom(k: nat, prefix: string, date: string, number: nat)
    requires k < 5
    ensures AllDocumented(DEFAULT_SEGMENTS[k..]) && AllDocumented(DEFAULT_SEGMENTS[k + 1..])
    ensures DEFAULT_SEGMENTS[k].Documented()
    ensures Render(DEFAULT_SEGMENTS[k..], prefix, date, number) ==
            RenderSegment(DEFAULT_SEGMENTS[k], prefix, date, number)
            + Render(DEFAULT_SEGMENTS[k + 1..], prefix, date, number)
  {
    assert DEFAULT_SEGMENTS[k..][1..] == DEFAULT_SEGMENTS[k + 1..];
  }

  /** Without a format that is accepted, the fallback template is in force. */
  lemma FallsBack(format: string)
    requires format == DEFAULT_FORMAT || (!Parse(format).Undocumented? && Validate(format) == Rejected)
    ensures !Parse(format).Undocumented? && Validate(format) != Raised && Effective(format) == DEFAULT_SEGMENTS
  {
    DefaultFormat();
    hide DEFAULT_FORMAT, DEFAULT_SEGMENTS, Parse, Validate;
  }
}
