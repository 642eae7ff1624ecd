/** Calendar dates, their YYYY-MM-DD form, and the two orders on them. */
module Calendar {
  import opened Model
  import opened Decimals

  datatype Date = Date(year: int, month: int, day: int)

  predicate Leap(y: int) { y % 4 == 0 && (y % 100 != 0 || y % 400 == 0) }

  function DaysInMonth(y: int, m: int): int {
    if m == 2 then if Leap(y) then 29 else 28
    else if m == 4 || m == 6 || m == 9 || m == 11 then 30
    else 31
  }

  predicate IsDate(d: Date) {
    1 <= d.year <= 9999 && 1 <= d.month <= 12 && 1 <= d.day <= DaysInMonth(d.year, d.month)
  }

  function DaysBeforeYear(y: int): int {
    365 * (y - 1) + (y - 1) / 4 - (y - 1) / 100 + (y - 1) / 400
  }

  function DaysBeforeMonth(y: int, m: int): int
    decreases m
  {
    if m <= 1 then 0 else DaysBeforeMonth(y, m - 1) + DaysInMonth(y, m - 1)
  }

  /** The day number: 1 January of year 1 is day 1. */
  function Ordinal(d: Date): int { DaysBeforeYear(d.year) + DaysBeforeMonth(d.year, d.month) + d.day }

  predicate Before(a: Date, b: Date) { Ordinal(a) < Ordinal(b) }

  // ---------- Text ----------

  function Field(n: nat, width: nat): string { ZeroPadded(n, width) }

  /** date.isoformat() */
  function IsoFormat(d: Date): string
    requires IsDate(d)
  {
    Field(d.year, 4) + ("-" + (Field(d.month, 2) + ("-" + Field(d.day, 2))))
  }

  /** The YYYY-MM-DD form: digits where they belong, naming a date that exists. */
  function ParseCanonical(s: string): Option<Date> {
    if |s| == 10 && s[4] == '-' && s[7] == '-'
       && AllDigits(s[0..4]) && AllDigits(s[5..7]) && AllDigits(s[8..10])
    then
      var d := Date(Value(s[0..4]), Value(s[5..7]), Value(s[8..10]));
      if IsDate(d) then Some(d) else None
    else None
  }

  /** String comparison by code point. */
  predicate StringLess(a: string, b: string) {
    if b == "" then false
    else if a == "" then true
    else a[0] < b[0] || (a[0] == b[0] && StringLess(a[1..], b[1..]))
  }

  lemma {:induction false} LessByParts(a: string, b: string, x: string, y: string)
    requires |a| == |b|
    ensures StringLess(a + x, b + y) <==> StringLess(a, b) || (a == b && StringLess(x, y))
  {
    if a == "" {
      assert a + x == x && b + y == y;
    } else {
      assert (a + x)[1..] == a[1..] + x && (b + y)[1..] == b[1..] + y;
      LessByParts(a[1..], b[1..], x, y);
      assert a == [a[0]] + a[1..] && b == [b[0]] + b[1..];
    }
  }

  /** On digit strings of one length, string order is numeric order. */
  lemma {:induction false} DigitOrder(a: string, b: string)
    requires |a| == |b| && AllDigits(a) && AllDigits(b)
    ensures StringLess(a, b) <==> Value(a) < Value(b)
    ensures a == b <==> Value(a) == Value(b)
  {
    if a == "" {
    } else {
      var n := |a| - 1;
      DigitOrder(a[..n], b[..n]);
      assert a == a[..n] + [a[n]] && b == b[..n] + [b[n]];
      LessByParts(a[..n], b[..n], [a[n]], [b[n]]);
      assert [a[n]][1..] == "" && [b[n]][1..] == "";
    }
  }

  lemma CanonicalParts(s: string)
    requires ParseCanonical(s).Some?
    ensures s == s[0..4] + ("-" + (s[5..7] + ("-" + s[8..10])))
  {
  }

  lemma YearFirst(a: Date, b: Date)
    requires IsDate(a) && IsDate(b) && a.year < b.year
    ensures Before(a, b)
  {
    WithinYear(a);
    WithinYear(b);
    YearsMonotone(a.year + 1, b.year);
  }

  lemma QuotientSteps(x: int)
    ensures x / 4 - (x - 1) / 4 == if x % 4 == 0 then 1 else 0
    ensures x / 100 - (x - 1) / 100 == if x % 100 == 0 then 1 else 0
    ensures x / 400 - (x - 1) / 400 == if x % 400 == 0 then 1 else 0
  {
  }

  lemma MultiplesOf400(x: int)
    ensures x % 400 == 0 ==> x % 100 == 0
    ensures x % 100 == 0 ==> x % 4 == 0
  {
  }

  lemma YearLength(x: int)
    ensures DaysBeforeYear(x + 1) == DaysBeforeYear(x) + 365 + (if Leap(x) then 1 else 0)
  {
    QuotientSteps(x);
    MultiplesOf400(x);
  }

  lemma {:induction false} YearsMonotone(x: int, y: int)
    requires x <= y
    ensures DaysBeforeYear(x) <= DaysBeforeYear(y)
    decreases y - x
  {
    if x == y {
    } else {
      YearsMonotone(x, y - 1);
      YearLength(y - 1);
    }
  }

  lemma {:induction false} MonthsMonotone(y: int, m: int, n: int)
    requires 1 <= m < n
    ensures DaysBeforeMonth(y, m) + DaysInMonth(y, m) <= DaysBeforeMonth(y, n)
    decreases n
  {
    if m == n - 1 {
    } else {
      MonthsMonotone(y, m, n - 1);
    }
  }

  lemma DaysOfYear(y: int)
    ensures DaysBeforeMonth(y, 13) == 365 + (if Leap(y) then 1 else 0)
  {
    var leap := if Leap(y) then 1 else 0;
    assert DaysBeforeMonth(y, 3) == 59 + leap;
    assert DaysBeforeMonth(y, 5) == 120 + leap;
    assert DaysBeforeMonth(y, 7) == 181 + leap;
    assert DaysBeforeMonth(y, 9) == 243 + leap;
    assert DaysBeforeMonth(y, 11) == 304 + leap;
  }

  lemma WithinYear(d: Date)
    requires IsDate(d)
    ensures DaysBeforeYear(d.year) < Ordinal(d) <= DaysBeforeYear(d.year + 1)
  {
    DaysOfYear(d.year);
    MonthsMonotone(d.year, d.month, 13);
    if d.month > 1 { MonthsMonotone(d.year, 1, d.month); }
    YearLength(d.year);
  }

  lemma MonthFirst(a: Date, b: Date)
    requires IsDate(a) && IsDate(b) && a.year == b.year && a.month < b.month
    ensures Before(a, b)
  {
    MonthsMonotone(a.year, a.month, b.month);
  }

  /** Day numbers order dates by year, then month, then day. */
  lemma BeforeIsLexicographic(a: Date, b: Date)
    requires IsDate(a) && IsDate(b)
    ensures Before(a, b) <==>
            a.year < b.year || (a.year == b.year && (a.month < b.month || (a.month == b.month && a.day < b.day)))
  {
    if a.year < b.year { YearFirst(a, b); }
    else if b.year < a.year { YearFirst(b, a); }
    else if a.month < b.month { MonthFirst(a, b); }
    else if b.month < a.month { MonthFirst(b, a); }
  }

  /** In YYYY-MM-DD form, string order is calendar order. */
  lemma StringOrderIsCalendarOrder(s: string, t: string)
    requires ParseCanonical(s).Some? && ParseCanonical(t).Some?
    ensures StringLess(s, t) <==> Before(ParseCanonical(s).value, ParseCanonical(t).value)
  {
    CanonicalParts(s);
    CanonicalParts(t);
    var sd, td := "-" + s[8..10], "-" + t[8..10];
    var sm, tm := "-" + (s[5..7] + sd), "-" + (t[5..7] + td);
    LessByParts(s[0..4], t[0..4], sm, tm);
    LessByParts("-", "-", s[5..7] + sd, t[5..7] + td);
    LessByParts(s[5..7], t[5..7], sd, td);
    LessByParts("-", "-", s[8..10], t[8..10]);
    DigitOrder(s[0..4], t[0..4]);
    DigitOrder(s[5..7], t[5..7]);
    DigitOrder(s[8..10], t[8..10]);
    assert !StringLess("-", "-");
    BeforeIsLexicographic(ParseCanonical(s).value, ParseCanonical(t).value);
  }

  lemma FieldWidth(n: nat, width: nat)
    requires width == 2 || width == 4
    requires if width == 2 then n < 100 else n < 10000
    ensures |Field(n, width)| == width && Value(Field(n, width)) == n
  {
    ValueOfZeroPadded(n, width);
    assert n < 10 ==> |Digits(n)| == 1;
    assert n / 10 < 10 ==> |Digits(n / 10)| == 1;
    assert n / 10 / 10 < 10 ==> |Digits(n / 10 / 10)| == 1;
    assert n / 10 / 10 / 10 < 10 ==> |Digits(n / 10 / 10 / 10)| == 1;
  }

  /** Writing a date and reading it back. */
  lemma ParseIsoFormat(d: Date)
    requires IsDate(d)
    ensures ParseCanonical(IsoFormat(d)) == Some(d)
  {
    FieldWidth(d.year, 4);
    FieldWidth(d.month, 2);
    FieldWidth(d.day, 2);
    var s := IsoFormat(d);
    assert s[0..4] == Field(d.year, 4) && s[5..7] == Field(d.month, 2) && s[8..10] == Field(d.day, 2);
  }
}
