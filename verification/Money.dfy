/** Invoice arithmetic: exact totals, and what Numeric(10,2) columns keep of them. */
module Money {
  import opened Model

  datatype Totals = Totals(subtotal: real, tax: real, discount: real, total: real)

  function LineTotal(line: Line): real { line.quantity * line.unitPrice }

  function LineTotals(lines: seq<Line>): (r: seq<real>)
    ensures |r| == |lines| && forall i :: 0 <= i < |r| ==> r[i] == LineTotal(lines[i])
  {
    seq(|lines|, i requires 0 <= i < |lines| => LineTotal(lines[i]))
  }

  function Sum(s: seq<real>): real {
    if s == [] then 0.0 else s[0] + Sum(s[1..])
  }

  /** calculate_totals. */
  function CalculateTotals(totals: seq<real>, taxRate: Option<real>): Totals {
    var subtotal := Sum(totals);
    var tax := if taxRate.Some? && taxRate.value > 0.0 then subtotal * (taxRate.value / 100.0) else 0.0;
    var discount := 0.0;
    Totals(subtotal, tax, discount, subtotal + tax - discount)
  }

  // ---------- The order of the items does not matter ----------

  lemma {:induction false} SumWithout(s: seq<real>, k: nat)
    requires k < |s|
    ensures Sum(s) == s[k] + Sum(Remove(s, k))
  {
    if k == 0 {
      assert Remove(s, 0) == s[1..];
    } else {
      SumWithout(s[1..], k - 1);
      assert Remove(s, k)[1..] == Remove(s[1..], k - 1);
    }
  }

  lemma {:induction false} SumOfPermutation(s: seq<real>, t: seq<real>)
    requires multiset(s) == multiset(t)
    ensures Sum(s) == Sum(t)
    decreases |s|
  {
    assert |s| == |multiset(s)| == |multiset(t)| == |t|;
    if s == [] {
    } else {
      assert s[0] in multiset(t);
      var k :| 0 <= k < |t| && t[k] == s[0];
      MultisetOfRemove(t, k);
      MultisetOfRemove(s, 0);
      assert Remove(s, 0) == s[1..];
      SumOfPermutation(s[1..], Remove(t, k));
      SumWithout(t, k);
    }
  }

  lemma {:induction false} TotalsOfPermutation(lines: seq<Line>, other: seq<Line>)
    requires multiset(lines) == multiset(other)
    ensures multiset(LineTotals(lines)) == multiset(LineTotals(other))
    decreases |lines|
  {
    assert |lines| == |multiset(lines)| == |multiset(other)| == |other|;
    if lines == [] {
    } else {
      assert lines[0] in multiset(other);
      var k :| 0 <= k < |other| && other[k] == lines[0];
      MultisetOfRemove(other, k);
      MultisetOfRemove(lines, 0);
      TotalsOfPermutation(Remove(lines, 0), Remove(other, k));
      assert LineTotals(Remove(lines, 0)) == Remove(LineTotals(lines), 0);
      assert LineTotals(Remove(other, k)) == Remove(LineTotals(other), k);
      MultisetOfRemove(LineTotals(lines), 0);
      MultisetOfRemove(LineTotals(other), k);
    }
  }

  /** Reordering the items of an invoice leaves all four totals as they were. */
  lemma TotalsIgnoreOrder(lines: seq<Line>, other: seq<Line>, taxRate: Option<real>)
    requires multiset(lines) == multiset(other)
    ensures CalculateTotals(LineTotals(lines), taxRate) == CalculateTotals(LineTotals(other), taxRate)
  {
    TotalsOfPermutation(lines, other);
    SumOfPermutation(LineTotals(lines), LineTotals(other));
  }

  // ---------- Storage rounding ----------

  /** `cents` is a nearest multiple of 0.01 to x; a tie may go either way. */
  predicate IsNearest(x: real, cents: int) {
    -0.5 <= x * 100.0 - cents as real <= 0.5
  }

  ghost predicate RoundsToNearest(round: real -> int) {
    forall x: real :: IsNearest(x, round(x))
  }

  function HalfUp(x: real): (cents: int)
    ensures IsNearest(x, cents)
  {
    (x * 100.0 + 0.5).Floor
  }

  function StoreLine(round: real -> int, line: Line): StoredLine {
    StoredLine(line.description, round(line.quantity), round(line.unitPrice), round(LineTotal(line)))
  }

  function StoreLines(round: real -> int, lines: seq<Line>): (r: seq<StoredLine>)
    ensures |r| == |lines| && forall i :: 0 <= i < |r| ==> r[i] == StoreLine(round, lines[i])
  {
    seq(|lines|, i requires 0 <= i < |lines| => StoreLine(round, lines[i]))
  }

  function StoreTotals(round: real -> int, totals: Totals): Amounts {
    Amounts(round(totals.subtotal), round(totals.tax), round(totals.discount), round(totals.total))
  }

  // ---------- How large the amounts are ----------

  lemma {:induction false} SumAdds(s: seq<real>, t: seq<real>)
    ensures Sum(s + t) == Sum(s) + Sum(t)
  {
    if s == [] {
      assert s + t == t;
    } else {
      assert (s + t)[1..] == s[1..] + t;
      SumAdds(s[1..], t);
    }
  }

  /** The exact subtotal: nothing for no items, quantity times price for one, and it adds up over more. */
  lemma SubtotalAdds(a: seq<Line>, b: seq<Line>, line: Line, taxRate: Option<real>)
    ensures CalculateTotals(LineTotals([]), taxRate).subtotal == 0.0
    ensures CalculateTotals(LineTotals([line]), taxRate).subtotal == line.quantity * line.unitPrice
    ensures CalculateTotals(LineTotals(a + b), taxRate).subtotal ==
            CalculateTotals(LineTotals(a), taxRate).subtotal + CalculateTotals(LineTotals(b), taxRate).subtotal
  {
    assert LineTotals([line])[1..] == [];
    SumAdds(LineTotals(a), LineTotals(b));
    assert LineTotals(a + b) == LineTotals(a) + LineTotals(b);
  }

  lemma ScaleBetween(d: real, f: real)
    requires f > 0.0 && -0.5 <= d <= 0.5
    ensures -0.5 * f <= d * f <= 0.5 * f
  {
  }

  lemma Scaled(s: real, y: real, r: real)
    ensures s * (r / 100.0) * 100.0 - y * r / 100.0 == (s * 100.0 - y) * (r / 100.0)
  {
    var f := r / 100.0;
    assert s * f * 100.0 == s * 100.0 * f;
    assert y * r / 100.0 == y * f;
    assert (s * 100.0 - y) * f == s * 100.0 * f - y * f;
  }

  lemma TaxNear(s: real, subtotal: int, tax: real, stored: int, r: real)
    requires r > 0.0 && tax == s * (r / 100.0) && IsNearest(s, subtotal) && IsNearest(tax, stored)
    ensures -(0.5 + r / 200.0) <= stored as real - subtotal as real * r / 100.0 <= 0.5 + r / 200.0
  {
    var d, f, share := s * 100.0 - subtotal as real, r / 100.0, subtotal as real * r / 100.0;
    Scaled(s, subtotal as real, r);
    ScaleBetween(d, f);
    var error := d * f;
    assert tax * 100.0 - share == error;
    assert -(r / 200.0) <= error <= r / 200.0;
  }

  /** The stored tax is the rate's share of the stored subtotal, up to the rounding of both columns. */
  lemma StoredTax(round: real -> int, totals: seq<real>, taxRate: Option<real>)
    requires RoundsToNearest(round)
    ensures var a := StoreTotals(round, CalculateTotals(totals, taxRate));
            && a.discount == 0
            && (taxRate.None? || taxRate.value <= 0.0 ==> a.tax == 0)
            && (taxRate.Some? && taxRate.value > 0.0 ==>
                  var r := taxRate.value;
                  -(0.5 + r / 200.0) <= a.tax as real - a.subtotal as real * r / 100.0 <= 0.5 + r / 200.0)
  {
    var t := CalculateTotals(totals, taxRate);
    var a := StoreTotals(round, t);
    assert IsNearest(t.subtotal, a.subtotal) && IsNearest(t.tax, a.tax) && IsNearest(0.0, a.discount);
    if taxRate.Some? && taxRate.value > 0.0 {
      TaxNear(t.subtotal, a.subtotal, t.tax, a.tax, taxRate.value);
    }
  }

  /** Each stored column of an item is a nearest hundredth of what was submitted. */
  lemma StoredLineNear(round: real -> int, lines: seq<Line>, i: nat)
    requires RoundsToNearest(round) && i < |lines|
    ensures var line, item := lines[i], StoreLines(round, lines)[i];
            && item.description == line.description
            && -0.5 <= line.quantity * 100.0 - item.quantity as real <= 0.5
            && -0.5 <= line.unitPrice * 100.0 - item.unitPrice as real <= 0.5
            && -0.5 <= line.quantity * line.unitPrice * 100.0 - item.total as real <= 0.5
  {
    var line := lines[i];
    assert IsNearest(line.quantity, round(line.quantity)) && IsNearest(line.unitPrice, round(line.unitPrice));
    assert IsNearest(LineTotal(line), round(LineTotal(line)));
  }

  function SumCents(lines: seq<StoredLine>): int {
    if lines == [] then 0 else lines[0].total + SumCents(lines[1..])
  }

  /** Each column is rounded on its own, yet the stored columns still add up to within a cent. */
  lemma StoredTotalWithinOneCent(round: real -> int, totals: seq<real>, taxRate: Option<real>)
    requires RoundsToNearest(round)
    ensures var a := StoreTotals(round, CalculateTotals(totals, taxRate));
            -1 <= a.total - (a.subtotal + a.tax - a.discount) <= 1
  {
    var t := CalculateTotals(totals, taxRate);
    var a := StoreTotals(round, t);
    assert IsNearest(t.subtotal, a.subtotal) && IsNearest(t.tax, a.tax);
    assert IsNearest(t.discount, a.discount) && IsNearest(t.total, a.total);
    var error := a.total - (a.subtotal + a.tax - a.discount);
    assert -2.0 < error as real < 2.0;
  }

  lemma {:induction false} StoredLinesDrift(round: real -> int, lines: seq<Line>)
    requires RoundsToNearest(round)
    ensures var n := |lines| as real;
            -n / 2.0 <= Sum(LineTotals(lines)) * 100.0 - SumCents(StoreLines(round, lines)) as real <= n / 2.0
  {
    if lines == [] {
    } else {
      StoredLinesDrift(round, lines[1..]);
      assert LineTotals(lines)[1..] == LineTotals(lines[1..]);
      assert StoreLines(round, lines)[1..] == StoreLines(round, lines[1..]);
      assert IsNearest(LineTotal(lines[0]), round(LineTotal(lines[0])));
    }
  }

  /** The stored subtotal drifts from the stored line totals by at most half a cent a column. */
  lemma StoredSubtotalDrift(round: real -> int, lines: seq<Line>, taxRate: Option<real>)
    requires RoundsToNearest(round)
    ensures var a := StoreTotals(round, CalculateTotals(LineTotals(lines), taxRate));
            var drift := a.subtotal - SumCents(StoreLines(round, lines));
            -((|lines| + 1) / 2) <= drift <= (|lines| + 1) / 2
  {
    StoredLinesDrift(round, lines);
    var subtotal := CalculateTotals(LineTotals(lines), taxRate).subtotal;
    assert IsNearest(subtotal, round(subtotal));
    var drift := round(subtotal) - SumCents(StoreLines(round, lines));
    assert 2.0 * (drift as real) <= (|lines| + 1) as real;
    assert -((|lines| + 1) as real) <= 2.0 * (drift as real);
  }

  /** The bound is met: two items of half a cent each are stored as 2 cents against a subtotal of 1. */
  lemma DriftIsReal()
    ensures RoundsToNearest(HalfUp)
    ensures var lines := [Line("a", 1.0, 0.005), Line("b", 1.0, 0.005)];
            var a := StoreTotals(HalfUp, CalculateTotals(LineTotals(lines), None));
            a.subtotal == 1 && SumCents(StoreLines(HalfUp, lines)) == 2
  {
    var lines := [Line("a", 1.0, 0.005), Line("b", 1.0, 0.005)];
    var a, b := lines[0], lines[1];
    var t := LineTotals(lines);
    assert LineTotal(a) == 0.005 && LineTotal(b) == 0.005;
    assert t[1..][1..] == [];
    assert Sum(t[1..]) == t[1] + Sum(t[1..][1..]);
    assert Sum(t) == 0.01;
    var s := StoreLines(HalfUp, lines);
    assert s[1..][1..] == [];
    assert SumCents(s[1..]) == s[1].total + SumCents(s[1..][1..]);
    assert HalfUp(0.005) == 1 && HalfUp(0.01) == 1;
    assert SumCents(s) == s[0].total + s[1].total;
  }
}
