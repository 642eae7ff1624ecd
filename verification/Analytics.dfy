/** The analytics endpoints: what they compute from the invoices of one tenant. */
module Analytics {
  import opened Model

  /** WHERE tenant_id = t, in table order. */
  function TenantRows(rows: seq<Invoice>, t: TenantId): seq<Invoice> {
    if rows == [] then []
    else (if rows[0].tenant == t then [rows[0]] else []) + TenantRows(rows[1..], t)
  }

  /** COUNT and SUM(total_amount) WHERE status = st. */
  function Count(rows: seq<Invoice>, st: Status): nat {
    if rows == [] then 0 else (if rows[0].status == st then 1 else 0) + Count(rows[1..], st)
  }

  function Amount(rows: seq<Invoice>, st: Status): int {
    if rows == [] then 0 else (if rows[0].status == st then rows[0].amounts.total else 0) + Amount(rows[1..], st)
  }

  function SummaryOf(mine: seq<Invoice>, currency: string): Summary {
    Summary(|mine|, Count(mine, Draft), Count(mine, Sent), Count(mine, Paid), Count(mine, Overdue),
            Amount(mine, Paid), Amount(mine, Sent), Amount(mine, Overdue), currency)
  }

  datatype Group = Group(status: Status, count: nat, amount: int)

  /** One row of the query: its group grows, or a new group begins. */
  function AddRow(groups: seq<Group>, row: Invoice): seq<Group> {
    if groups == [] then [Group(row.status, 1, row.amounts.total)]
    else
      var g := groups[0];
      if g.status == row.status then [Group(g.status, g.count + 1, g.amount + row.amounts.total)] + groups[1..]
      else [g] + AddRow(groups[1..], row)
  }

  function GroupInto(groups: seq<Group>, rows: seq<Invoice>): seq<Group>
    decreases |rows|
  {
    if rows == [] then groups else GroupInto(AddRow(groups, rows[0]), rows[1..])
  }

  /** GROUP BY status: one pass over the rows, accumulating COUNT and SUM(total_amount). */
  function GroupBy(rows: seq<Invoice>): seq<Group> { GroupInto([], rows) }

  function EntryOf(g: Group, currency: string): StatusRevenue {
    StatusRevenue(g.status, g.count, g.amount, currency)
  }

  /** The response list. */
  function Entries(groups: seq<Group>, currency: string): (r: seq<StatusRevenue>)
    ensures |r| == |groups| && forall i :: 0 <= i < |r| ==> r[i] == EntryOf(groups[i], currency)
  {
    seq(|groups|, i requires 0 <= i < |groups| => EntryOf(groups[i], currency))
  }

  datatype Kind = InvoiceSummary | RevenueByStatus

  function Compute(db: Db, t: TenantId, currency: string, kind: Kind): Report {
    var mine := TenantRows(db.invoices, t);
    match kind
    case InvoiceSummary => SummaryReport(SummaryOf(mine, currency))
    case RevenueByStatus => RevenueReport(Entries(GroupBy(mine), currency))
  }

  // ---------- The one pass against the counts and sums of the summary ----------

  /** What the groups hold of a status. */
  function CountIn(groups: seq<Group>, st: Status): nat {
    if groups == [] then 0 else (if groups[0].status == st then groups[0].count else 0) + CountIn(groups[1..], st)
  }

  function AmountIn(groups: seq<Group>, st: Status): int {
    if groups == [] then 0 else (if groups[0].status == st then groups[0].amount else 0) + AmountIn(groups[1..], st)
  }

  /** No group is empty, and no status has two. */
  ghost predicate Grouped(groups: seq<Group>) {
    && (forall i :: 0 <= i < |groups| ==> groups[i].count >= 1)
    && (forall i, j :: 0 <= i < j < |groups| ==> groups[i].status != groups[j].status)
  }

  lemma {:induction false} AddRowAdds(groups: seq<Group>, row: Invoice, st: Status)
    ensures CountIn(AddRow(groups, row), st) == CountIn(groups, st) + One(row, st)
    ensures AmountIn(AddRow(groups, row), st) == AmountIn(groups, st) + Worth(row, st)
  {
    var after := AddRow(groups, row);
    if groups == [] {
      assert after[1..] == [];
    } else if groups[0].status == row.status {
      assert after[1..] == groups[1..];
    } else {
      AddRowAdds(groups[1..], row, st);
      assert after[1..] == AddRow(groups[1..], row);
    }
  }

  lemma {:induction false} AddRowGroups(groups: seq<Group>, row: Invoice)
    requires Grouped(groups)
    ensures Grouped(AddRow(groups, row))
    ensures forall g :: g in AddRow(groups, row) ==> g.status == row.status || g in groups
  {
    if groups == [] || groups[0].status == row.status {
    } else {
      AddRowGroups(groups[1..], row);
    }
  }

  lemma {:induction false} GroupIntoAdds(groups: seq<Group>, rows: seq<Invoice>, st: Status)
    requires Grouped(groups)
    ensures Grouped(GroupInto(groups, rows))
    ensures CountIn(GroupInto(groups, rows), st) == CountIn(groups, st) + Count(rows, st)
    ensures AmountIn(GroupInto(groups, rows), st) == AmountIn(groups, st) + Amount(rows, st)
    decreases |rows|
  {
    hide Grouped, AddRow, CountIn, AmountIn;
    if rows == [] {
    } else {
      AddRowAdds(groups, rows[0], st);
      AddRowGroups(groups, rows[0]);
      GroupIntoAdds(AddRow(groups, rows[0]), rows[1..], st);
    }
  }

  /** With one group for each status, what the groups hold of a status is that group. */
  lemma {:induction false} GroupHolds(groups: seq<Group>, st: Status)
    requires Grouped(groups)
    ensures forall g :: g in groups && g.status == st ==> g == Group(st, CountIn(groups, st), AmountIn(groups, st))
    ensures CountIn(groups, st) > 0 ==> Group(st, CountIn(groups, st), AmountIn(groups, st)) in groups
    ensures (forall g :: g in groups ==> g.status != st) ==> CountIn(groups, st) == 0 && AmountIn(groups, st) == 0
  {
    if groups == [] {
    } else {
      GroupHolds(groups[1..], st);
      assert forall g :: g in groups <==> g == groups[0] || g in groups[1..];
    }
  }

  lemma {:induction false} CountsPartition(mine: seq<Invoice>)
    ensures |mine| == Count(mine, Draft) + Count(mine, Sent) + Count(mine, Overdue) + Count(mine, Paid)
  {
    if mine == [] {
    } else {
      CountsPartition(mine[1..]);
    }
  }

  /** The pass leaves exactly one group for each status that occurs, with its count and sum. */
  lemma GroupsExactly(mine: seq<Invoice>)
    ensures Grouped(GroupBy(mine))
    ensures forall st: Status :: Count(mine, st) > 0 <==> exists g :: g in GroupBy(mine) && g.status == st
    ensures forall g :: g in GroupBy(mine) ==> g == Group(g.status, Count(mine, g.status), Amount(mine, g.status))
  {
    hide Grouped, Count, Amount;
    assert Grouped(GroupBy(mine)) by { NoGroups(); GroupIntoAdds([], mine, Draft); }
    forall st: Status
      ensures Count(mine, st) > 0 <==> exists g :: g in GroupBy(mine) && g.status == st
      ensures forall g :: g in GroupBy(mine) && g.status == st ==> g == Group(st, Count(mine, st), Amount(mine, st))
    {
      GroupOfStatus(mine, st);
    }
  }

  lemma NoGroups()
    ensures Grouped([])
  {
  }

  lemma GroupOfStatus(mine: seq<Invoice>, st: Status)
    ensures Count(mine, st) > 0 <==> exists g :: g in GroupBy(mine) && g.status == st
    ensures forall g :: g in GroupBy(mine) && g.status == st ==> g == Group(st, Count(mine, st), Amount(mine, st))
  {
    var groups := GroupBy(mine);
    hide Count, Amount, GroupInto;
    GroupIntoAdds([], mine, st);
    GroupHolds(groups, st);
    hide CountIn, AmountIn;
    if g :| g in groups && g.status == st {
      var i :| 0 <= i < |groups| && groups[i] == g;
    }
  }

  ghost predicate DistinctStatuses(rows: seq<StatusRevenue>) {
    forall i, j :: 0 <= i < j < |rows| ==> rows[i].status != rows[j].status
  }

  /**
   The two endpoints agree on every table: the four counts of the summary partition its total, and the
   grouped list has one entry exactly for each status that occurs, with the summary's count and sum.
   */
  lemma ReportsAgree(db: Db, t: TenantId, currency: string)
    ensures var s := Compute(db, t, currency, InvoiceSummary).summary;
            var rows := Compute(db, t, currency, RevenueByStatus).rows;
            && s.total == s.draft + s.sent + s.paid + s.overdue && s.currency == currency
            && DistinctStatuses(rows)
            && (forall st: Status :: (exists r :: r in rows && r.status == st) <==> Shown(s, st).0 > 0)
            && (forall r :: r in rows ==>
                  (r.count, r.currency) == (Shown(s, r.status).0, currency)
                  && (r.status != Draft ==> r.amount == Shown(s, r.status).1))
  {
    var mine := TenantRows(db.invoices, t);
    CountsPartition(mine);
    GroupsExactly(mine);
    hide Count, Amount, GroupInto, TenantRows;
    var groups := GroupBy(mine);
    var rows := Entries(groups, currency);
    hide GroupBy;
    forall st: Status ensures (exists r :: r in rows && r.status == st) <==> Count(mine, st) > 0 {
      if g :| g in groups && g.status == st {
        var i :| 0 <= i < |groups| && groups[i] == g;
        assert rows[i] in rows && rows[i].status == st;
      }
    }
  }

  /** The count and amount a summary shows for a status; it has no amount for drafts. */
  function Shown(s: Summary, st: Status): (nat, int) {
    match st
    case Draft => (s.draft, 0)
    case Sent => (s.sent, s.pending)
    case Overdue => (s.overdue, s.overdueAmount)
    case Paid => (s.paid, s.revenue)
  }

  // ---------- How the buckets move ----------

  function One(row: Invoice, st: Status): int { if row.status == st then 1 else 0 }

  function Worth(row: Invoice, st: Status): int { if row.status == st then row.amounts.total else 0 }

  lemma {:induction false} ReplaceMoves(rows: seq<Invoice>, k: nat, row: Invoice, t: TenantId, st: Status)
    requires k < |rows| && rows[k].tenant == t == row.tenant
    ensures var before, after := TenantRows(rows, t), TenantRows(rows[k := row], t);
            && |after| == |before|
            && Count(after, st) == Count(before, st) - One(rows[k], st) + One(row, st)
            && Amount(after, st) == Amount(before, st) - Worth(rows[k], st) + Worth(row, st)
  {
    var rows' := rows[k := row];
    if k == 0 {
      assert rows'[1..] == rows[1..];
      var rest := TenantRows(rows[1..], t);
      assert ([rows[0]] + rest)[1..] == rest && ([row] + rest)[1..] == rest;
    } else {
      assert rows'[1..] == rows[1..][k - 1 := row];
      ReplaceMoves(rows[1..], k - 1, row, t, st);
      var rest, rest' := TenantRows(rows[1..], t), TenantRows(rows'[1..], t);
      if rows[0].tenant == t {
        assert ([rows[0]] + rest)[1..] == rest && ([rows[0]] + rest')[1..] == rest';
      } else {
        assert [] + rest == rest && [] + rest' == rest';
      }
    }
  }

  /** A status change moves one invoice, and its amount, from one bucket to another; nothing else moves. */
  lemma StatusChangeMovesOne(rows: seq<Invoice>, k: nat, row: Invoice, st: Status)
    requires k < |rows| && row.tenant == rows[k].tenant && row.amounts == rows[k].amounts
    requires row.status != rows[k].status
    ensures var before, after := TenantRows(rows, row.tenant), TenantRows(rows[k := row], row.tenant);
            var moved := if st == row.status then 1 else if st == rows[k].status then -1 else 0;
            && |after| == |before|
            && Count(after, st) == Count(before, st) + moved
            && Amount(after, st) == Amount(before, st) + moved * row.amounts.total
  {
    ReplaceMoves(rows, k, row, row.tenant, st);
  }

  lemma {:induction false} AppendMoves(rows: seq<Invoice>, row: Invoice, t: TenantId, st: Status)
    requires row.tenant == t
    ensures var before, after := TenantRows(rows, t), TenantRows(rows + [row], t);
            && |after| == |before| + 1
            && Count(after, st) == Count(before, st) + One(row, st)
            && Amount(after, st) == Amount(before, st) + Worth(row, st)
  {
    if rows == [] {
      assert ([] + [row])[1..] == [] && [row][1..] == [];
    } else {
      assert (rows + [row])[1..] == rows[1..] + [row];
      AppendMoves(rows[1..], row, t, st);
      HeadCounts(rows, t, st);
      HeadCounts(rows + [row], t, st);
    }
  }

  lemma {:induction false} RemoveMoves(rows: seq<Invoice>, k: nat, t: TenantId, st: Status)
    requires k < |rows| && rows[k].tenant == t
    ensures var before, after := TenantRows(rows, t), TenantRows(Remove(rows, k), t);
            && |after| == |before| - 1
            && Count(after, st) == Count(before, st) - One(rows[k], st)
            && Amount(after, st) == Amount(before, st) - Worth(rows[k], st)
  {
    HeadCounts(rows, t, st);
    if k == 0 {
      assert Remove(rows, 0) == rows[1..];
    } else {
      assert Remove(rows, k)[1..] == Remove(rows[1..], k - 1);
      RemoveMoves(rows[1..], k - 1, t, st);
      HeadCounts(Remove(rows, k), t, st);
    }
  }

  /** What the first row of a table adds. */
  lemma HeadCounts(rows: seq<Invoice>, t: TenantId, st: Status)
    requires rows != []
    ensures var mine, rest, ours := TenantRows(rows, t), TenantRows(rows[1..], t), rows[0].tenant == t;
            && |mine| == |rest| + (if ours then 1 else 0)
            && Count(mine, st) == Count(rest, st) + (if ours then One(rows[0], st) else 0)
            && Amount(mine, st) == Amount(rest, st) + (if ours then Worth(rows[0], st) else 0)
  {
    var rest := TenantRows(rows[1..], t);
    assert ([rows[0]] + rest)[1..] == rest && [] + rest == rest;
  }

  // ---------- Frames ----------

  lemma {:induction false} AppendFrame(rows: seq<Invoice>, row: Invoice, t: TenantId)
    requires row.tenant != t
    ensures TenantRows(rows + [row], t) == TenantRows(rows, t)
  {
    if rows == [] {
      assert ([] + [row])[1..] == [];
    } else {
      assert (rows + [row])[1..] == rows[1..] + [row];
      AppendFrame(rows[1..], row, t);
    }
  }

  lemma {:induction false} RemoveFrame(rows: seq<Invoice>, k: nat, t: TenantId)
    requires k < |rows| && rows[k].tenant != t
    ensures TenantRows(Remove(rows, k), t) == TenantRows(rows, t)
  {
    if k == 0 {
      assert Remove(rows, 0) == rows[1..];
    } else {
      assert Remove(rows, k)[1..] == Remove(rows[1..], k - 1);
      RemoveFrame(rows[1..], k - 1, t);
    }
  }

  lemma {:induction false} MapFrame(rows: seq<Invoice>, rows': seq<Invoice>, t: TenantId)
    requires |rows| == |rows'|
    requires forall i :: 0 <= i < |rows| ==> rows'[i].tenant == rows[i].tenant
    requires forall i :: 0 <= i < |rows| && rows[i].tenant == t ==> rows'[i] == rows[i]
    ensures TenantRows(rows', t) == TenantRows(rows, t)
  {
    if rows == [] {
    } else {
      MapFrame(rows[1..], rows'[1..], t);
    }
  }
}
