/** list_invoices: what a user sees under the filters, and how it is paged. */
module Listing {
  import opened Model
  import opened Ascii
  import opened Arithmetic
  import opened Search
  import opened Paging

  datatype Filters = Filters(
    status: Option<Status>, customerName: Option<string>, invoiceNumber: Option<string>,
    minAmount: Option<real>, maxAmount: Option<real>)

  datatype Response = Listed(page: Page<Invoice>) | Refused(code: nat)

  function AmountOf(invoice: Invoice): real { invoice.amounts.total as real / 100.0 }

  /** An empty search term adds no condition. */
  predicate SearchFilter(term: Option<string>, column: string) {
    term.Some? && term.value != "" ==> ILike(column, SearchPattern(term.value))
  }

  /** The WHERE clause list_invoices builds up. */
  predicate Selected(user: User, f: Filters, invoice: Invoice) {
    && invoice.tenant == user.tenant
    && (user.role.Attendant? ==> invoice.creator == user.id)
    && (f.status.Some? ==> invoice.status == f.status.value)
    && SearchFilter(f.customerName, invoice.customer.name)
    && SearchFilter(f.invoiceNumber, invoice.number)
    && (f.minAmount.Some? ==> AmountOf(invoice) >= f.minAmount.value)
    && (f.maxAmount.Some? ==> AmountOf(invoice) <= f.maxAmount.value)
  }

  function Select(user: User, f: Filters, rows: seq<Invoice>): seq<Invoice> {
    if rows == [] then []
    else (if Selected(user, f, rows[0]) then [rows[0]] else []) + Select(user, f, rows[1..])
  }

  /** The bounds declared on the query parameters. */
  predicate ValidQuery(f: Filters, skip: int, limit: int) {
    && 0 <= skip && 1 <= limit <= 100
    && (f.customerName.Some? ==> |f.customerName.value| <= 100)
    && (f.invoiceNumber.Some? ==> |f.invoiceNumber.value| <= 50)
    && (f.minAmount.Some? ==> f.minAmount.value >= 0.0)
    && (f.maxAmount.Some? ==> f.maxAmount.value >= 0.0)
  }

  predicate Contradictory(f: Filters) {
    f.minAmount.Some? && f.maxAmount.Some? && f.minAmount.value > f.maxAmount.value
  }

  function ListInvoices(db: Db, user: User, f: Filters, skip: int, limit: int): Response {
    if !ValidQuery(f, skip, limit) then Refused(422)
    else if Contradictory(f) then Refused(422)
    else Listed(PageOf(Select(user, f, db.invoices), skip, limit))
  }

  /** Exactly these queries are answered with 422. */
  lemma RefusedExactly(db: Db, user: User, f: Filters, skip: int, limit: int)
    ensures var r := ListInvoices(db, user, f, skip, limit);
            var tooLong := (f.customerName.Some? && |f.customerName.value| > 100)
                           || (f.invoiceNumber.Some? && |f.invoiceNumber.value| > 50);
            var negative := (f.minAmount.Some? && f.minAmount.value < 0.0)
                            || (f.maxAmount.Some? && f.maxAmount.value < 0.0);
            var crossed := f.minAmount.Some? && f.maxAmount.Some? && f.maxAmount.value < f.minAmount.value;
            && (r.Refused? <==> skip < 0 || limit < 1 || limit > 100 || tooLong || negative || crossed)
            && (r.Refused? ==> r.code == 422)
  {
    hide Select;
  }

  /** A client that follows has_next: the answers it gets. */
  function Browse(db: Db, user: User, f: Filters, skip: nat, limit: int): seq<Response>
    decreases |Select(user, f, db.invoices)| - skip
  {
    var r := ListInvoices(db, user, f, skip, limit);
    if r.Listed? && r.page.hasNext then [r] + Browse(db, user, f, skip + limit, limit) else [r]
  }

  /** The invoices in a list of answers. */
  function Shown(responses: seq<Response>): seq<Invoice> {
    if responses == [] then []
    else (if responses[0].Listed? then responses[0].page.items else []) + Shown(responses[1..])
  }

  /** What the filters mean, without patterns. */
  ghost predicate Wanted(user: User, f: Filters, invoice: Invoice) {
    && invoice.tenant == user.tenant
    && (user.role.Attendant? ==> invoice.creator == user.id)
    && (f.status.Some? ==> invoice.status == f.status.value)
    && (f.customerName.Some? ==> Occurs(f.customerName.value, invoice.customer.name))
    && (f.invoiceNumber.Some? ==> Occurs(f.invoiceNumber.value, invoice.number))
    && (f.minAmount.Some? ==> invoice.amounts.total as real >= 100.0 * f.minAmount.value)
    && (f.maxAmount.Some? ==> invoice.amounts.total as real <= 100.0 * f.maxAmount.value)
  }

  lemma SelectedIffWanted(user: User, f: Filters, invoice: Invoice)
    ensures Selected(user, f, invoice) <==> Wanted(user, f, invoice)
  {
    SearchFilterIsOccurs(f.customerName, invoice.customer.name);
    SearchFilterIsOccurs(f.invoiceNumber, invoice.number);
  }

  lemma SearchFilterIsOccurs(term: Option<string>, column: string)
    ensures SearchFilter(term, column) <==> (term.Some? ==> Occurs(term.value, column))
  {
    if term.Some? {
      SearchIsSubstring(term.value, column);
      if term.value == "" { assert OccursAt("", column, 0); }
    }
  }

  ghost predicate Sublist(s: seq<Invoice>, t: seq<Invoice>) {
    if s == [] then true
    else exists k :: 0 <= k < |t| && t[k] == s[0] && Sublist(s[1..], t[k + 1..])
  }

  lemma {:induction false} SelectExactly(user: User, f: Filters, rows: seq<Invoice>)
    ensures forall row :: row in Select(user, f, rows) <==> row in rows && Wanted(user, f, row)
    ensures Sublist(Select(user, f, rows), rows)
  {
    if rows == [] {
    } else {
      var rest := Select(user, f, rows[1..]);
      SelectExactly(user, f, rows[1..]);
      SelectedIffWanted(user, f, rows[0]);
      assert forall row :: row in rows <==> row == rows[0] || row in rows[1..];
      var selected := Select(user, f, rows);
      if Selected(user, f, rows[0]) {
        assert selected[1..] == rest;
        assert rows[0] == selected[0] && Sublist(selected[1..], rows[0 + 1..]);
      } else if selected != [] {
        var k :| 0 <= k < |rows[1..]| && rows[1..][k] == rest[0] && Sublist(rest[1..], rows[1..][k + 1..]);
        assert selected == rest && rows[1..][k + 1..] == rows[k + 1 + 1..];
        assert rows[k + 1] == selected[0] && Sublist(selected[1..], rows[k + 1 + 1..]);
      }
    }
  }

  /** The answers of a walk are the pages of the selection. */
  lemma {:induction false} BrowseIsWalk(db: Db, user: User, f: Filters, skip: nat, limit: nat)
    requires ValidQuery(f, skip, limit) && !Contradictory(f)
    ensures var rs, pages := Browse(db, user, f, skip, limit), Walk(Select(user, f, db.invoices), skip, limit);
            && |rs| == |pages| && (forall i :: 0 <= i < |rs| ==> rs[i] == Listed(pages[i]))
            && Shown(rs) == Items(pages)
    decreases |Select(user, f, db.invoices)| - skip
  {
    hide Select;
    var rows := Select(user, f, db.invoices);
    var p := PageOf(rows, skip, limit);
    var rs, pages := Browse(db, user, f, skip, limit), Walk(rows, skip, limit);
    if p.hasNext {
      BrowseIsWalk(db, user, f, skip + limit, limit);
      assert rs[1..] == Browse(db, user, f, skip + limit, limit) && pages[1..] == Walk(rows, skip + limit, limit);
    } else {
      assert rs[1..] == [] && pages[1..] == [];
    }
  }

  /** Contradictory amounts select nothing. */
  lemma NothingWanted(user: User, f: Filters, invoice: Invoice)
    requires Contradictory(f)
    ensures !Wanted(user, f, invoice)
  {
  }

  /**
   For every valid query, following has_next shows in table order exactly the wanted invoices of the user's
   own tenant, over `pages` answers numbered from 1.  The first answer is a 422 exactly when the least amount
   exceeds the greatest, and then there is nothing to show.
   */
  lemma BrowseShowsExactlyWanted(db: Db, user: User, f: Filters, limit: nat)
    requires ValidQuery(f, 0, limit)
    ensures var rs := Browse(db, user, f, 0, limit);
            && Sublist(Shown(rs), db.invoices)
            && (forall row :: row in Shown(rs) <==> row in db.invoices && Wanted(user, f, row))
            && (Contradictory(f) <==> rs == [Refused(422)])
            && (!Contradictory(f) ==>
                  && |rs| == Max(1, rs[0].page.pages)
                  && forall i :: 0 <= i < |rs| ==>
                       rs[i].Listed? && rs[i].page.total == |Shown(rs)|
                       && (Shown(rs) != [] ==> rs[i].page.page == i + 1))
  {
    var rows := Select(user, f, db.invoices);
    SelectExactly(user, f, db.invoices);
    if Contradictory(f) {
      forall row ensures !Wanted(user, f, row) { NothingWanted(user, f, row); }
      assert [Refused(422)][1..] == [];
    } else {
      BrowseIsWalk(db, user, f, 0, limit);
      WalkCoversEverything(rows, limit);
    }
  }
}
