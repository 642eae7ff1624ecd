/**
 What each request does, read off the committed rows: who may make it, which answer it gets, and which
 column each submitted value lands in.
 */
module Requests {
  import opened Model
  import opened Decimals
  import opened Money
  import opened Calendar
  import opened Numbering
  import opened Lifecycle
  import opened Runs

  // ---------- Permissions ----------

  /** Superadmins, owners and admins may change any invoice of the tenant, managers those they created. */
  predicate MayEdit(u: User, row: Invoice) {
    u.superadmin || u.role.Owner? || u.role.Admin? || (u.role.Manager? && row.creator == u.id)
  }

  /** Superadmins and owners may delete any draft of the tenant, admins those they created. */
  predicate MayDelete(u: User, row: Invoice) {
    u.superadmin || u.role.Owner? || (u.role.Admin? && row.creator == u.id)
  }

  /** Row k is the one the request names. */
  ghost predicate Names(db: Db, k: nat, u: User, id: InvoiceId) {
    UniqueIds(db.invoices) && k < |db.invoices| && db.invoices[k].id == id && db.invoices[k].tenant == u.tenant
  }

  lemma NamedIsFound(db: Db, k: nat, u: User, id: InvoiceId)
    requires Names(db, k, u, id)
    ensures Find(db.invoices, id, u.tenant) == k
  {
  }

  /** Without such a row the answer is 403 for those who may not ask, else 404, and nothing changes. */
  lemma NoSuchInvoice(
    db: Db, u: User, id: InvoiceId, st: Status, paidWith: Option<PaymentMethod>, now: string, pdf: bool)
    requires forall i :: 0 <= i < |db.invoices| ==> db.invoices[i].id != id || db.invoices[i].tenant != u.tenant
    ensures var editor := if u.superadmin || !u.role.Attendant? then 404 else 403;
            && SetInvoiceStatus(db, u, id, st, paidWith, now) == Outcome(db, Rejected(editor), {})
            && SendInvoice(db, u, id, pdf) == Outcome(db, Rejected(editor), {})
    ensures DeleteInvoice(db, u, id) ==
            Outcome(db, Rejected(if u.superadmin || u.role.Admin? || u.role.Owner? then 404 else 403), {})
  {
    assert Find(db.invoices, id, u.tenant) == |db.invoices|;
  }

  // ---------- Status changes ----------

  /** The documented transitions. */
  const TRANSITIONS: set<(Status, Status)> := {(Draft, Sent), (Sent, Overdue), (Sent, Paid), (Overdue, Paid)}

  /**
   A status change succeeds exactly for a permitted user, a documented transition, and a payment method if
   PAID is requested.  It then sets the status, and for PAID the payment data; no other column or row changes.
   */
  lemma StatusExactly(
    db: Db, u: User, id: InvoiceId, st: Status, paidWith: Option<PaymentMethod>, now: string, k: nat)
    requires Names(db, k, u, id)
    ensures var row, o := db.invoices[k], SetInvoiceStatus(db, u, id, st, paidWith, now);
            var ok := (row.status, st) in TRANSITIONS && (st.Paid? ==> paidWith.Some?);
            && o.response == (if !MayEdit(u, row) then Rejected(403) else if ok then Done else Rejected(400))
            && (o.response.Done? ==>
                  && |o.db.invoices| == |db.invoices|
                  && var after := o.db.invoices[k];
                     && o.db == db.(invoices := db.invoices[k := after])
                     && after == row.(status := st, paymentMethod := after.paymentMethod, paidAt := after.paidAt)
                     && (if st.Paid? then after.paymentMethod == paidWith && after.paidAt == Some(now)
                         else after.paymentMethod == row.paymentMethod && after.paidAt == row.paidAt))
  {
    NamedIsFound(db, k, u, id);
    TransitionsAre(db.invoices[k].status, st);
    hide Names, TRANSITIONS;
  }

  lemma TransitionsAre(from: Status, to: Status)
    ensures ValidTransition(from, to) <==> (from, to) in TRANSITIONS
  {
  }

  /** Sending succeeds exactly for a permitted user and a draft with an e-mail address whose PDF is made. */
  lemma SendExactly(db: Db, u: User, id: InvoiceId, pdf: bool, k: nat)
    requires Names(db, k, u, id)
    ensures var row, o := db.invoices[k], SendInvoice(db, u, id, pdf);
            var ready := row.status.Draft? && row.customer.email != None && row.customer.email != Some("");
            && o.response == (if !MayEdit(u, row) then Rejected(403) else if !ready then Rejected(400)
                              else if pdf then Done else Rejected(500))
            && (o.response.Done? ==> o.db == db.(invoices := db.invoices[k := row.(status := Sent)]))
  {
    NamedIsFound(db, k, u, id);
    hide Names;
  }

  /** Deletion succeeds exactly for a permitted user and a draft, and takes out that row alone. */
  lemma DeleteExactly(db: Db, u: User, id: InvoiceId, k: nat)
    requires Names(db, k, u, id)
    ensures var row, o := db.invoices[k], DeleteInvoice(db, u, id);
            && o.response == (if !MayDelete(u, row) then Rejected(403)
                              else if row.status.Draft? then Done else Rejected(400))
            && (o.response.Done? ==> o.db == db.(invoices := db.invoices[..k] + db.invoices[k + 1..]))
  {
    NamedIsFound(db, k, u, id);
    hide Names;
  }

  // ---------- Validation ----------

  /** The schema of an item, and of a new invoice. */
  predicate Acceptable(n: NewInvoice) {
    && 1 <= |n.customer.name| <= 100 && 1 <= |n.lines| <= 100
    && forall i :: 0 <= i < |n.lines| ==> AcceptableLine(n.lines[i])
  }

  predicate AcceptableLine(line: Line) {
    1 <= |line.description| <= 255 && line.quantity > 0.0 && line.unitPrice >= 0.0
  }

  /** The schema of an update: only what is given is checked. */
  predicate AcceptableChanges(c: Changes) {
    && (c.name.Set? && c.name.value.Some? ==> 1 <= |c.name.value.value| <= 100)
    && (c.lines.Some? ==> 1 <= |c.lines.value| <= 100)
    && (c.lines.Some? ==> forall i :: 0 <= i < |c.lines.value| ==> AcceptableLine(c.lines.value[i]))
  }

  lemma ChangesAreValid(c: Changes)
    ensures AcceptableChanges(c) <==> ValidChanges(c)
  {
    forall line: Line ensures AcceptableLine(line) <==> ValidLine(line) {
    }
    hide AcceptableLine, ValidLine;
  }

  lemma AcceptableIsValid(n: NewInvoice)
    ensures Acceptable(n) <==> ValidNew(n)
  {
    forall line: Line ensures AcceptableLine(line) <==> ValidLine(line) {
    }
    hide AcceptableLine, ValidLine;
  }

  // ---------- Columns ----------

  /** A column after a partial update: the value given, or the one it had. */
  predicate Lands<T(==)>(f: Field<T>, before: Option<T>, after: Option<T>) {
    (f.Set? ==> after == f.value) && (f.Unset? ==> after == before)
  }

  /**
   A successful update writes each given field into the column of its name, keeps the columns of the fields
   left out, replaces the items only if given, and changes no other column and no other row.
   */
  lemma UpdateWrites(db: Db, env: Env, u: User, id: InvoiceId, c: Changes, k: nat)
    requires Names(db, k, u, id) && UpdateInvoice(db, env, u, id, c).response.Done?
    ensures |UpdateInvoice(db, env, u, id, c).db.invoices| == |db.invoices|
    ensures var before, after := db.invoices[k], UpdateInvoice(db, env, u, id, c).db.invoices[k];
            && UpdateInvoice(db, env, u, id, c).db == db.(invoices := db.invoices[k := after])
            && Lands(c.name, Some(before.customer.name), Some(after.customer.name))
            && Lands(c.email, before.customer.email, after.customer.email)
            && Lands(c.phone, before.customer.phone, after.customer.phone)
            && Lands(c.address, before.customer.address, after.customer.address)
            && Lands(c.issueDate, Some(before.issueDate), Some(after.issueDate))
            && Lands(c.dueDate, before.dueDate, after.dueDate)
            && Lands(c.notes, before.notes, after.notes)
            && (c.lines.Some? ==>
                  && after.source.lines == c.lines.value
                  && (u.tenant in db.tenants ==> after.source.taxRate == db.tenants[u.tenant].taxRate)
                  && (u.tenant !in db.tenants ==> after.source.taxRate == None))
            && (c.lines.None? ==>
                  (after.source, after.lines, after.amounts) == (before.source, before.lines, before.amounts))
            && (after.id, after.tenant, after.number, after.creator, after.currency) ==
               (before.id, before.tenant, before.number, before.creator, before.currency)
            && (after.status, after.paymentMethod, after.paidAt) == (before.status, before.paymentMethod, before.paidAt)
  {
    NamedIsFound(db, k, u, id);
    hide Names, FitsColumns, ValidChanges, StoreLines, StoreTotals, CalculateTotals, LineTotals;
  }

  /** Which updates get that far: a permitted user, a draft, valid values, no null for the name or the issue date. */
  lemma UpdateExactly(db: Db, env: Env, u: User, id: InvoiceId, c: Changes, k: nat)
    requires Names(db, k, u, id)
    ensures var row, r := db.invoices[k], UpdateInvoice(db, env, u, id, c).response;
            && (r == Done || r == Rejected(500) <==>
                  && MayEdit(u, row) && AcceptableChanges(c) && row.status.Draft?
                  && c.name != Set(None) && c.issueDate != Set(None))
            && (r == Done ==> Storable(UpdateInvoice(db, env, u, id, c).db.invoices[k]))
  {
    NamedIsFound(db, k, u, id);
    ChangesAreValid(c);
    if UpdateInvoice(db, env, u, id, c).response.Done? {
      StorableExactly(UpdateInvoice(db, env, u, id, c).db.invoices[k]);
    }
    hide Storable, Names, FitsColumns, ValidChanges, AcceptableChanges, StoreLines, StoreTotals, CalculateTotals,
      LineTotals;
  }

  /** Which answer a create gets; 500 stands for a format that cannot be parsed and for values too large to store. */
  lemma CreateAnswers(db: Db, env: Env, u: User, n: NewInvoice, id: InvoiceId, date: DateStamp)
    requires InModel(db, Create(u, n, id, date))
    ensures var r := CreateInvoice(db, env, u, n, id, date).response;
            && (r == Rejected(422) <==> !Acceptable(n))
            && (r == Rejected(404) <==> Acceptable(n) && u.tenant !in db.tenants)
            && (Acceptable(n) && u.tenant in db.tenants ==>
                  var number := NumberFor(db.tenants[u.tenant], date);
                  && (number.None? ==> r == Rejected(500))
                  && (number.Some? ==>
                        && (r == Rejected(400) <==>
                              exists i :: 0 <= i < |db.invoices| && Clashes(db.invoices[i], u.tenant, number.value, id))
                        && r in {Done, Rejected(400), Rejected(500)}))
  {
    AcceptableIsValid(n);
    hide NumberFor, Modelled, FitsColumns, ValidNew, Acceptable, NewRow;
    if Acceptable(n) && u.tenant in db.tenants && NumberFor(db.tenants[u.tenant], date).Some? {
      ClashIsTaken(db.invoices, u.tenant, NumberFor(db.tenants[u.tenant], date).value, id);
      hide NumberTaken, IdTaken, Clashes;
    }
  }

  predicate Clashes(row: Invoice, t: TenantId, number: string, id: InvoiceId) {
    row.id == id || (row.tenant == t && row.number == number)
  }

  lemma ClashIsTaken(rows: seq<Invoice>, t: TenantId, number: string, id: InvoiceId)
    ensures (exists i :: 0 <= i < |rows| && Clashes(rows[i], t, number, id)) <==>
              NumberTaken(rows, t, number) || IdTaken(rows, id)
  {
  }

  /** A Numeric(10,2) column holds ten digits, two of them after the point. */
  predicate TenDigits(v: int) { |Digits(if v >= 0 then v else -v)| <= 10 }

  predicate Storable(row: Invoice) {
    && TenDigits(row.amounts.subtotal) && TenDigits(row.amounts.tax)
    && TenDigits(row.amounts.discount) && TenDigits(row.amounts.total)
    && forall i :: 0 <= i < |row.lines| ==> StorableLine(row.lines[i])
  }

  predicate StorableLine(item: StoredLine) {
    TenDigits(item.quantity) && TenDigits(item.unitPrice) && TenDigits(item.total)
  }

  lemma FitsExactly(v: int)
    ensures Fits(v) <==> TenDigits(v)
  {
    DigitsBelow(if v >= 0 then v else -v, 10);
    TenPowers();
  }

  lemma TenPowers()
    ensures PowerOfTen(10) == 1_00000000_00
  {
    assert PowerOfTen(5) == 100000;
  }

  /** The database takes a row exactly if every column of it and of its items has at most ten digits. */
  lemma StorableExactly(row: Invoice)
    ensures FitsColumns(row) <==> Storable(row)
  {
    forall v: int ensures Fits(v) <==> TenDigits(v) { FitsExactly(v); }
    hide Fits, TenDigits;
    assert forall i :: 0 <= i < |row.lines| ==>
      (StorableLine(row.lines[i]) <==>
         Fits(row.lines[i].quantity) && Fits(row.lines[i].unitPrice) && Fits(row.lines[i].total));
  }

  /** A create that takes a free number succeeds exactly if its row can be stored, and is a 500 otherwise. */
  lemma CreateStores(db: Db, env: Env, u: User, n: NewInvoice, id: InvoiceId, date: DateStamp)
    requires InModel(db, Create(u, n, id, date)) && Acceptable(n) && u.tenant in db.tenants
    requires NumberFor(db.tenants[u.tenant], date).Some?
    requires var number := NumberFor(db.tenants[u.tenant], date).value;
             forall i :: 0 <= i < |db.invoices| ==> !Clashes(db.invoices[i], u.tenant, number, id)
    ensures var tenant := db.tenants[u.tenant];
            var row := NewRow(u.tenant, tenant, u, n, id, NumberFor(tenant, date).value, env);
            CreateInvoice(db, env, u, n, id, date).response == if Storable(row) then Done else Rejected(500)
  {
    var tenant := db.tenants[u.tenant];
    AcceptableIsValid(n);
    ClashIsTaken(db.invoices, u.tenant, NumberFor(tenant, date).value, id);
    StorableExactly(NewRow(u.tenant, tenant, u, n, id, NumberFor(tenant, date).value, env));
    hide NumberFor, Modelled, FitsColumns, ValidNew, Acceptable, NewRow, Storable, NumberTaken, IdTaken, Clashes;
  }

  /**
   A successful create appends one draft: the number it was issued, the user's id and tenant, the tenant's
   currency (USD if it is none of the four), each field of the request in its column, and the items submitted.
   */
  lemma CreateWrites(db: Db, env: Env, u: User, n: NewInvoice, id: InvoiceId, date: DateStamp)
    requires InModel(db, Create(u, n, id, date)) && CreateInvoice(db, env, u, n, id, date).response.Done?
    ensures u.tenant in db.tenants && NumberFor(db.tenants[u.tenant], date).Some?
    ensures |CreateInvoice(db, env, u, n, id, date).db.invoices| == |db.invoices| + 1
    ensures var o, tenant := CreateInvoice(db, env, u, n, id, date), db.tenants[u.tenant];
            var row := o.db.invoices[|db.invoices|];
            && o.db.invoices == db.invoices + [row]
            && o.db.tenants == db.tenants[u.tenant := tenant.(sequence := tenant.sequence + 1)]
            && (row.id, row.tenant, Some(row.number)) == (id, u.tenant, NumberFor(tenant, date))
            && HoldsRequest(row, u, n, tenant)
  {
    hide NumberFor, Modelled, FitsColumns, NumberTaken, IdTaken, ValidNew, NewRow, HoldsRequest;
    var tenant := db.tenants[u.tenant];
    NewRowHolds(u.tenant, tenant, u, n, id, NumberFor(tenant, date).value, env);
  }

  /** A new draft holds each field of the request in its column. */
  predicate HoldsRequest(row: Invoice, u: User, n: NewInvoice, tenant: Tenant) {
    && row.creator == u.id && row.status == Draft && row.paymentMethod == None && row.paidAt == None
    && row.customer.name == n.customer.name && row.customer.email == n.customer.email
    && row.customer.phone == n.customer.phone && row.customer.address == n.customer.address
    && row.issueDate == n.issueDate && row.dueDate == n.dueDate && row.notes == n.notes
    && row.source.lines == n.lines && row.source.taxRate == tenant.taxRate
    && CurrencyCode(row.currency) == (if KnownCode(tenant.currency) then tenant.currency else "USD")
  }

  lemma NewRowHolds(
    t: TenantId, tenant: Tenant, u: User, n: NewInvoice, id: InvoiceId, number: string, env: Env)
    ensures var row := NewRow(t, tenant, u, n, id, number, env);
            row.id == id && row.tenant == t && row.number == number && HoldsRequest(row, u, n, tenant)
  {
    CurrencyRead(tenant.currency);
    hide StoreLines, StoreTotals, CalculateTotals, LineTotals, CurrencyOf, CurrencyCode, KnownCode;
  }

  function CurrencyCode(c: Currency): string {
    match c
    case NGN => "NGN"
    case USD => "USD"
    case GBP => "GBP"
    case EUR => "EUR"
  }

  predicate KnownCode(code: string) { exists c: Currency :: CurrencyCode(c) == code }

  lemma CurrencyRead(code: string)
    ensures CurrencyCode(CurrencyOf(code)) == if KnownCode(code) then code else "USD"
  {
    assert CurrencyCode(NGN)[0] == 'N' && CurrencyCode(GBP)[0] == 'G' && CurrencyCode(EUR)[0] == 'E';
    if KnownCode(code) {
      var c: Currency :| CurrencyCode(c) == code;
    } else {
      assert CurrencyCode(NGN) != code && CurrencyCode(GBP) != code && CurrencyCode(EUR) != code;
    }
  }

  /** Settings are written by the tenant's owner, or by a superadmin, who alone may change the currency. */
  lemma ConfigureExactly(db: Db, u: User, t: TenantId, s: Settings)
    requires t in db.tenants
    ensures var row, o := db.tenants[t], ConfigureTenant(db, u, t, s);
            var owner := u.tenant == t && u.role.Owner?;
            && o.response == (if u.superadmin || (owner && s.currency == row.currency) then Done else Rejected(403))
            && o.db.invoices == db.invoices && t in o.db.tenants && o.db.tenants == db.tenants[t := o.db.tenants[t]]
            && var after := o.db.tenants[t];
               && after.sequence == row.sequence
               && (o.response.Done? ==>
                     && after.prefix == s.prefix && after.format == s.format
                     && after.currency == s.currency && after.taxRate == s.taxRate)
               && (o.response.Rejected? ==> after == row)
  {
  }

  // ---------- Amounts ----------

  /** Half a hundredth at most between what was submitted and what is stored. */
  predicate StoresLine(line: Line, item: StoredLine) {
    && item.description == line.description
    && -0.5 <= line.quantity * 100.0 - item.quantity as real <= 0.5
    && -0.5 <= line.unitPrice * 100.0 - item.unitPrice as real <= 0.5
    && -0.5 <= line.quantity * line.unitPrice * 100.0 - item.total as real <= 0.5
  }

  /** The tax in cents is the rate's share of the subtotal, up to the rounding of both; there is no discount. */
  predicate TaxHolds(a: Amounts, taxRate: Option<real>) {
    && a.discount == 0
    && (taxRate.None? || taxRate.value <= 0.0 ==> a.tax == 0)
    && (taxRate.Some? && taxRate.value > 0.0 ==>
          var r := taxRate.value;
          -(0.5 + r / 200.0) <= a.tax as real - a.subtotal as real * r / 100.0 <= 0.5 + r / 200.0)
  }

  lemma RowAmounts(row: Invoice, env: Env)
    requires RoundsToNearest(env.round) && TotalsHold(row, env)
    ensures TaxHolds(row.amounts, row.source.taxRate) && |row.lines| == |row.source.lines|
    ensures forall j :: 0 <= j < |row.lines| ==> StoresLine(row.source.lines[j], row.lines[j])
  {
    hide CalculateTotals, RoundsToNearest, StoreTotals, StoreLine;
    StoredTax(env.round, LineTotals(row.source.lines), row.source.taxRate);
    forall j | 0 <= j < |row.lines| ensures StoresLine(row.source.lines[j], row.lines[j]) {
      StoredLineNear(env.round, row.source.lines, j);
    }
  }

  /**
   In every reachable state: no discount; the tax is the rate's share of the subtotal up to rounding, and 0
   without a positive rate; and each column of an item is a nearest hundredth of what was submitted, or of
   the product of quantity and price.
   */
  lemma ReachableAmounts(tenants: map<TenantId, Tenant>, env: Env, actions: seq<Action>, i: nat)
    requires RoundsToNearest(env.round)
    requires i < |Runs.Run(Db(tenants, []), env, actions).invoices|
    ensures var row := Runs.Run(Db(tenants, []), env, actions).invoices[i];
            && TaxHolds(row.amounts, row.source.taxRate) && |row.lines| == |row.source.lines|
            && forall j :: 0 <= j < |row.lines| ==> StoresLine(row.source.lines[j], row.lines[j])
  {
    RunKeepsGood(Db(tenants, []), env, actions);
    var row := Runs.Run(Db(tenants, []), env, actions).invoices[i];
    assert TotalsHold(row, env) by { hide TotalsHold, Runs.Run; assert GoodRow(row, env); }
    hide *;
    RowAmounts(row, env);
  }

  // ---------- The way to PAID and OVERDUE ----------

  /** The invoice is there, with this status. */
  predicate IsNow(db: Db, id: InvoiceId, st: Status) {
    RowOf(db.invoices, id).Some? && RowOf(db.invoices, id).value.status == st
  }

  predicate AbsentOrDraft(db: Db, id: InvoiceId) { RowOf(db.invoices, id).None? || IsNow(db, id, Draft) }

  /** From absent or draft, one step leads to absent, draft or sent. */
  lemma LeavesDraft(db: Db, env: Env, a: Action, id: InvoiceId)
    requires InModel(db, a) && Good(db, env) && AbsentOrDraft(db, id)
    ensures AbsentOrDraft(Perform(db, env, a).db, id) || IsNow(Perform(db, env, a).db, id, Sent)
  {
    hide Perform, GoodRow, Evolves;
    var rows := Perform(db, env, a).db.invoices;
    PerformShape(db, env, a);
    if RowOf(rows, id).Some? {
      var j := RowOfIndex(rows, id);
      if Pointwise(db, rows, env) {
        StepOfRow(db.invoices[j], rows[j], RateOf(db, rows[j].tenant), env);
        RowOfUnique(db.invoices, j);
      } else if a.Create? && Appends(db, rows, a.user.tenant, a.id, env) {
        if j < |db.invoices| {
          assert rows[j] == rows[..|rows| - 1][j] == db.invoices[j];
          RowOfUnique(db.invoices, j);
        }
      } else {
        var k := Find(db.invoices, a.id, a.user.tenant);
        RowOfUnique(db.invoices, if j < k then j else j + 1);
      }
    }
  }

  /**
   No invoice skips SENT: one that is absent or a draft when a run begins, and OVERDUE or PAID when it ends,
   was SENT in some state between.
   */
  lemma {:induction false} ThroughSent(db: Db, env: Env, actions: seq<Action>, id: InvoiceId)
    requires Good(db, env) && AbsentOrDraft(db, id)
    requires IsNow(Runs.Run(db, env, actions), id, Overdue) || IsNow(Runs.Run(db, env, actions), id, Paid)
    ensures exists i :: 0 <= i <= |actions| && IsNow(Runs.Run(db, env, actions[..i]), id, Sent)
    decreases |actions|
  {
    hide Perform, Good, IsNow;
    if actions == [] || !InModel(db, actions[0]) {
      NotBoth(db, id);
    } else {
      var db' := Perform(db, env, actions[0]).db;
      LeavesDraft(db, env, actions[0], id);
      PerformKeepsGood(db, env, actions[0]);
      if IsNow(db', id, Sent) {
        RunFirst(db, env, actions, 0);
        assert IsNow(Runs.Run(db, env, actions[..1]), id, Sent);
      } else {
        ThroughSent(db', env, actions[1..], id);
        var i :| 0 <= i <= |actions[1..]| && IsNow(Runs.Run(db', env, actions[1..][..i]), id, Sent);
        RunFirst(db, env, actions, i);
        assert IsNow(Runs.Run(db, env, actions[..i + 1]), id, Sent);
      }
    }
  }

  lemma NotBoth(db: Db, id: InvoiceId)
    ensures AbsentOrDraft(db, id) ==> !IsNow(db, id, Overdue) && !IsNow(db, id, Paid)
  {
  }

  lemma RunFirst(db: Db, env: Env, actions: seq<Action>, i: nat)
    requires actions != [] && InModel(db, actions[0]) && i < |actions|
    ensures Runs.Run(db, env, actions[..i + 1]) == Runs.Run(Perform(db, env, actions[0]).db, env, actions[1..][..i])
  {
    hide Perform;
    assert actions[..i + 1][1..] == actions[1..][..i];
  }
}
