/** What every handler keeps, and what therefore holds along every run of handlers. */
module Runs {
  import opened Model
  import opened Money
  import opened Calendar
  import opened Numbering
  import opened Lifecycle
  import opened Analytics

  // ---------- Rows ----------

  function Rank(st: Status): nat {
    match st
    case Draft => 0
    case Sent => 1
    case Overdue => 2
    case Paid => 3
  }

  /** Payment data is there exactly when the invoice is paid. */
  predicate PaidExactly(row: Invoice) {
    (row.paymentMethod.Some? <==> row.status.Paid?) && (row.paidAt.Some? <==> row.status.Paid?)
  }

  /** Items and amounts are what calculate_totals makes of the submitted items. */
  predicate TotalsHold(row: Invoice, env: Env) {
    && ValidLines(row.source.lines)
    && row.lines == StoreLines(env.round, row.source.lines)
    && row.amounts == StoreTotals(env.round, CalculateTotals(LineTotals(row.source.lines), row.source.taxRate))
  }

  predicate GoodRow(row: Invoice, env: Env) { PaidExactly(row) && TotalsHold(row, env) }

  ghost predicate Good(db: Db, env: Env) {
    && UniqueIds(db.invoices) && UniqueNumbers(db.invoices)
    && forall i :: 0 <= i < |db.invoices| ==> GoodRow(db.invoices[i], env)
  }

  /** How an invoice may change, over any number of steps. */
  predicate Evolves(a: Invoice, b: Invoice) {
    && (b.id, b.tenant, b.number, b.creator, b.currency) == (a.id, a.tenant, a.number, a.creator, a.currency)
    && Rank(a.status) <= Rank(b.status)
    && (!a.status.Draft? ==> b == a.(status := b.status, paymentMethod := b.paymentMethod, paidAt := b.paidAt))
    && (a.status.Paid? ==> b == a)
  }

  /** How one handler may change a row. */
  predicate Moves(a: Invoice, b: Invoice, taxRate: Option<real>, env: Env) {
    && Evolves(a, b)
    && (GoodRow(a, env) ==> GoodRow(b, env))
    && (b.source != a.source ==> b.source.taxRate == taxRate)
    && (b.status != a.status ==> b.amounts == a.amounts && ValidTransition(a.status, b.status))
  }

  lemma EvolvesTransitive(a: Invoice, b: Invoice, c: Invoice)
    requires Evolves(a, b) && Evolves(b, c)
    ensures Evolves(a, c)
  {
  }

  // ---------- The three shapes of a step ----------

  ghost predicate Pointwise(db: Db, rows: seq<Invoice>, env: Env) {
    && |rows| == |db.invoices|
    && forall i :: 0 <= i < |rows| ==>
         rows[i] == db.invoices[i] || Moves(db.invoices[i], rows[i], RateOf(db, rows[i].tenant), env)
  }

  predicate Appends(db: Db, rows: seq<Invoice>, t: TenantId, id: InvoiceId, env: Env) {
    && rows != [] && rows[..|rows| - 1] == db.invoices
    && var row := rows[|rows| - 1];
       && row.id == id && row.tenant == t && row.status.Draft? && GoodRow(row, env)
       && row.source.taxRate == RateOf(db, t)
       && !IdTaken(db.invoices, id) && !NumberTaken(db.invoices, t, row.number)
  }

  ghost predicate Drops(db: Db, rows: seq<Invoice>, t: TenantId, id: InvoiceId) {
    var k := Find(db.invoices, id, t);
    k < |db.invoices| && db.invoices[k].status.Draft? && rows == Remove(db.invoices, k)
  }

  ghost predicate Shape(db: Db, env: Env, a: Action, rows: seq<Invoice>) {
    || Pointwise(db, rows, env)
    || (a.Create? && Appends(db, rows, a.user.tenant, a.id, env))
    || (a.Delete? && Drops(db, rows, a.user.tenant, a.id))
  }

  lemma WriteLinesGood(row: Invoice, lines: seq<Line>, taxRate: Option<real>, env: Env)
    requires PaidExactly(row) && ValidLines(lines)
    ensures GoodRow(WriteLines(row, lines, taxRate, env), env)
  {
  }

  lemma CreateShape(db: Db, env: Env, u: User, n: NewInvoice, id: InvoiceId, date: DateStamp)
    requires InModel(db, Create(u, n, id, date))
    ensures Shape(db, env, Create(u, n, id, date), CreateInvoice(db, env, u, n, id, date).db.invoices)
  {
    hide NumberFor, Modelled;
  }

  lemma UpdateShape(db: Db, env: Env, u: User, id: InvoiceId, c: Changes)
    ensures Pointwise(db, UpdateInvoice(db, env, u, id, c).db.invoices, env)
  {
    var k := Find(db.invoices, id, u.tenant);
    if k < |db.invoices| {
      var row := db.invoices[k];
      var fields := ApplyFields(row, c);
      if fields.Some? && c.lines.Some? && ValidLines(c.lines.value) && PaidExactly(row) {
        WriteLinesGood(fields.value, c.lines.value, RateOf(db, u.tenant), env);
      }
    }
  }

  lemma SetStatusShape(
    db: Db, env: Env, u: User, id: InvoiceId, st: Status, paidWith: Option<PaymentMethod>, now: string)
    ensures Pointwise(db, SetInvoiceStatus(db, u, id, st, paidWith, now).db.invoices, env)
  {
    hide StoreLines, StoreTotals, ValidLines;
  }

  lemma SendShape(db: Db, env: Env, u: User, id: InvoiceId, pdf: bool)
    ensures Pointwise(db, SendInvoice(db, u, id, pdf).db.invoices, env)
  {
    hide StoreLines, StoreTotals, ValidLines;
  }

  lemma DeleteShape(db: Db, env: Env, u: User, id: InvoiceId)
    ensures var rows := DeleteInvoice(db, u, id).db.invoices;
            rows == db.invoices || Drops(db, rows, u.tenant, id)
  {
  }

  lemma SweepShape(db: Db, env: Env, today: Date)
    requires IsDate(today)
    ensures Pointwise(db, CheckOverdue(db, env, today).db.invoices, env)
  {
    hide StoreLines, StoreTotals, ValidLines, Due;
    forall i | 0 <= i < |db.invoices|
      ensures var row := SweptRow(db.invoices[i], today, env);
              row == db.invoices[i] || Moves(db.invoices[i], row, RateOf(db, row.tenant), env)
    {
      SweptRowMoves(db.invoices[i], today, RateOf(db, db.invoices[i].tenant), env);
    }
  }

  lemma SweptRowMoves(row: Invoice, today: Date, taxRate: Option<real>, env: Env)
    requires IsDate(today)
    ensures var row' := SweptRow(row, today, env);
            row' == row || (Moves(row, row', taxRate, env) && row'.tenant == row.tenant)
  {
    hide StringLess, ParseDueDate, IsoFormat, Before, StoreLines, StoreTotals, ValidLines;
  }

  lemma PerformShape(db: Db, env: Env, a: Action)
    requires InModel(db, a)
    ensures Shape(db, env, a, Perform(db, env, a).db.invoices)
  {
    match a {
      case Create(u, n, id, date) =>
        hide CreateInvoice;
        CreateShape(db, env, u, n, id, date);
      case Update(u, id, c) =>
        hide UpdateInvoice;
        UpdateShape(db, env, u, id, c);
      case SetStatus(u, id, st, paidWith, now) =>
        hide SetInvoiceStatus;
        SetStatusShape(db, env, u, id, st, paidWith, now);
      case Delete(u, id) =>
        hide DeleteInvoice, Drops;
        DeleteShape(db, env, u, id);
      case Send(u, id, pdf) =>
        hide SendInvoice;
        SendShape(db, env, u, id, pdf);
      case Sweep(today) =>
        hide CheckOverdue;
        SweepShape(db, env, today);
      case Configure(_, _, _) =>
    }
  }

  // ---------- Invariants ----------

  lemma PointwiseKeepsGood(db: Db, rows: seq<Invoice>, env: Env)
    requires Good(db, env) && Pointwise(db, rows, env)
    ensures Good(Db(db.tenants, rows), env)
  {
    hide GoodRow, Moves;
    forall i | 0 <= i < |rows|
      ensures GoodRow(rows[i], env)
      ensures rows[i].id == db.invoices[i].id && rows[i].tenant == db.invoices[i].tenant
      ensures rows[i].number == db.invoices[i].number
    {
      StepOfRow(db.invoices[i], rows[i], RateOf(db, rows[i].tenant), env);
    }
  }

  lemma AppendKeepsGood(db: Db, rows: seq<Invoice>, t: TenantId, id: InvoiceId, env: Env)
    requires Good(db, env) && Appends(db, rows, t, id, env)
    ensures Good(Db(db.tenants, rows), env)
  {
    hide GoodRow;
    var n := |rows| - 1;
    assert forall i :: 0 <= i < n ==> rows[i] == rows[..n][i] == db.invoices[i];
  }

  lemma DropKeepsGood(db: Db, rows: seq<Invoice>, t: TenantId, id: InvoiceId, env: Env)
    requires Good(db, env) && Drops(db, rows, t, id)
    ensures Good(Db(db.tenants, rows), env)
  {
    hide GoodRow;
  }

  lemma PerformKeepsGood(db: Db, env: Env, a: Action)
    requires InModel(db, a) && Good(db, env)
    ensures Good(Perform(db, env, a).db, env)
  {
    hide Perform, GoodRow, Appends, Drops, Pointwise;
    PerformShape(db, env, a);
    var rows := Perform(db, env, a).db.invoices;
    if Pointwise(db, rows, env) {
      PointwiseKeepsGood(db, rows, env);
    } else if a.Create? && Appends(db, rows, a.user.tenant, a.id, env) {
      AppendKeepsGood(db, rows, a.user.tenant, a.id, env);
    } else {
      DropKeepsGood(db, rows, a.user.tenant, a.id, env);
    }
  }

  /** A run of handlers; an action outside the model ends it. */
  function Run(db: Db, env: Env, actions: seq<Action>): Db
    decreases |actions|
  {
    if actions == [] || !InModel(db, actions[0]) then db
    else Run(Perform(db, env, actions[0]).db, env, actions[1..])
  }

  lemma {:induction false} RunKeepsGood(db: Db, env: Env, actions: seq<Action>)
    requires Good(db, env)
    ensures Good(Run(db, env, actions), env)
    decreases |actions|
  {
    if actions == [] || !InModel(db, actions[0]) {
    } else {
      PerformKeepsGood(db, env, actions[0]);
      RunKeepsGood(Perform(db, env, actions[0]).db, env, actions[1..]);
    }
  }

  /**
   In every state reachable from an empty table: numbers are unique within a tenant; payment data is
   there exactly on paid invoices; amounts are calculate_totals of the submitted items, the stored total
   is within a cent of its parts, and the stored subtotal within 50 cents of the stored line totals.
   */
  lemma ReachableInvoices(tenants: map<TenantId, Tenant>, env: Env, actions: seq<Action>, i: nat)
    requires RoundsToNearest(env.round)
    requires i < |Run(Db(tenants, []), env, actions).invoices|
    ensures var rows := Run(Db(tenants, []), env, actions).invoices;
            var row, a := rows[i], rows[i].amounts;
            && UniqueNumbers(rows) && UniqueIds(rows) && GoodRow(row, env)
            && -1 <= a.total - (a.subtotal + a.tax - a.discount) <= 1
            && -((|row.lines| + 1) / 2) <= a.subtotal - SumCents(row.lines) <= (|row.lines| + 1) / 2 <= 50
  {
    RunKeepsGood(Db(tenants, []), env, actions);
    var row := Run(Db(tenants, []), env, actions).invoices[i];
    StoredTotalWithinOneCent(env.round, LineTotals(row.source.lines), row.source.taxRate);
    StoredSubtotalDrift(env.round, row.source.lines, row.source.taxRate);
  }

  /**
   An update that gives items stores the amounts a create with the same items, in any order, would
   store at that moment; an update that gives none keeps items and amounts.
   */
  lemma UpdateTotals(
    db: Db, env: Env, u: User, id: InvoiceId, c: Changes, n: NewInvoice, other: InvoiceId, date: DateStamp)
    requires InModel(db, Create(u, n, other, date))
    requires UpdateInvoice(db, env, u, id, c).response.Done?
    requires CreateInvoice(db, env, u, n, other, date).response.Done?
    ensures var k := Find(db.invoices, id, u.tenant);
            var before, after := db.invoices[k], UpdateInvoice(db, env, u, id, c).db.invoices[k];
            var created := CreateInvoice(db, env, u, n, other, date).db.invoices[|db.invoices|];
            && (c.lines.None? ==>
                  after.amounts == before.amounts && after.lines == before.lines && after.source == before.source)
            && (c.lines.Some? && multiset(c.lines.value) == multiset(n.lines) ==> after.amounts == created.amounts)
  {
    hide NumberFor, Modelled, FitsColumns, NumberTaken, IdTaken, ValidLines, CalculateTotals;
    if c.lines.Some? && multiset(c.lines.value) == multiset(n.lines) {
      TotalsIgnoreOrder(c.lines.value, n.lines, RateOf(db, u.tenant));
    }
  }

  /** The update that has the effect of `c` and then of `d`. */
  function Then(c: Changes, d: Changes): Changes {
    Changes(Later(c.name, d.name), Later(c.email, d.email), Later(c.phone, d.phone), Later(c.address, d.address),
            Later(c.issueDate, d.issueDate), Later(c.dueDate, d.dueDate), Later(c.notes, d.notes),
            if d.lines.Some? then d.lines else c.lines)
  }

  function Later<T>(c: Field<T>, d: Field<T>): Field<T> { if d.Set? then d else c }

  const NO_CHANGES := Changes(Unset, Unset, Unset, Unset, Unset, Unset, Unset, None)

  /** Partial updates: one that gives nothing changes nothing, and the last value given to a field stays. */
  lemma UpdatesCompose(row: Invoice, c: Changes, d: Changes)
    ensures ApplyFields(row, NO_CHANGES) == Some(row)
    ensures ApplyFields(row, c).Some? && ApplyFields(ApplyFields(row, c).value, d).Some? ==>
              ApplyFields(row, Then(c, d)) == ApplyFields(ApplyFields(row, c).value, d)
  {
    var customer := row.customer;
    assert customer == Customer(customer.name, customer.email, customer.phone, customer.address);
  }

  // ---------- One invoice along a run ----------

  /** The row with this id. */
  function RowOf(rows: seq<Invoice>, id: InvoiceId): (r: Option<Invoice>)
    ensures r.Some? ==> r.value in rows && r.value.id == id
    ensures r.None? ==> forall i :: 0 <= i < |rows| ==> rows[i].id != id
  {
    if rows == [] then None else if rows[0].id == id then Some(rows[0]) else RowOf(rows[1..], id)
  }

  lemma RowOfUnique(rows: seq<Invoice>, i: nat)
    requires UniqueIds(rows) && i < |rows|
    ensures RowOf(rows, rows[i].id) == Some(rows[i])
  {
    var row := RowOf(rows, rows[i].id).value;
    var j :| 0 <= j < |rows| && rows[j] == row;
  }

  lemma RowOfIndex(rows: seq<Invoice>, id: InvoiceId) returns (i: nat)
    requires RowOf(rows, id).Some?
    ensures i < |rows| && rows[i] == RowOf(rows, id).value && rows[i].id == id
  {
    i :| 0 <= i < |rows| && rows[i] == RowOf(rows, id).value;
  }

  lemma EvolvesReflexive(row: Invoice)
    ensures Evolves(row, row)
  {
  }

  lemma StepOfRow(a: Invoice, b: Invoice, taxRate: Option<real>, env: Env)
    requires a == b || Moves(a, b, taxRate, env)
    ensures Evolves(a, b) && (b.id, b.tenant, b.number) == (a.id, a.tenant, a.number)
    ensures GoodRow(a, env) ==> GoodRow(b, env)
  {
    hide GoodRow;
  }

  /** One step: an invoice evolves, or it was a draft and is deleted. */
  lemma StepEvolves(db: Db, env: Env, a: Action, id: InvoiceId)
    requires InModel(db, a) && Good(db, env)
    requires RowOf(db.invoices, id).Some?
    ensures var row, after := RowOf(db.invoices, id).value, RowOf(Perform(db, env, a).db.invoices, id);
            && (after.Some? ==> Evolves(row, after.value))
            && (after.None? ==> row.status.Draft? && a.Delete? && a.id == id)
  {
    hide Perform, GoodRow, Evolves, ValidTransition;
    var rows := Perform(db, env, a).db.invoices;
    var i := RowOfIndex(db.invoices, id);
    PerformShape(db, env, a);
    PerformKeepsGood(db, env, a);
    EvolvesReflexive(db.invoices[i]);
    if Pointwise(db, rows, env) {
      StepOfRow(db.invoices[i], rows[i], RateOf(db, rows[i].tenant), env);
      RowOfUnique(rows, i);
    } else if a.Create? && Appends(db, rows, a.user.tenant, a.id, env) {
      assert rows[i] == rows[..|rows| - 1][i] == db.invoices[i];
      RowOfUnique(rows, i);
    } else {
      var k := Find(db.invoices, a.id, a.user.tenant);
      if i != k {
        var j := if i < k then i else i - 1;
        assert rows[j] == db.invoices[i];
        RowOfUnique(rows, j);
      }
    }
  }

  predicate Recreates(a: Action, id: InvoiceId) { a.Create? && a.id == id }

  lemma AbsentStays(db: Db, env: Env, a: Action, id: InvoiceId)
    requires InModel(db, a) && RowOf(db.invoices, id).None? && !Recreates(a, id)
    ensures RowOf(Perform(db, env, a).db.invoices, id).None?
  {
    hide Perform, GoodRow, Evolves, ValidTransition;
    var rows := Perform(db, env, a).db.invoices;
    PerformShape(db, env, a);
    forall i | 0 <= i < |rows|
      ensures rows[i].id != id
    {
      if Pointwise(db, rows, env) {
        StepOfRow(db.invoices[i], rows[i], RateOf(db, rows[i].tenant), env);
      } else if a.Create? && Appends(db, rows, a.user.tenant, a.id, env) {
        if i < |db.invoices| { assert rows[i] == rows[..|rows| - 1][i] == db.invoices[i]; }
      } else {
        var k := Find(db.invoices, a.id, a.user.tenant);
        assert rows[i] == db.invoices[if i < k then i else i + 1];
      }
    }
  }

  /** How often the status of an invoice changes along a run. */
  function StatusChanges(db: Db, env: Env, actions: seq<Action>, id: InvoiceId): nat
    decreases |actions|
  {
    if actions == [] || !InModel(db, actions[0]) then 0
    else
      var db' := Perform(db, env, actions[0]).db;
      var before, after := RowOf(db.invoices, id), RowOf(db'.invoices, id);
      (if before.Some? && after.Some? && before.value.status != after.value.status then 1 else 0)
      + StatusChanges(db', env, actions[1..], id)
  }

  lemma {:induction false} AbsentForever(db: Db, env: Env, actions: seq<Action>, id: InvoiceId)
    requires RowOf(db.invoices, id).None?
    requires forall i :: 0 <= i < |actions| ==> !Recreates(actions[i], id)
    ensures RowOf(Run(db, env, actions).invoices, id).None? && StatusChanges(db, env, actions, id) == 0
    decreases |actions|
  {
    if actions == [] || !InModel(db, actions[0]) {
    } else {
      AbsentStays(db, env, actions[0], id);
      AbsentForever(Perform(db, env, actions[0]).db, env, actions[1..], id);
    }
  }

  /**
   Over every run an invoice only climbs Draft < Sent < Overdue < Paid, changing status at most three
   times. Only a draft can disappear; once sent, an invoice stays and only its status and payment data
   change; once paid, nothing changes. (A draft's id must not be handed out again after its deletion.)
   */
  lemma {:induction false} InvoiceLife(db: Db, env: Env, actions: seq<Action>, id: InvoiceId)
    requires Good(db, env) && RowOf(db.invoices, id).Some?
    requires RowOf(db.invoices, id).value.status.Draft? ==>
               forall i :: 0 <= i < |actions| ==> !Recreates(actions[i], id)
    ensures var row, last := RowOf(db.invoices, id).value, RowOf(Run(db, env, actions).invoices, id);
            && (last.Some? ==> Evolves(row, last.value))
            && (last.None? ==> row.status.Draft?)
            && StatusChanges(db, env, actions, id) <= 3 - Rank(row.status)
    decreases |actions|
  {
    hide Perform, Good, Evolves;
    var row := RowOf(db.invoices, id).value;
    if actions == [] || !InModel(db, actions[0]) {
      EvolvesReflexive(row);
    } else {
      var db' := Perform(db, env, actions[0]).db;
      var after := RowOf(db'.invoices, id);
      StepEvolves(db, env, actions[0], id);
      PerformKeepsGood(db, env, actions[0]);
      if after.None? {
        AbsentForever(db', env, actions[1..], id);
      } else {
        EvolvesClimbs(row, after.value);
        InvoiceLife(db', env, actions[1..], id);
        var last := RowOf(Run(db', env, actions[1..]).invoices, id);
        if last.Some? { EvolvesTransitive(row, after.value, last.value); }
      }
    }
  }

  lemma EvolvesClimbs(a: Invoice, b: Invoice)
    requires Evolves(a, b)
    ensures Rank(a.status) <= Rank(b.status) && (a.status != b.status ==> Rank(a.status) < Rank(b.status))
    ensures b.status.Draft? ==> a.status.Draft?
  {
  }

  // ---------- Single steps ----------

  /** Items are always totalled at the tax rate the tenant has when they are written. */
  lemma TaxRateInForce(db: Db, env: Env, a: Action, i: nat)
    requires InModel(db, a) && Good(db, env)
    requires i < |Perform(db, env, a).db.invoices|
    ensures var row := Perform(db, env, a).db.invoices[i];
            var before := RowOf(db.invoices, row.id);
            before.None? || before.value.source != row.source ==>
              row.source.taxRate == RateOf(db, row.tenant)
  {
    hide Perform, GoodRow, Evolves, ValidTransition;
    var rows := Perform(db, env, a).db.invoices;
    PerformShape(db, env, a);
    if Pointwise(db, rows, env) {
      StepOfRow(db.invoices[i], rows[i], RateOf(db, rows[i].tenant), env);
      RowOfUnique(db.invoices, i);
    } else if a.Create? && Appends(db, rows, a.user.tenant, a.id, env) {
      if i < |db.invoices| {
        assert rows[i] == rows[..|rows| - 1][i] == db.invoices[i];
        RowOfUnique(db.invoices, i);
      }
    } else {
      var k := Find(db.invoices, a.id, a.user.tenant);
      RowOfUnique(db.invoices, if i < k then i else i + 1);
    }
  }

  /** Does this request get as far as committing the tenant's counter? */
  predicate TakesNumber(db: Db, a: Action)
    requires InModel(db, a)
  {
    a.Create? && ValidNew(a.invoice) && a.user.tenant in db.tenants
    && NumberFor(db.tenants[a.user.tenant], a.date).Some?
  }

  /**
   A rejected request leaves the committed database as it was, exactly when it is not a create that
   has taken a number: then the counter stays incremented, and nothing else has changed.
   */
  lemma RejectedLeavesState(db: Db, env: Env, a: Action)
    requires InModel(db, a) && Perform(db, env, a).response.Rejected?
    ensures Perform(db, env, a).db == db <==> !TakesNumber(db, a)
    ensures Perform(db, env, a).db.invoices == db.invoices && Perform(db, env, a).touched == {}
    ensures TakesNumber(db, a) ==>
              var row := db.tenants[a.user.tenant];
              Perform(db, env, a).db.tenants == db.tenants[a.user.tenant := row.(sequence := row.sequence + 1)]
  {
    hide NumberFor, Modelled, FitsColumns, NewRow, NumberTaken, IdTaken, ValidNew;
    if TakesNumber(db, a) {
      var t := a.user.tenant;
      assert Perform(db, env, a).db.tenants[t].sequence != db.tenants[t].sequence;
    }
  }

  /** An item of a hundred million: its price has nine digits before the point. */
  const COSTLY := NewInvoice(Customer("A", None, None, None), "2026-01-03", None, None, [Line("x", 1.0, 100000000.0)])

  /**
   Such a rejection exists: any tenant with the default format, and an item too costly for its column.
   The answer is 500, no invoice is stored, and the counter has moved.
   */
  lemma RejectedCreateCounts(db: Db, env: Env, u: User, id: InvoiceId, date: DateStamp)
    requires RoundsToNearest(env.round) && u.tenant in db.tenants
    requires db.tenants[u.tenant].format == "" && db.invoices == []
    ensures var a, row := Create(u, COSTLY, id, date), db.tenants[u.tenant];
            && InModel(db, a) && TakesNumber(db, a)
            && Perform(db, env, a).response == Rejected(500)
            && Perform(db, env, a).db == db.(tenants := db.tenants[u.tenant := row.(sequence := row.sequence + 1)])
  {
    var row := db.tenants[u.tenant];
    DefaultNumber(row, date);
    CostlyIsValid();
    hide COSTLY, NumberFor, Modelled, ValidNew, RoundsToNearest, NewRow, FitsColumns, Perform;
    CostlyDoesNotFit(u.tenant, row, u, id, NumberFor(row, date).value, env);
    TooLarge(db, env, u, COSTLY, id, date);
  }

  lemma TooLarge(db: Db, env: Env, u: User, n: NewInvoice, id: InvoiceId, date: DateStamp)
    requires u.tenant in db.tenants && Modelled(db.tenants[u.tenant]) && ValidNew(n) && db.invoices == []
    requires NumberFor(db.tenants[u.tenant], date).Some?
    requires var row := db.tenants[u.tenant];
             !FitsColumns(NewRow(u.tenant, row, u, n, id, NumberFor(row, date).value, env))
    ensures var a, row := Create(u, n, id, date), db.tenants[u.tenant];
            Perform(db, env, a) ==
            Outcome(db.(tenants := db.tenants[u.tenant := row.(sequence := row.sequence + 1)]), Rejected(500), {})
  {
    hide NumberFor, Modelled, ValidNew, NewRow, FitsColumns;
  }

  lemma CostlyIsValid()
    ensures ValidNew(COSTLY)
  {
    assert ValidLine(COSTLY.lines[0]);
  }

  lemma CostlyDoesNotFit(t: TenantId, row: Tenant, u: User, id: InvoiceId, number: string, env: Env)
    requires RoundsToNearest(env.round)
    ensures !FitsColumns(NewRow(t, row, u, COSTLY, id, number, env))
  {
    var lines := NewRow(t, row, u, COSTLY, id, number, env).lines;
    assert lines[0] == StoreLine(env.round, COSTLY.lines[0]);
    assert IsNearest(100000000.0, env.round(100000000.0));
  }

  /**
   A create run alone is the four steps of the numbering protocol: it ends as the third of them fails when
   validating the format raises, and otherwise as the fourth ends, with 201, 400 or 500.
   */
  lemma CreateIsProtocol(db: Db, env: Env, u: User, n: NewInvoice, id: InvoiceId, date: DateStamp, sid: nat)
    requires InModel(db, Create(u, n, id, date)) && ValidNew(n) && u.tenant in db.tenants
    ensures var row, o := db.tenants[u.tenant], CreateInvoice(db, env, u, n, id, date);
            var loaded := After(Local(db, map[], Idle), sid, Load(u.tenant));
            var locked := After(loaded, sid, Lock(true));
            var issued := After(locked, sid, Issue(date));
            match NumberFor(row, date)
            case None => issued == Local(o.db, map[], Failed(500)) && o.response == Rejected(500)
            case Some(number) =>
              var end := After(issued, sid, Insert(NewRow(u.tenant, row, u, n, id, number, env)));
              && end.db == o.db && end.locks == map[]
              && end.phase == match o.response case Done => Created(id) case Rejected(code) => Failed(code)
  {
    hide NumberFor, Modelled, NewRow, FitsColumns, NumberTaken, IdTaken, ValidNew;
    var row := db.tenants[u.tenant];
    assert map[u.tenant := sid] - {u.tenant} == map[];
    if NumberFor(row, date).Some? {
      NewRowIdentity(u.tenant, row, u, n, id, NumberFor(row, date).value, env);
    }
  }

  lemma NewRowIdentity(t: TenantId, row: Tenant, u: User, n: NewInvoice, id: InvoiceId, number: string, env: Env)
    ensures var r := NewRow(t, row, u, n, id, number, env);
            r.id == id && r.tenant == t && r.number == number && r == r.(tenant := t, number := number)
  {
  }

  // ---------- The sweep ----------

  /** For due dates in YYYY-MM-DD form, the string comparison in the query loses nothing and adds nothing. */
  lemma DueExactly(row: Invoice, today: Date, env: Env)
    requires IsDate(today)
    requires row.dueDate.Some? && ParseCanonical(row.dueDate.value).Some?
    ensures Due(row, today, env) <==> row.status.Sent? && Before(ParseCanonical(row.dueDate.value).value, today)
  {
    ParseIsoFormat(today);
    StringOrderIsCalendarOrder(row.dueDate.value, IsoFormat(today));
  }

  /** Past due: sent, and its due date lies before today in the calendar. */
  ghost predicate PastDue(row: Invoice, today: Date) {
    row.status.Sent? && row.dueDate.Some? && ParseCanonical(row.dueDate.value).Some?
    && Before(ParseCanonical(row.dueDate.value).value, today)
  }

  /**
   When due dates are in YYYY-MM-DD form, a sweep turns exactly the sent invoices due before today into
   overdue ones, changes nothing else, and invalidates exactly the tenants that have such an invoice.
   */
  lemma SweepExactly(db: Db, env: Env, today: Date)
    requires IsDate(today)
    requires forall i :: 0 <= i < |db.invoices| && db.invoices[i].dueDate.Some? ==>
               ParseCanonical(db.invoices[i].dueDate.value).Some?
    ensures var o := CheckOverdue(db, env, today);
            && |o.db.invoices| == |db.invoices| && o.db.tenants == db.tenants
            && (forall i :: 0 <= i < |db.invoices| ==>
                  o.db.invoices[i] == if PastDue(db.invoices[i], today) then db.invoices[i].(status := Overdue)
                                      else db.invoices[i])
            && (forall t :: t in o.touched <==>
                  exists i :: 0 <= i < |db.invoices| && PastDue(db.invoices[i], today) && db.invoices[i].tenant == t)
  {
    forall i | 0 <= i < |db.invoices|
      ensures Due(db.invoices[i], today, env) <==> PastDue(db.invoices[i], today)
    {
      if db.invoices[i].dueDate.Some? { DueExactly(db.invoices[i], today, env); }
    }
    hide Due, PastDue;
    assert forall i :: 0 <= i < |db.invoices| ==> Due(db.invoices[i], today, env) == PastDue(db.invoices[i], today);
  }

  /** Sweeping again on the same day changes nothing and touches nobody. */
  lemma SweepTwice(db: Db, env: Env, today: Date)
    requires IsDate(today)
    ensures var once := CheckOverdue(db, env, today).db;
            CheckOverdue(once, env, today) == Outcome(once, Done, {})
  {
    hide StringLess, ParseDueDate, IsoFormat, Before;
    var once := CheckOverdue(db, env, today).db;
    assert SweepRows(once.invoices, today, env) == once.invoices;
  }

  // ---------- Reports and frames ----------

  /** A successful status change or send moves one invoice, with its amount, between two buckets. */
  lemma StatusStepMovesOne(db: Db, env: Env, a: Action, st: Status)
    requires a.SetStatus? || a.Send?
    requires Perform(db, env, a).response.Done?
    ensures var t := a.user.tenant;
            var before, after := TenantRows(db.invoices, t), TenantRows(Perform(db, env, a).db.invoices, t);
            var row := db.invoices[Find(db.invoices, a.id, t)];
            var to := if a.Send? then Sent else a.status;
            var moved := if st == to then 1 else if st == row.status then -1 else 0;
            && row.status != to && |after| == |before|
            && Count(after, st) == Count(before, st) + moved
            && Amount(after, st) == Amount(before, st) + moved * row.amounts.total
  {
    hide TenantRows, Count, Amount;
    var k := Find(db.invoices, a.id, a.user.tenant);
    var row' := Perform(db, env, a).db.invoices[k];
    StatusChangeMovesOne(db.invoices, k, row', st);
  }

  /** A create, an update or a deletion moves drafts only: no report amount, and no other count, changes. */
  lemma DraftStepsKeepBuckets(db: Db, env: Env, a: Action, st: Status)
    requires InModel(db, a) && (a.Create? || a.Update? || a.Delete?)
    requires Perform(db, env, a).response.Done?
    ensures var t := a.user.tenant;
            var before, after := TenantRows(db.invoices, t), TenantRows(Perform(db, env, a).db.invoices, t);
            var drafts := if a.Create? then 1 else if a.Delete? then -1 else 0;
            && |after| == |before| + drafts
            && Count(after, st) == Count(before, st) + (if st.Draft? then drafts else 0)
            && (!st.Draft? ==> Amount(after, st) == Amount(before, st))
  {
    hide TenantRows, Count, Amount, NumberFor, Modelled, FitsColumns, NumberTaken, IdTaken, ValidNew, ValidChanges;
    var rows, t := Perform(db, env, a).db.invoices, a.user.tenant;
    if a.Create? {
      AppendMoves(db.invoices, rows[|db.invoices|], t, st);
    } else {
      var k := Find(db.invoices, a.id, t);
      if a.Delete? {
        RemoveMoves(db.invoices, k, t, st);
      } else {
        assert rows == db.invoices[k := rows[k]];
        ReplaceMoves(db.invoices, k, rows[k], t, st);
      }
    }
  }

  /** The due invoices of a table, and what they are worth together. */
  function DueRows(rows: seq<Invoice>, today: Date, env: Env): seq<Invoice>
    requires IsDate(today)
  {
    if rows == [] then []
    else (if Due(rows[0], today, env) then [rows[0]] else []) + DueRows(rows[1..], today, env)
  }

  function TotalOf(rows: seq<Invoice>): int {
    if rows == [] then 0 else rows[0].amounts.total + TotalOf(rows[1..])
  }

  lemma {:induction false} SweepByTenant(rows: seq<Invoice>, today: Date, env: Env, t: TenantId)
    requires IsDate(today)
    ensures TenantRows(SweepRows(rows, today, env), t) == SweepRows(TenantRows(rows, t), today, env)
  {
    hide Due;
    if rows == [] {
    } else {
      SweepByTenant(rows[1..], today, env, t);
      SweepHead(rows[0], rows[1..], today, env);
      SweepHead(rows[0], TenantRows(rows[1..], t), today, env);
      assert rows == [rows[0]] + rows[1..];
      hide SweptRow, SweepRows;
      var head, rest := SweptRow(rows[0], today, env), SweepRows(rows[1..], today, env);
      assert ([head] + rest)[1..] == rest;
      assert [] + TenantRows(rest, t) == TenantRows(rest, t);
      assert [] + TenantRows(rows[1..], t) == TenantRows(rows[1..], t);
    }
  }

  lemma SweepHead(row: Invoice, rest: seq<Invoice>, today: Date, env: Env)
    requires IsDate(today)
    ensures SweepRows([row] + rest, today, env) == [SweptRow(row, today, env)] + SweepRows(rest, today, env)
    ensures SweptRow(row, today, env).tenant == row.tenant
  {
    hide Due;
  }

  /** What a bucket gains when n move out of SENT and into OVERDUE. */
  function Gained(st: Status, n: int): int { if st.Sent? then -n else if st.Overdue? then n else 0 }

  lemma SweptOne(row: Invoice, today: Date, env: Env, st: Status)
    requires IsDate(today)
    ensures var swept, due := SweptRow(row, today, env), Due(row, today, env);
            && One(swept, st) == One(row, st) + Gained(st, if due then 1 else 0)
            && Worth(swept, st) == Worth(row, st) + Gained(st, if due then row.amounts.total else 0)
  {
    hide StringLess, ParseDueDate, IsoFormat, Before;
  }

  lemma {:induction false} SweepMovesRows(mine: seq<Invoice>, today: Date, env: Env, st: Status)
    requires IsDate(today)
    ensures var after, due := SweepRows(mine, today, env), DueRows(mine, today, env);
            && Count(after, st) == Count(mine, st) + Gained(st, |due|)
            && Amount(after, st) == Amount(mine, st) + Gained(st, TotalOf(due))
  {
    hide Due, SweptRow, One, Worth;
    if mine == [] {
    } else {
      var row, rest := mine[0], mine[1..];
      SweepMovesRows(rest, today, env, st);
      SweepHead(row, rest, today, env);
      assert mine == [row] + rest;
      CountsCons(row, rest, st);
      SweptOne(row, today, env, st);
      CountsCons(SweptRow(row, today, env), SweepRows(rest, today, env), st);
      var due := DueRows(rest, today, env);
      assert ([row] + due)[1..] == due && [] + due == due;
    }
  }

  lemma CountsCons(row: Invoice, rest: seq<Invoice>, st: Status)
    ensures Count([row] + rest, st) == One(row, st) + Count(rest, st)
    ensures Amount([row] + rest, st) == Worth(row, st) + Amount(rest, st)
  {
    assert ([row] + rest)[1..] == rest;
  }

  /**
   A sweep takes exactly the due invoices of each tenant, with their amounts, out of the SENT bucket and
   into the OVERDUE one.
   */
  lemma SweepMovesDue(db: Db, env: Env, today: Date, t: TenantId, st: Status)
    requires IsDate(today)
    ensures var before := TenantRows(db.invoices, t);
            var after, due := TenantRows(CheckOverdue(db, env, today).db.invoices, t), DueRows(before, today, env);
            && |after| == |before|
            && Count(after, st) == Count(before, st) + Gained(st, |due|)
            && Amount(after, st) == Amount(before, st) + Gained(st, TotalOf(due))
  {
    hide TenantRows, Count, Amount, Due, TotalOf;
    SweepByTenant(db.invoices, today, env, t);
    SweepMovesRows(TenantRows(db.invoices, t), today, env, st);
  }

  lemma CreateUntouched(db: Db, env: Env, u: User, n: NewInvoice, id: InvoiceId, date: DateStamp, t: TenantId)
    requires InModel(db, Create(u, n, id, date)) && t !in CreateInvoice(db, env, u, n, id, date).touched
    ensures TenantRows(CreateInvoice(db, env, u, n, id, date).db.invoices, t) == TenantRows(db.invoices, t)
  {
    hide TenantRows, NumberFor, Modelled, FitsColumns, NumberTaken, IdTaken, ValidNew;
    var rows := CreateInvoice(db, env, u, n, id, date).db.invoices;
    if rows != db.invoices { AppendFrame(db.invoices, rows[|db.invoices|], t); }
  }

  predicate RowReplaced(rows: seq<Invoice>, o: Outcome, k: nat) {
    && k < |rows| == |o.db.invoices| && o.db.invoices == rows[k := o.db.invoices[k]]
    && o.db.invoices[k].tenant == rows[k].tenant && rows[k].tenant in o.touched
  }

  /** One row may have been replaced, and then its tenant is touched. */
  ghost predicate ReplacesOne(db: Db, o: Outcome) {
    o.db.invoices == db.invoices || exists k: nat :: RowReplaced(db.invoices, o, k)
  }

  lemma ReplacedUntouched(db: Db, o: Outcome, t: TenantId)
    requires ReplacesOne(db, o) && t !in o.touched
    ensures TenantRows(o.db.invoices, t) == TenantRows(db.invoices, t)
  {
    hide TenantRows;
    if o.db.invoices != db.invoices { MapFrame(db.invoices, o.db.invoices, t); }
  }

  lemma UpdateReplacesOne(db: Db, env: Env, u: User, id: InvoiceId, c: Changes)
    ensures ReplacesOne(db, UpdateInvoice(db, env, u, id, c))
  {
    hide FitsColumns, ValidChanges;
    var o := UpdateInvoice(db, env, u, id, c);
    if o.response.Done? { assert RowReplaced(db.invoices, o, Find(db.invoices, id, u.tenant)); }
  }

  lemma StatusReplacesOne(db: Db, u: User, id: InvoiceId, st: Status, paidWith: Option<PaymentMethod>, now: string)
    ensures ReplacesOne(db, SetInvoiceStatus(db, u, id, st, paidWith, now))
  {
    var o := SetInvoiceStatus(db, u, id, st, paidWith, now);
    if o.response.Done? { assert RowReplaced(db.invoices, o, Find(db.invoices, id, u.tenant)); }
  }

  lemma SendReplacesOne(db: Db, u: User, id: InvoiceId, pdf: bool)
    ensures ReplacesOne(db, SendInvoice(db, u, id, pdf))
  {
    var o := SendInvoice(db, u, id, pdf);
    if o.response.Done? { assert RowReplaced(db.invoices, o, Find(db.invoices, id, u.tenant)); }
  }

  lemma DeleteUntouched(db: Db, u: User, id: InvoiceId, t: TenantId)
    requires t !in DeleteInvoice(db, u, id).touched
    ensures TenantRows(DeleteInvoice(db, u, id).db.invoices, t) == TenantRows(db.invoices, t)
  {
    hide TenantRows;
    if DeleteInvoice(db, u, id).response.Done? { RemoveFrame(db.invoices, Find(db.invoices, id, u.tenant), t); }
  }

  lemma SweepUntouched(db: Db, env: Env, today: Date, t: TenantId)
    requires IsDate(today) && t !in CheckOverdue(db, env, today).touched
    ensures TenantRows(CheckOverdue(db, env, today).db.invoices, t) == TenantRows(db.invoices, t)
  {
    hide TenantRows, Due;
    MapFrame(db.invoices, CheckOverdue(db, env, today).db.invoices, t);
  }

  /** A tenant whose reports are not invalidated has the same invoices as before. */
  lemma UntouchedTenant(db: Db, env: Env, a: Action, t: TenantId)
    requires InModel(db, a) && t !in Perform(db, env, a).touched
    ensures TenantRows(Perform(db, env, a).db.invoices, t) == TenantRows(db.invoices, t)
  {
    hide TenantRows, Modelled, ReplacesOne, CreateInvoice, UpdateInvoice, SetInvoiceStatus, DeleteInvoice, SendInvoice,
      CheckOverdue;
    match a {
      case Create(u, n, id, date) => CreateUntouched(db, env, u, n, id, date, t);
      case Update(u, id, c) =>
        UpdateReplacesOne(db, env, u, id, c);
        ReplacedUntouched(db, Perform(db, env, a), t);
      case SetStatus(u, id, st, paidWith, now) =>
        StatusReplacesOne(db, u, id, st, paidWith, now);
        ReplacedUntouched(db, Perform(db, env, a), t);
      case Delete(u, id) => DeleteUntouched(db, u, id, t);
      case Send(u, id, pdf) =>
        SendReplacesOne(db, u, id, pdf);
        ReplacedUntouched(db, Perform(db, env, a), t);
      case Sweep(today) => SweepUntouched(db, env, today, t);
      case Configure(_, _, _) =>
    }
  }

  /** A request by a user of tenant t; a superadmin may change the settings of any tenant. */
  predicate By(a: Action, t: TenantId) {
    !a.Sweep? && a.user.tenant == t && (a.Configure? ==> !a.user.superadmin)
  }

  lemma TouchesOwnTenant(db: Db, env: Env, a: Action, t: TenantId)
    requires InModel(db, a) && By(a, t)
    ensures Perform(db, env, a).touched <= {t}
    ensures Perform(db, env, a).db.tenants - {t} == db.tenants - {t}
  {
    hide NumberFor, Modelled, FitsColumns;
  }

  /** Whatever the users of one tenant do, every other tenant keeps its invoices, its counter and its settings. */
  lemma {:induction false} TenantIsolation(db: Db, env: Env, actions: seq<Action>, t: TenantId, other: TenantId)
    requires other != t && forall i :: 0 <= i < |actions| ==> By(actions[i], t)
    ensures var db' := Run(db, env, actions);
            && TenantRows(db'.invoices, other) == TenantRows(db.invoices, other)
            && (other in db'.tenants <==> other in db.tenants)
            && (other in db.tenants ==> db'.tenants[other] == db.tenants[other])
    decreases |actions|
  {
    hide Perform;
    if actions == [] || !InModel(db, actions[0]) {
    } else {
      var db' := Perform(db, env, actions[0]).db;
      TouchesOwnTenant(db, env, actions[0], t);
      UntouchedTenant(db, env, actions[0], other);
      SameOutside(db.tenants, db'.tenants, t, other);
      TenantIsolation(db', env, actions[1..], t, other);
    }
  }

  lemma SameOutside(before: map<TenantId, Tenant>, after: map<TenantId, Tenant>, t: TenantId, other: TenantId)
    requires after - {t} == before - {t} && other != t
    ensures other in after <==> other in before
    ensures other in before ==> after[other] == before[other]
  {
    assert other in after <==> other in after - {t};
    assert other in before <==> other in before - {t};
    if other in before { assert (after - {t})[other] == (before - {t})[other]; }
  }
}
