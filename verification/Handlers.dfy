/**
 The handlers as the program runs them: a session works on its own copy of the rows, commits it or is
 closed without committing, and after a commit the tenant's cached reports are invalidated.
 Each method is proved against its atomic step in module Lifecycle.
 */
module Handlers {
  import opened Model
  import opened Money
  import opened Calendar
  import opened Storage
  import opened Redis
  import opened Cache
  import opened Numbering
  import opened Lifecycle
  import System

  /** A database session: rows read and assigned to, not yet committed. */
  class WorkingCopy {
    const database: Database
    var invoices: seq<Invoice>

    constructor (database: Database)
      ensures this.database == database && invoices == database.invoices
    {
      this.database, invoices := database, database.invoices;
    }

    method Assign(k: nat, row: Invoice)
      requires k < |invoices|
      modifies this
      ensures invoices == old(invoices)[k := row]
    {
      invoices := invoices[k := row];
    }

    method Commit()
      modifies database`invoices
      ensures database.invoices == invoices
    {
      database.invoices := invoices;
    }
  }

  /** What the sweep returns: the number of invoices updated and of tenants affected, or an error. */
  datatype SweepReport = Success(updated: nat, affected: nat) | Error

  class InvoiceService {
    const database: Database
    const redis: Connection
    const parseOther: string -> Option<Date>

    constructor (database: Database, redis: Connection, parseOther: string -> Option<Date>)
      ensures this.database == database && this.redis == redis && this.parseOther == parseOther
    {
      this.database, this.redis, this.parseOther := database, redis, parseOther;
    }

    function Environment(): Env { Env(database.round, parseOther) }

    /** The state after a handler, against what the handler is specified to do. */
    twostate predicate Performed(o: Outcome, r: Response)
      reads database, redis
    {
      && database.View() == o.db && r == o.response
      && System.Purged(old(redis.entries), redis.entries, o.touched, redis.now, redis.up)
    }

    /** The loop over the submitted items: the stored rows and the exact line totals. */
    method BuildItems(lines: seq<Line>) returns (items: seq<StoredLine>, totals: seq<real>)
      ensures items == StoreLines(database.round, lines) && totals == LineTotals(lines)
    {
      items, totals := [], [];
      for i := 0 to |lines|
        invariant |items| == i && |totals| == i
        invariant forall j :: 0 <= j < i ==> items[j] == StoreLine(database.round, lines[j])
        invariant forall j :: 0 <= j < i ==> totals[j] == LineTotal(lines[j])
      {
        var total := lines[i].quantity * lines[i].unitPrice;
        var item := StoredLine(lines[i].description, database.round(lines[i].quantity),
                               database.round(lines[i].unitPrice), database.round(total));
        assert total == LineTotal(lines[i]) && item == StoreLine(database.round, lines[i]);
        items := items + [item];
        totals := totals + [total];
      }
    }

    method WriteItems(row: Invoice, lines: seq<Line>, taxRate: Option<real>) returns (written: Invoice)
      ensures written == WriteLines(row, lines, taxRate, Environment())
    {
      var items, lineTotals := BuildItems(lines);
      var totals := CalculateTotals(lineTotals, taxRate);
      written := row.(lines := items, amounts := StoreTotals(database.round, totals), source := Source(lines, taxRate));
    }

    method Invalidate(tenant: TenantId)
      modifies redis`entries
      ensures System.Purged(old(redis.entries), redis.entries, {tenant}, redis.now, redis.up)
    {
      var _ := InvalidateTenantCache(redis, tenant);
    }

    /** The first transaction of create_invoice, nobody else running: load, lock, count, commit. */
    method TakeNumber(t: TenantId, date: DateStamp) returns (session: CreateSession)
      requires t in database.tenants ==> Modelled(database.tenants[t])
      requires database.locks == map[]
      modifies database`tenants, database`locks
      ensures fresh(session) && session.database == database && database.locks == map[]
      ensures t !in old(database.tenants) ==> session.phase == Failed(404) && database.tenants == old(database.tenants)
      ensures t in old(database.tenants) ==>
                var row := old(database.tenants)[t];
                match NumberFor(row, date)
                case None => session.phase == Failed(500) && database.tenants == old(database.tenants)
                case Some(number) =>
                  && session.phase == Holding(t, number)
                  && database.tenants == old(database.tenants)[t := row.(sequence := row.sequence + 1)]
    {
      hide NumberFor, Modelled;
      session := new CreateSession(database, 0);
      session.LoadTenant(t);
      if session.phase.Failed? { return; }
      session.LockTenant(true);
      assert session.phase == Locked(t, database.tenants[t]);
      assert map[t := 0] - {t} == map[];
      session.IssueNumber(date);
    }

    method Create(u: User, n: NewInvoice, id: InvoiceId, date: DateStamp) returns (r: Response)
      requires InModel(database.View(), Action.Create(u, n, id, date)) && database.locks == map[]
      modifies database, redis`entries
      ensures Performed(CreateInvoice(old(database.View()), Environment(), u, n, id, date), r)
      ensures database.locks == map[]
    {
      hide NumberFor, Modelled, FitsColumns, NumberTaken, IdTaken, ValidNew, WriteLines, CurrencyOf, InNamespace, Live;
      if !ValidNew(n) { return Rejected(422); }
      var session := TakeNumber(u.tenant, date);
      if session.phase.Failed? { return Rejected(session.phase.code); }
      var tenant := database.tenants[u.tenant];
      var blank := Invoice(
        id, u.tenant, session.phase.number, u.id, n.customer, CurrencyOf(tenant.currency), n.issueDate,
        n.dueDate, n.notes, Draft, [], Amounts(0, 0, 0, 0), None, None, Source([], None));
      var invoice := WriteItems(blank, n.lines, tenant.taxRate);
      WrittenIdentity(blank, n.lines, tenant.taxRate, Environment());
      session.InsertInvoice(invoice);
      if session.phase.Failed? { return Rejected(session.phase.code); }
      Invalidate(u.tenant);
      r := Done;
    }

    method Update(u: User, id: InvoiceId, c: Changes) returns (r: Response)
      modifies database`invoices, redis`entries
      ensures Performed(UpdateInvoice(old(database.View()), Environment(), u, id, c), r)
    {
      if !HasRole(u, Manager) { return Rejected(403); }
      if !ValidChanges(c) { return Rejected(422); }
      var session := new WorkingCopy(database);
      var k := Find(session.invoices, id, u.tenant);
      if k == |session.invoices| { return Rejected(404); }
      var row := session.invoices[k];
      if !CanManage(u, row) { return Rejected(403); }
      if row.status != Draft { return Rejected(400); }
      var fields := ApplyFields(row, c);
      if fields.None? { return Rejected(409); }
      var written := fields.value;
      if c.lines.Some? {
        var taxRate := if u.tenant in database.tenants then database.tenants[u.tenant].taxRate else None;
        written := WriteItems(written, c.lines.value, taxRate);
      }
      session.Assign(k, written);
      if !FitsColumns(written) { return Rejected(500); }
      session.Commit();
      Invalidate(u.tenant);
      r := Done;
    }

    /** The new status is assigned before a missing payment method is noticed; only a commit publishes it. */
    method UpdateStatus(u: User, id: InvoiceId, st: Status, paidWith: Option<PaymentMethod>, now: string)
      returns (r: Response)
      modifies database`invoices, redis`entries
      ensures Performed(SetInvoiceStatus(old(database.View()), u, id, st, paidWith, now), r)
    {
      if !HasRole(u, Manager) { return Rejected(403); }
      var session := new WorkingCopy(database);
      var k := Find(session.invoices, id, u.tenant);
      if k == |session.invoices| { return Rejected(404); }
      if !CanManage(u, session.invoices[k]) { return Rejected(403); }
      if !ValidTransition(session.invoices[k].status, st) { return Rejected(400); }
      session.Assign(k, session.invoices[k].(status := st));
      if st == Paid {
        if paidWith.None? { return Rejected(400); }
        session.Assign(k, session.invoices[k].(paymentMethod := paidWith, paidAt := Some(now)));
      }
      session.Commit();
      Invalidate(u.tenant);
      r := Done;
    }

    method Delete(u: User, id: InvoiceId) returns (r: Response)
      modifies database`invoices, redis`entries
      ensures Performed(DeleteInvoice(old(database.View()), u, id), r)
    {
      if !HasRole(u, Admin) { return Rejected(403); }
      var session := new WorkingCopy(database);
      var k := Find(session.invoices, id, u.tenant);
      if k == |session.invoices| { return Rejected(404); }
      if !CanDelete(u, session.invoices[k]) { return Rejected(403); }
      if session.invoices[k].status != Draft { return Rejected(400); }
      session.invoices := Remove(session.invoices, k);
      session.Commit();
      Invalidate(u.tenant);
      r := Done;
    }

    method Send(u: User, id: InvoiceId, pdf: bool) returns (r: Response)
      modifies database`invoices, redis`entries
      ensures Performed(SendInvoice(old(database.View()), u, id, pdf), r)
    {
      if !HasRole(u, Manager) { return Rejected(403); }
      var session := new WorkingCopy(database);
      var k := Find(session.invoices, id, u.tenant);
      if k == |session.invoices| { return Rejected(404); }
      var row := session.invoices[k];
      if !CanManage(u, row) { return Rejected(403); }
      if row.status != Draft || !HasEmail(row) { return Rejected(400); }
      if !pdf { return Rejected(500); }
      session.Assign(k, row.(status := Sent));
      session.Commit();
      Invalidate(u.tenant);
      r := Done;
    }

    /** check_overdue_invoices.  available: the database carries out the query and the commit. */
    method CheckOverdueInvoices(today: Date, available: bool) returns (report: SweepReport)
      requires IsDate(today)
      modifies database`invoices, redis`entries
      ensures available ==>
                && Performed(CheckOverdue(old(database.View()), Environment(), today), Done)
                && report == Success(|DuePositions(old(database.invoices), today, Environment())|,
                                     |AffectedTenants(old(database.invoices), today, Environment())|)
      ensures !available ==>
                report == Error && database.invoices == old(database.invoices) && redis.entries == old(redis.entries)
    {
      var session := new WorkingCopy(database);
      var updated, tenants := MarkOverdue(session, today);
      if !available { return Error; }
      session.Commit();
      InvalidateAll(tenants);
      report := Success(updated, |tenants|);
    }

    method MarkOverdue(session: WorkingCopy, today: Date) returns (updated: nat, tenants: set<TenantId>)
      requires IsDate(today)
      modifies session
      ensures session.invoices == SweepRows(old(session.invoices), today, Environment())
      ensures updated == |DuePositions(old(session.invoices), today, Environment())|
      ensures tenants == AffectedTenants(old(session.invoices), today, Environment())
    {
      hide StringLess, ParseDueDate, IsoFormat, Before, DuePositions, AffectedTenants;
      var todayText := IsoFormat(today);
      updated, tenants := 0, {};
      NothingDue(today, Environment());
      ghost var rows, env := session.invoices, Environment();
      for i := 0 to |session.invoices|
        invariant |session.invoices| == |rows|
        invariant forall j :: 0 <= j < i ==> session.invoices[j] == SweptRow(rows[j], today, env)
        invariant forall j :: i <= j < |rows| ==> session.invoices[j] == rows[j]
        invariant updated == |DuePositions(rows[..i], today, env)|
        invariant tenants == AffectedTenants(rows[..i], today, env)
      {
        var row := session.invoices[i];
        DueStep(rows, i, today, env);
        if row.status == Sent && row.dueDate.Some? && StringLess(row.dueDate.value, todayText) {
          var due := ParseDueDate(row.dueDate.value, Environment());
          if due.Some? && Before(due.value, today) {
            session.Assign(i, row.(status := Overdue));
            updated := updated + 1;
            tenants := tenants + {row.tenant};
          }
        }
      }
      assert rows[..|rows|] == rows;
    }

    method InvalidateAll(tenants: set<TenantId>)
      modifies redis`entries
      ensures System.Purged(old(redis.entries), redis.entries, tenants, redis.now, redis.up)
    {
      var todo := tenants;
      while todo != {}
        invariant todo <= tenants
        invariant System.Purged(old(redis.entries), redis.entries, tenants - todo, redis.now, redis.up)
        decreases |todo|
      {
        var t :| t in todo;
        ghost var before := redis.entries;
        var _ := InvalidateTenantCache(redis, t);
        PurgeStep(old(redis.entries), before, redis.entries, tenants - todo, t, redis.now, redis.up);
        todo := todo - {t};
        assert tenants - todo == (tenants - (todo + {t})) + {t};
      }
      assert tenants - {} == tenants;
    }
  }

  /** The positions of the rows a sweep turns overdue. */
  function DuePositions(rows: seq<Invoice>, today: Date, env: Env): set<nat>
    requires IsDate(today)
  {
    set i: nat | i < |rows| && Due(rows[i], today, env)
  }

  lemma WrittenIdentity(row: Invoice, lines: seq<Line>, taxRate: Option<real>, env: Env)
    ensures var w := WriteLines(row, lines, taxRate, env);
            w.id == row.id && w == w.(tenant := row.tenant, number := row.number)
  {
  }

  lemma NothingDue(today: Date, env: Env)
    requires IsDate(today)
    ensures DuePositions([], today, env) == {} && AffectedTenants([], today, env) == {}
  {
  }

  lemma DueStep(rows: seq<Invoice>, i: nat, today: Date, env: Env)
    requires IsDate(today) && i < |rows|
    ensures var due := Due(rows[i], today, env);
            && |DuePositions(rows[..i + 1], today, env)| ==
               |DuePositions(rows[..i], today, env)| + (if due then 1 else 0)
            && AffectedTenants(rows[..i + 1], today, env) ==
               AffectedTenants(rows[..i], today, env) + (if due then {rows[i].tenant} else {})
  {
    hide Due;
    var a, b := rows[..i], rows[..i + 1];
    var extra: set<nat> := if Due(rows[i], today, env) then {i} else {};
    assert DuePositions(b, today, env) == DuePositions(a, today, env) + extra;
    assert DuePositions(a, today, env) * extra == {};
    var ta, tb := AffectedTenants(a, today, env), AffectedTenants(b, today, env);
    forall t | t in ta ensures t in tb {
      var j :| 0 <= j < |a| && Due(a[j], today, env) && a[j].tenant == t;
      assert b[j] == a[j];
    }
    forall t | t in tb ensures t in ta || (Due(rows[i], today, env) && t == rows[i].tenant) {
      var j :| 0 <= j < |b| && Due(b[j], today, env) && b[j].tenant == t;
      if j < i { assert a[j] == b[j]; }
    }
    if Due(rows[i], today, env) { assert b[i] == rows[i] && b[i].tenant in tb; }
  }

  lemma PurgeStep(start: Store, before: Store, after: Store, done: set<TenantId>, t: TenantId, now: real, up: bool)
    requires System.Purged(start, before, done, now, up)
    requires OnlyEvicts(before, after, t) && (up ==> Evicted(after, t, now))
    ensures System.Purged(start, after, done + {t}, now, up)
  {
    hide InNamespace;
  }
}
