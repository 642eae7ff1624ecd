/**
 What each handler does to the committed database, as one atomic step: create, update, status change,
 deletion, sending, the overdue sweep, and changes of tenant settings.
 The properties of single steps and of whole runs are in module Runs.
 */
module Lifecycle {
  import opened Model
  import opened Money
  import opened Calendar
  import opened Numbering

  /** round: how the database rounds; parseOther: how due dates not in YYYY-MM-DD form are read. */
  datatype Env = Env(round: real -> int, parseOther: string -> Option<Date>)

  /** A field of a partial update: left out, or given, possibly as null. */
  datatype Field<+T> = Unset | Set(value: Option<T>)

  datatype NewInvoice = NewInvoice(
    customer: Customer, issueDate: string, dueDate: Option<string>, notes: Option<string>, lines: seq<Line>)

  /** `lines` is None both when left out and when null. */
  datatype Changes = Changes(
    name: Field<string>, email: Field<string>, phone: Field<string>, address: Field<string>,
    issueDate: Field<string>, dueDate: Field<string>, notes: Field<string>, lines: Option<seq<Line>>)

  datatype Settings = Settings(prefix: string, format: string, currency: string, taxRate: Option<real>)

  datatype Action =
    | Create(user: User, invoice: NewInvoice, id: InvoiceId, date: DateStamp)
    | Update(user: User, id: InvoiceId, changes: Changes)
    | SetStatus(user: User, id: InvoiceId, status: Status, paidWith: Option<PaymentMethod>, now: string)
    | Delete(user: User, id: InvoiceId)
    | Send(user: User, id: InvoiceId, pdf: bool)
    | Sweep(today: Date)
    | Configure(user: User, tenant: TenantId, settings: Settings)

  datatype Response = Done | Rejected(code: nat)

  /** touched: the tenants whose cached reports the handler invalidates after its commit. */
  datatype Outcome = Outcome(db: Db, response: Response, touched: set<TenantId>)

  // ---------- Permissions and validation ----------

  function RoleLevel(r: Role): nat {
    match r
    case Attendant => 1
    case Manager => 2
    case Admin => 3
    case Owner => 4
  }

  predicate HasRole(u: User, required: Role) { u.superadmin || RoleLevel(u.role) >= RoleLevel(required) }

  predicate CanManage(u: User, row: Invoice) {
    row.creator == u.id || u.role.Admin? || u.role.Owner? || u.superadmin
  }

  predicate CanDelete(u: User, row: Invoice) { row.creator == u.id || u.role.Owner? || u.superadmin }

  predicate ValidLine(line: Line) {
    1 <= |line.description| <= 255 && line.quantity > 0.0 && line.unitPrice >= 0.0
  }

  predicate ValidLines(lines: seq<Line>) {
    1 <= |lines| <= 100 && forall i :: 0 <= i < |lines| ==> ValidLine(lines[i])
  }

  predicate ValidName(name: string) { 1 <= |name| <= 100 }

  predicate ValidNew(n: NewInvoice) { ValidLines(n.lines) && ValidName(n.customer.name) }

  predicate ValidChanges(c: Changes) {
    && (c.lines.Some? ==> ValidLines(c.lines.value))
    && (c.name.Set? && c.name.value.Some? ==> ValidName(c.name.value.value))
  }

  // ---------- Rows ----------

  /** Replace the items of an invoice and recalculate its totals at the given tax rate. */
  function WriteLines(row: Invoice, lines: seq<Line>, taxRate: Option<real>, env: Env): Invoice {
    row.(lines := StoreLines(env.round, lines),
         amounts := StoreTotals(env.round, CalculateTotals(LineTotals(lines), taxRate)),
         source := Source(lines, taxRate))
  }

  function NewRow(t: TenantId, row: Tenant, u: User, n: NewInvoice, id: InvoiceId, number: string, env: Env): Invoice {
    var blank := Invoice(
      id, t, number, u.id, n.customer, CurrencyOf(row.currency), n.issueDate, n.dueDate, n.notes, Draft,
      [], Amounts(0, 0, 0, 0), None, None, Source([], None));
    WriteLines(blank, n.lines, row.taxRate, env)
  }

  function Chosen<T>(f: Field<T>, current: Option<T>): Option<T> { if f.Set? then f.value else current }

  /** The column assignments of an update; None when a NOT NULL column is given null. */
  function ApplyFields(row: Invoice, c: Changes): Option<Invoice> {
    var name := Chosen(c.name, Some(row.customer.name));
    var issued := Chosen(c.issueDate, Some(row.issueDate));
    if name.None? || issued.None? then None
    else Some(row.(
      customer := Customer(name.value, Chosen(c.email, row.customer.email),
                           Chosen(c.phone, row.customer.phone), Chosen(c.address, row.customer.address)),
      issueDate := issued.value,
      dueDate := Chosen(c.dueDate, row.dueDate),
      notes := Chosen(c.notes, row.notes)))
  }

  function RateOf(db: Db, t: TenantId): Option<real> {
    if t in db.tenants then db.tenants[t].taxRate else None
  }

  /** The row an update commits. */
  function Rewritten(fields: Invoice, c: Changes, taxRate: Option<real>, env: Env): Invoice {
    if c.lines.Some? then WriteLines(fields, c.lines.value, taxRate, env) else fields
  }

  predicate ValidTransition(from: Status, to: Status) {
    match from
    case Draft => to.Sent?
    case Sent => to.Paid? || to.Overdue?
    case Overdue => to.Paid?
    case Paid => false
  }

  // ---------- Handlers ----------

  function Reject(db: Db, code: nat): Outcome { Outcome(db, Rejected(code), {}) }

  function CreateInvoice(db: Db, env: Env, u: User, n: NewInvoice, id: InvoiceId, date: DateStamp): Outcome
    requires u.tenant in db.tenants ==> Modelled(db.tenants[u.tenant])
  {
    var t := u.tenant;
    if !ValidNew(n) then Reject(db, 422)
    else if t !in db.tenants then Reject(db, 404)
    else
      var row := db.tenants[t];
      var number := NumberFor(row, date);
      if number.None? then Reject(db, 500)
      else
        // The counter is committed before the invoice is inserted, and stays incremented.
        var counted := db.(tenants := db.tenants[t := row.(sequence := row.sequence + 1)]);
        var invoice := NewRow(t, row, u, n, id, number.value, env);
        if NumberTaken(db.invoices, t, number.value) || IdTaken(db.invoices, id) then Reject(counted, 400)
        else if !FitsColumns(invoice) then Reject(counted, 500)
        else Outcome(counted.(invoices := db.invoices + [invoice]), Done, {t})
  }

  function Replaced(db: Db, k: nat, row: Invoice): Outcome
    requires k < |db.invoices|
  {
    Outcome(db.(invoices := db.invoices[k := row]), Done, {row.tenant})
  }

  function UpdateInvoice(db: Db, env: Env, u: User, id: InvoiceId, c: Changes): Outcome {
    var k := Find(db.invoices, id, u.tenant);
    if !HasRole(u, Manager) then Reject(db, 403)
    else if !ValidChanges(c) then Reject(db, 422)
    else if k == |db.invoices| then Reject(db, 404)
    else
      var row := db.invoices[k];
      if !CanManage(u, row) then Reject(db, 403)
      else if !row.status.Draft? then Reject(db, 400)
      else
        var fields := ApplyFields(row, c);
        if fields.None? then Reject(db, 409)
        else
          var row' := Rewritten(fields.value, c, RateOf(db, u.tenant), env);
          if !FitsColumns(row') then Reject(db, 500) else Replaced(db, k, row')
  }

  function SetInvoiceStatus(
    db: Db, u: User, id: InvoiceId, st: Status, paidWith: Option<PaymentMethod>, now: string): Outcome
  {
    var k := Find(db.invoices, id, u.tenant);
    if !HasRole(u, Manager) then Reject(db, 403)
    else if k == |db.invoices| then Reject(db, 404)
    else
      var row := db.invoices[k];
      if !CanManage(u, row) then Reject(db, 403)
      else if !ValidTransition(row.status, st) then Reject(db, 400)
      else if st.Paid? then
        if paidWith.None? then Reject(db, 400)
        else Replaced(db, k, row.(status := Paid, paymentMethod := paidWith, paidAt := Some(now)))
      else Replaced(db, k, row.(status := st))
  }

  function DeleteInvoice(db: Db, u: User, id: InvoiceId): Outcome {
    var k := Find(db.invoices, id, u.tenant);
    if !HasRole(u, Admin) then Reject(db, 403)
    else if k == |db.invoices| then Reject(db, 404)
    else if !CanDelete(u, db.invoices[k]) then Reject(db, 403)
    else if !db.invoices[k].status.Draft? then Reject(db, 400)
    else Outcome(db.(invoices := Remove(db.invoices, k)), Done, {u.tenant})
  }

  predicate HasEmail(row: Invoice) { row.customer.email.Some? && row.customer.email.value != "" }

  function SendInvoice(db: Db, u: User, id: InvoiceId, pdf: bool): Outcome {
    var k := Find(db.invoices, id, u.tenant);
    if !HasRole(u, Manager) then Reject(db, 403)
    else if k == |db.invoices| then Reject(db, 404)
    else
      var row := db.invoices[k];
      if !CanManage(u, row) then Reject(db, 403)
      else if !row.status.Draft? || !HasEmail(row) then Reject(db, 400)
      else if !pdf then Reject(db, 500)
      else Replaced(db, k, row.(status := Sent))
  }

  /** parse_due_date */
  function ParseDueDate(s: string, env: Env): Option<Date> {
    if s == "" then None
    else if ParseCanonical(s).Some? then ParseCanonical(s)
    else env.parseOther(s)
  }

  /** The query's WHERE clause, and then the test in the loop. */
  predicate Due(row: Invoice, today: Date, env: Env)
    requires IsDate(today)
  {
    && row.status.Sent? && row.dueDate.Some? && StringLess(row.dueDate.value, IsoFormat(today))
    && var due := ParseDueDate(row.dueDate.value, env);
       due.Some? && Before(due.value, today)
  }

  function SweptRow(row: Invoice, today: Date, env: Env): Invoice
    requires IsDate(today)
  {
    if Due(row, today, env) then row.(status := Overdue) else row
  }

  function SweepRows(rows: seq<Invoice>, today: Date, env: Env): (r: seq<Invoice>)
    requires IsDate(today)
    ensures |r| == |rows| && forall i :: 0 <= i < |r| ==> r[i] == SweptRow(rows[i], today, env)
  {
    seq(|rows|, i requires 0 <= i < |rows| => SweptRow(rows[i], today, env))
  }

  function AffectedTenants(rows: seq<Invoice>, today: Date, env: Env): set<TenantId>
    requires IsDate(today)
  {
    set i | 0 <= i < |rows| && Due(rows[i], today, env) :: rows[i].tenant
  }

  function CheckOverdue(db: Db, env: Env, today: Date): Outcome
    requires IsDate(today)
  {
    Outcome(db.(invoices := SweepRows(db.invoices, today, env)), Done, AffectedTenants(db.invoices, today, env))
  }

  /** The part of update_tenant that numbering, totals and reports depend on; it invalidates nothing. */
  function ConfigureTenant(db: Db, u: User, t: TenantId, s: Settings): Outcome {
    if t !in db.tenants then Reject(db, 404)
    else if !u.superadmin && !(u.tenant == t && u.role.Owner?) then Reject(db, 403)
    else if !u.superadmin && s.currency != db.tenants[t].currency then Reject(db, 403)
    else
      var row := Tenant(s.prefix, s.format, db.tenants[t].sequence, s.currency, s.taxRate);
      Outcome(db.(tenants := db.tenants[t := row]), Done, {})
  }

  /** Formats stay within the modelled grammar, and `today` is a date. */
  predicate InModel(db: Db, a: Action) {
    match a
    case Create(u, _, _, _) => u.tenant in db.tenants ==> Modelled(db.tenants[u.tenant])
    case Sweep(today) => IsDate(today)
    case _ => true
  }

  function Perform(db: Db, env: Env, a: Action): Outcome
    requires InModel(db, a)
  {
    match a
    case Create(u, n, id, date) => CreateInvoice(db, env, u, n, id, date)
    case Update(u, id, c) => UpdateInvoice(db, env, u, id, c)
    case SetStatus(u, id, st, paidWith, now) => SetInvoiceStatus(db, u, id, st, paidWith, now)
    case Delete(u, id) => DeleteInvoice(db, u, id)
    case Send(u, id, pdf) => SendInvoice(db, u, id, pdf)
    case Sweep(today) => CheckOverdue(db, env, today)
    case Configure(u, t, s) => ConfigureTenant(db, u, t, s)
  }
}
