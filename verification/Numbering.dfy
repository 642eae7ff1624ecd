/**
 Invoice numbering: create_invoice as two transactions, interleaved over any number of sessions.
 The first locks the tenant row, increments its counter and commits; the second inserts the invoice
 under the uniqueness constraint.  A session may stop for good between any two steps.
 */
module Numbering {
  import opened Model
  import opened Storage
  import opened Decimals
  import NumberFormat

  type DateStamp = s: string | |s| == 8 witness "20260103"

  type Locks = map<TenantId, SessionId>

  // ---------- One session ----------

  datatype Phase =
    | Idle
    | Loaded(tenant: TenantId, row: Tenant)
    | Locked(tenant: TenantId, row: Tenant)      // row: what the locked SELECT returned
    | Holding(tenant: TenantId, number: string)  // counter committed, invoice not inserted yet
    | Created(id: InvoiceId)
    | Failed(code: nat)

  datatype SessionStep =
    | Load(id: TenantId)
    | Lock(current: bool)   // current: the SELECT returned the committed row, not the one loaded before
    | Issue(date: DateStamp)
    | Insert(invoice: Invoice)
    | Abort

  function PrefixOf(row: Tenant): string { if row.prefix == "" then "INV" else row.prefix }

  function FormatOf(row: Tenant): string {
    if row.format == "" then NumberFormat.DEFAULT_FORMAT else row.format
  }

  predicate Modelled(row: Tenant) { !NumberFormat.Parse(FormatOf(row)).Undocumented? }

  /** The number rendered from a tenant row; None when validating its format raises. */
  function NumberFor(row: Tenant, date: DateStamp): Option<string>
    requires Modelled(row)
  {
    var format := FormatOf(row);
    if NumberFormat.Validate(format) == NumberFormat.Raised then None
    else Some(NumberFormat.Render(NumberFormat.Effective(format), PrefixOf(row), date, row.sequence + 1))
  }

  predicate IdTaken(invoices: seq<Invoice>, id: InvoiceId) {
    exists i :: 0 <= i < |invoices| && invoices[i].id == id
  }

  datatype Local = Local(db: Db, locks: Locks, phase: Phase)

  /** May this session take this step now?  A locked row makes the next locker wait. */
  predicate Enabled(s: Local, sid: SessionId, step: SessionStep) {
    match step
    case Load(_) => s.phase.Idle?
    case Lock(_) => s.phase.Loaded? && s.phase.tenant !in s.locks
    case Issue(_) => s.phase.Locked? && Modelled(s.phase.row) && s.phase.tenant in s.db.tenants
    case Insert(_) => s.phase.Holding?
    case Abort => s.phase.Loaded? || s.phase.Locked? || s.phase.Holding?
  }

  function After(s: Local, sid: SessionId, step: SessionStep): Local
    requires Enabled(s, sid, step)
  {
    match step
    case Load(t) =>
      s.(phase := if t in s.db.tenants then Loaded(t, s.db.tenants[t]) else Failed(404))
    case Lock(current) =>
      var t := s.phase.tenant;
      if t !in s.db.tenants then s.(phase := Failed(404))
      else Local(s.db, s.locks[t := sid], Locked(t, if current then s.db.tenants[t] else s.phase.row))
    case Issue(date) =>
      var t, row := s.phase.tenant, s.phase.row;
      var number := NumberFor(row, date);
      if number.None? then Local(s.db, s.locks - {t}, Failed(500))
      else
        var tenants := s.db.tenants[t := s.db.tenants[t].(sequence := row.sequence + 1)];
        Local(s.db.(tenants := tenants), s.locks - {t}, Holding(t, number.value))
    case Insert(invoice) =>
      var t, n := s.phase.tenant, s.phase.number;
      if NumberTaken(s.db.invoices, t, n) || IdTaken(s.db.invoices, invoice.id) then s.(phase := Failed(400))
      else if !FitsColumns(invoice) then s.(phase := Failed(500))
      else
        var row := invoice.(tenant := t, number := n);
        Local(s.db.(invoices := s.db.invoices + [row]), s.locks, Created(invoice.id))
    case Abort =>
      Local(s.db, if s.phase.Locked? then s.locks - {s.phase.tenant} else s.locks, Failed(499))
  }

  /** One create_invoice request and its database session. */
  class CreateSession {
    const sid: SessionId
    const database: Database
    var phase: Phase

    constructor (database: Database, sid: SessionId)
      ensures this.database == database && this.sid == sid && phase == Idle
    {
      this.database, this.sid, phase := database, sid, Idle;
    }

    function View(): Local
      reads this, database
    {
      Local(database.View(), database.locks, phase)
    }

    /** The plain SELECT at the start of create_invoice. */
    method LoadTenant(tenant: TenantId)
      requires Enabled(View(), sid, Load(tenant))
      modifies this
      ensures View() == After(old(View()), sid, Load(tenant))
    {
      if tenant in database.tenants {
        phase := Loaded(tenant, database.tenants[tenant]);
      } else {
        phase := Failed(404);
      }
    }

    /** generate_invoice_number up to and including the SELECT ... FOR UPDATE. */
    method LockTenant(current: bool)
      requires Enabled(View(), sid, Lock(current))
      modifies this, database`locks
      ensures View() == After(old(View()), sid, Lock(current))
    {
      var t := phase.tenant;
      if t !in database.tenants {
        phase := Failed(404);
        return;
      }
      database.locks := database.locks[t := sid];
      phase := Locked(t, if current then database.tenants[t] else phase.row);
    }

    /** The rest of generate_invoice_number: validate, increment, render, commit. */
    method IssueNumber(date: DateStamp)
      requires Enabled(View(), sid, Issue(date))
      modifies this, database`locks, database`tenants
      ensures View() == After(old(View()), sid, Issue(date))
    {
      hide NumberFormat.Validate, NumberFormat.Parse, NumberFormat.Render, NumberFormat.Effective, FormatOf;
      var t, row := phase.tenant, phase.row;
      var format := FormatOf(row);
      var verdict := NumberFormat.Validate(format);
      if verdict == NumberFormat.Raised {
        database.locks := database.locks - {t};
        phase := Failed(500);
        return;
      }
      var segments := NumberFormat.Effective(format);
      var next := row.sequence + 1;
      var number := NumberFormat.Render(segments, PrefixOf(row), date, next);
      database.tenants := database.tenants[t := database.tenants[t].(sequence := next)];
      database.locks := database.locks - {t};
      phase := Holding(t, number);
    }

    /** The second transaction: INSERT, or 400 for a taken key, or 500 for a value too large for its column. */
    method InsertInvoice(invoice: Invoice)
      requires Enabled(View(), sid, Insert(invoice))
      modifies this, database`invoices
      ensures View() == After(old(View()), sid, Insert(invoice))
    {
      var t, number := phase.tenant, phase.number;
      if NumberTaken(database.invoices, t, number) || IdTaken(database.invoices, invoice.id) {
        phase := Failed(400);
      } else if !FitsColumns(invoice) {
        phase := Failed(500);
      } else {
        database.invoices := database.invoices + [invoice.(tenant := t, number := number)];
        phase := Created(invoice.id);
      }
    }

    method AbortSession()
      requires Enabled(View(), sid, Abort)
      modifies this, database`locks
      ensures View() == After(old(View()), sid, Abort)
    {
      if phase.Locked? {
        database.locks := database.locks - {phase.tenant};
      }
      phase := Failed(499);
    }
  }

  // ---------- What an issued number says ----------

  /**
   A number issued is cut by the tenant's template, or by the fallback one if the tenant's is rejected, into
   the tenant's prefix (INV if it has none), the date, the literal characters and the counter just committed.
   */
  lemma IssuedNumberReads(s: Local, sid: SessionId, date: DateStamp)
    requires Enabled(s, sid, Issue(date)) && After(s, sid, Issue(date)).phase.Holding?
    ensures var t, row, s' := s.phase.tenant, s.phase.row, After(s, sid, Issue(date));
            var format := if row.format == "" then NumberFormat.DEFAULT_FORMAT else row.format;
            var prefix := if row.prefix == "" then "INV" else row.prefix;
            && s'.phase.tenant == t && t in s'.db.tenants && s'.db.tenants[t].sequence == row.sequence + 1
            && NumberFormat.Validate(format) != NumberFormat.Raised
            && var segments := if NumberFormat.Validate(format) == NumberFormat.Accepted
                               then NumberFormat.Parse(format).segments else NumberFormat.DEFAULT_SEGMENTS;
               exists cuts ::
                 NumberFormat.IsCut(cuts, segments, s'.phase.number, prefix, date, s'.db.tenants[t].sequence)
  {
    var row := s.phase.row;
    hide NumberFormat.Validate, NumberFormat.Render, NumberFormat.IsCut, NumberFormat.Parse;
    NumberFormat.RenderReads(NumberFormat.Effective(FormatOf(row)), PrefixOf(row), date, row.sequence + 1);
  }

  /** text is prefix-date-number, the number in at least four digits. */
  predicate ReadsDefault(text: string, prefix: string, date: string, number: nat) {
    && |text| >= |prefix| + |date| + 6
    && text[..|prefix|] == prefix && text[|prefix|] == '-'
    && text[|prefix| + 1..|prefix| + |date| + 1] == date && text[|prefix| + |date| + 1] == '-'
    && Numeral(text[|prefix| + |date| + 2..], 4, number)
  }

  /** With no format, the default or a rejected one, a number is always issued, and reads PREFIX-YYYYMMDD-NNNN. */
  lemma DefaultNumberReads(s: Local, sid: SessionId, date: DateStamp)
    requires Enabled(s, sid, Issue(date))
    requires s.phase.row.format == "" || s.phase.row.format == NumberFormat.DEFAULT_FORMAT
             || NumberFormat.Validate(s.phase.row.format) == NumberFormat.Rejected
    ensures var t, row, s' := s.phase.tenant, s.phase.row, After(s, sid, Issue(date));
            var prefix := if row.prefix == "" then "INV" else row.prefix;
            && s'.phase.Holding? && s'.phase.tenant == t && t in s'.db.tenants
            && ReadsDefault(s'.phase.number, prefix, date, s'.db.tenants[t].sequence)
  {
    var row := s.phase.row;
    EffectiveSettings(row);
    hide PrefixOf, FormatOf, NumberFor, Modelled, ReadsDefault, ZeroPadded, After, NumberFormat.Validate,
      NumberFormat.DEFAULT_FORMAT;
    DefaultNumber(row, date);
    IssueHolds(s, sid, date);
    ReadsFromParts(PrefixOf(row), date, row.sequence + 1);
  }

  lemma EffectiveSettings(row: Tenant)
    ensures PrefixOf(row) == if row.prefix == "" then "INV" else row.prefix
    ensures FormatOf(row) == if row.format == "" then NumberFormat.DEFAULT_FORMAT else row.format
  {
  }

  lemma IssueHolds(s: Local, sid: SessionId, date: DateStamp)
    requires Enabled(s, sid, Issue(date)) && NumberFor(s.phase.row, date).Some?
    ensures var t, s' := s.phase.tenant, After(s, sid, Issue(date));
            && s'.phase == Holding(t, NumberFor(s.phase.row, date).value)
            && t in s'.db.tenants && s'.db.tenants[t].sequence == s.phase.row.sequence + 1
  {
    hide NumberFor, Modelled;
  }

  lemma DefaultNumber(row: Tenant, date: DateStamp)
    requires FormatOf(row) == NumberFormat.DEFAULT_FORMAT
             || (Modelled(row) && NumberFormat.Validate(FormatOf(row)) == NumberFormat.Rejected)
    ensures Modelled(row)
    ensures NumberFor(row, date) ==
            Some(PrefixOf(row) + ("-" + (date + ("-" + ZeroPadded(row.sequence + 1, 4)))))
  {
    hide *;
    ModelledMeans(row);
    NumberFormat.FallsBack(FormatOf(row));
    NumberForRenders(row, date);
    NumberFormat.DefaultRendered(PrefixOf(row), date, row.sequence + 1);
  }

  lemma ModelledMeans(row: Tenant)
    ensures Modelled(row) <==> !NumberFormat.Parse(FormatOf(row)).Undocumented?
  {
  }

  lemma NumberForRenders(row: Tenant, date: DateStamp)
    requires Modelled(row) && NumberFormat.Validate(FormatOf(row)) != NumberFormat.Raised
    ensures var segments := NumberFormat.Effective(FormatOf(row));
            NumberFor(row, date) == Some(NumberFormat.Render(segments, PrefixOf(row), date, row.sequence + 1))
  {
    hide NumberFormat.Validate, NumberFormat.Render, NumberFormat.Parse, NumberFormat.Effective, FormatOf;
  }

  lemma ReadsFromParts(prefix: string, date: string, n: nat)
    ensures ReadsDefault(prefix + ("-" + (date + ("-" + ZeroPadded(n, 4)))), prefix, date, n)
  {
    ZeroPaddedIsNumeral(n, 4);
    hide Numeral, ZeroPadded;
    var digits := ZeroPadded(n, 4);
    var text := prefix + ("-" + (date + ("-" + digits)));
    assert text[..|prefix|] == prefix;
    assert text[|prefix| + 1..|prefix| + |date| + 1] == date;
    assert text[|prefix| + |date| + 2..] == digits;
  }

  // ---------- Many sessions ----------

  /** issued: every number ever rendered for a tenant, in order. */
  datatype World = World(
    db: Db, locks: Locks, phases: map<SessionId, Phase>, issued: map<TenantId, seq<string>>)

  datatype Step =
    | Open(sid: SessionId)
    | Act(sid: SessionId, step: SessionStep)
    | Configure(tenant: TenantId, prefix: string, format: string)  // waits for the row lock
    | Edit(at: nat, invoice: Invoice)    // any other handler: a row keeps its key and its number
    | Drop(at: nat)                      // a draft is deleted

  function IssuedTo(w: World, t: TenantId): seq<string> {
    if t in w.issued then w.issued[t] else []
  }

  function Next(w: World, step: Step): World {
    match step
    case Open(sid) => if sid in w.phases then w else w.(phases := w.phases[sid := Idle])
    case Act(sid, s) =>
      if sid !in w.phases then w
      else
        var l := Local(w.db, w.locks, w.phases[sid]);
        if !Enabled(l, sid, s) then w
        else
          var l' := After(l, sid, s);
          var issued :=
            if s.Issue? && l'.phase.Holding? then
              w.issued[l'.phase.tenant := IssuedTo(w, l'.phase.tenant) + [l'.phase.number]]
            else w.issued;
          World(l'.db, l'.locks, w.phases[sid := l'.phase], issued)
    case Configure(t, prefix, format) =>
      if t !in w.db.tenants || t in w.locks then w
      else w.(db := w.db.(tenants := w.db.tenants[t := w.db.tenants[t].(prefix := prefix, format := format)]))
    case Edit(k, row) =>
      if k < |w.db.invoices| && row.id == w.db.invoices[k].id && row.tenant == w.db.invoices[k].tenant
         && row.number == w.db.invoices[k].number
      then w.(db := w.db.(invoices := w.db.invoices[k := row]))
      else w
    case Drop(k) =>
      if k < |w.db.invoices| then w.(db := w.db.(invoices := Remove(w.db.invoices, k))) else w
  }

  function Run(w: World, steps: seq<Step>): World
    decreases |steps|
  {
    if steps == [] then w else Run(Next(w, steps[0]), steps[1..])
  }

  // ---------- Uniqueness from the constraint: no assumption on what a locked read returns ----------

  ghost predicate UniqueKeys(invoices: seq<Invoice>) { UniqueNumbers(invoices) && UniqueIds(invoices) }

  lemma AppendKeepsUnique(invoices: seq<Invoice>, row: Invoice)
    requires UniqueKeys(invoices) && !NumberTaken(invoices, row.tenant, row.number) && !IdTaken(invoices, row.id)
    ensures UniqueKeys(invoices + [row])
  {
  }

  lemma EditKeepsUnique(invoices: seq<Invoice>, k: nat, row: Invoice)
    requires UniqueKeys(invoices) && k < |invoices|
    requires (row.id, row.tenant, row.number) == (invoices[k].id, invoices[k].tenant, invoices[k].number)
    ensures UniqueKeys(invoices[k := row])
  {
  }

  lemma DropKeepsUnique(invoices: seq<Invoice>, k: nat)
    requires UniqueKeys(invoices) && k < |invoices|
    ensures UniqueKeys(Remove(invoices, k))
  {
  }

  lemma ActKeepsUnique(s: Local, sid: SessionId, step: SessionStep)
    requires UniqueKeys(s.db.invoices) && Enabled(s, sid, step)
    ensures UniqueKeys(After(s, sid, step).db.invoices)
  {
    hide UniqueKeys, NumberTaken, IdTaken, NumberFor, Modelled, FitsColumns;
    if step.Insert? && After(s, sid, step).db.invoices != s.db.invoices {
      AppendKeepsUnique(s.db.invoices, step.invoice.(tenant := s.phase.tenant, number := s.phase.number));
    }
  }

  lemma NextKeepsUnique(w: World, step: Step)
    requires UniqueKeys(w.db.invoices)
    ensures UniqueKeys(Next(w, step).db.invoices)
  {
    hide UniqueKeys, After;
    match step {
      case Open(_) =>
      case Configure(_, _, _) =>
      case Act(sid, s) =>
        if sid in w.phases && Enabled(Local(w.db, w.locks, w.phases[sid]), sid, s) {
          ActKeepsUnique(Local(w.db, w.locks, w.phases[sid]), sid, s);
        }
      case Edit(k, row) =>
        if Next(w, step) != w { EditKeepsUnique(w.db.invoices, k, row); }
      case Drop(k) =>
        if Next(w, step) != w { DropKeepsUnique(w.db.invoices, k); }
    }
  }

  /** Whatever the interleaving, committed (tenant, number) pairs are unique. */
  lemma {:induction false} CommittedNumbersUnique(w: World, steps: seq<Step>)
    requires UniqueKeys(w.db.invoices)
    ensures UniqueKeys(Run(w, steps).db.invoices)
    decreases |steps|
  {
    hide UniqueKeys, Next;
    if steps == [] {
    } else {
      NextKeepsUnique(w, steps[0]);
      CommittedNumbersUnique(Next(w, steps[0]), steps[1..]);
    }
  }

  // ---------- No collision at all, if locked reads are current and the configuration is fixed ----------

  /** A locked SELECT of tenant t returns the committed row: it reads it, or the row loaded before is still current. */
  predicate ReadsCommitted(w: World, step: Step, t: TenantId) {
    step.Act? && step.step.Lock? && !step.step.current && step.sid in w.phases && t in w.db.tenants ==>
      w.phases[step.sid].Loaded? && w.phases[step.sid].tenant == t ==> w.phases[step.sid].row == w.db.tenants[t]
  }

  predicate Calm(w: World, step: Step, t: TenantId) {
    ReadsCommitted(w, step, t) && (step.Configure? ==> step.tenant != t)
  }

  predicate CalmRun(w: World, steps: seq<Step>, t: TenantId)
    decreases |steps|
  {
    steps == [] || (Calm(w, steps[0], t) && CalmRun(Next(w, steps[0]), steps[1..], t))
  }

  predicate SameConfig(a: Tenant, b: Tenant) { a.prefix == b.prefix && a.format == b.format }

  /** `number` is one of the first `upTo` numbers of this configuration, on some day. */
  ghost predicate Among(config: Tenant, upTo: nat, number: string)
    requires Modelled(config)
  {
    exists k: nat, date: DateStamp :: k < upTo && NumberFor(config.(sequence := k), date) == Some(number)
  }

  ghost predicate NoDuplicates<T>(s: seq<T>) {
    forall i, j :: 0 <= i < j < |s| ==> s[i] != s[j]
  }

  ghost predicate LockHeld(w: World, t: TenantId)
    requires t in w.db.tenants
  {
    && (forall sid :: sid in w.phases && w.phases[sid].Locked? && w.phases[sid].tenant == t ==>
          t in w.locks && w.locks[t] == sid && w.phases[sid].row == w.db.tenants[t])
  }

  /** Session `sid` has taken a number of tenant t and not used it yet. */
  predicate Holds(w: World, sid: SessionId, t: TenantId) {
    sid in w.phases && w.phases[sid].Holding? && w.phases[sid].tenant == t
  }

  ghost predicate DistinctlyHeld(w: World, t: TenantId) {
    forall a, b :: Holds(w, a, t) && Holds(w, b, t) && a != b ==> w.phases[a].number != w.phases[b].number
  }

  ghost predicate Held(w: World, t: TenantId) {
    && (forall a :: Holds(w, a, t) ==>
          w.phases[a].number in IssuedTo(w, t) && !NumberTaken(w.db.invoices, t, w.phases[a].number))
    && DistinctlyHeld(w, t)
  }

  /** What every calm step keeps, for tenant t whose counter stood at `base` before the first number. */
  ghost predicate Orderly(w: World, t: TenantId, config: Tenant, base: nat)
    requires Modelled(config)
  {
    && t in w.db.tenants && SameConfig(w.db.tenants[t], config)
    && LockHeld(w, t)
    && (forall n :: n in IssuedTo(w, t) ==> Among(config, w.db.tenants[t].sequence, n))
    && NoDuplicates(IssuedTo(w, t))
    && w.db.tenants[t].sequence == base + |IssuedTo(w, t)|
    && Held(w, t)
    && (forall i :: 0 <= i < |w.db.invoices| && w.db.invoices[i].tenant == t ==>
          w.db.invoices[i].number in IssuedTo(w, t))
  }

  lemma NumberInjective(a: Tenant, b: Tenant, d: DateStamp, e: DateStamp)
    requires SameConfig(a, b) && Modelled(a) && Modelled(b)
    requires NumberFor(a, d).Some? && NumberFor(a, d) == NumberFor(b, e)
    ensures a.sequence == b.sequence
  {
    var segments := NumberFormat.Effective(FormatOf(a));
    NumberFormat.RenderInjective(segments, PrefixOf(a), d, e, a.sequence + 1, b.sequence + 1);
  }

  /** The number rendered next was never issued before. */
  lemma NextNumberIsNew(w: World, t: TenantId, config: Tenant, base: nat, row: Tenant, date: DateStamp)
    requires Modelled(config) && Orderly(w, t, config, base) && row == w.db.tenants[t]
    requires NumberFor(row, date).Some?
    ensures NumberFor(row, date).value !in IssuedTo(w, t)
    ensures Among(config, row.sequence + 1, NumberFor(row, date).value)
  {
    var number := NumberFor(row, date).value;
    if number in IssuedTo(w, t) {
      var k: nat, d: DateStamp :| k < row.sequence && NumberFor(config.(sequence := k), d) == Some(number);
      NumberInjective(config.(sequence := k), row, d, date);
    }
    assert NumberFor(config.(sequence := row.sequence), date) == Some(number);
  }

  lemma AmongGrows(config: Tenant, m: nat, n: nat, number: string)
    requires Modelled(config) && m <= n && Among(config, m, number)
    ensures Among(config, n, number)
  {
    var k: nat, d: DateStamp :| k < m && NumberFor(config.(sequence := k), d) == Some(number);
  }

  /** One number more: it is among the first ones, new, and nobody else's. */
  lemma IssuedGrows(w: World, t: TenantId, config: Tenant, base: nat, row: Tenant, date: DateStamp)
    requires Modelled(config) && Orderly(w, t, config, base) && row == w.db.tenants[t]
    requires NumberFor(row, date).Some?
    ensures var number := NumberFor(row, date).value;
            && NoDuplicates(IssuedTo(w, t) + [number])
            && (forall n :: n in IssuedTo(w, t) + [number] ==> Among(config, row.sequence + 1, n))
            && !NumberTaken(w.db.invoices, t, number)
            && forall a :: Holds(w, a, t) ==> w.phases[a].number != number
  {
    hide NumberFor, Modelled;
    NextNumberIsNew(w, t, config, base, row, date);
    forall n | n in IssuedTo(w, t) ensures Among(config, row.sequence + 1, n) {
      AmongGrows(config, row.sequence, row.sequence + 1, n);
    }
  }

  /** A number is issued to t, or validating t's format raises. */
  lemma IssueToTenant(w: World, sid: SessionId, date: DateStamp, t: TenantId, config: Tenant, base: nat)
    requires Modelled(config) && Orderly(w, t, config, base)
    requires sid in w.phases && w.phases[sid].Locked? && w.phases[sid].tenant == t && Modelled(w.phases[sid].row)
    ensures Orderly(Next(w, Act(sid, Issue(date))), t, config, base)
  {
    hide NumberFor, Modelled, Among;
    var w' := Next(w, Act(sid, Issue(date)));
    var row := w.phases[sid].row;
    assert row == w.db.tenants[t];
    assert w'.db.invoices == w.db.invoices;
    assert forall a :: Holds(w', a, t) && a != sid ==> Holds(w, a, t) && w'.phases[a] == w.phases[a];
    if NumberFor(row, date).Some? {
      var number := NumberFor(row, date).value;
      IssuedGrows(w, t, config, base, row, date);
      hide NoDuplicates, NumberTaken;
      assert IssuedTo(w', t) == IssuedTo(w, t) + [number];
    } else {
      assert IssuedTo(w', t) == IssuedTo(w, t);
    }
  }

  lemma IssueElsewhere(w: World, sid: SessionId, date: DateStamp, t: TenantId, config: Tenant, base: nat)
    requires Modelled(config) && Orderly(w, t, config, base)
    requires sid in w.phases && w.phases[sid].Locked? && w.phases[sid].tenant != t && Modelled(w.phases[sid].row)
    ensures Orderly(Next(w, Act(sid, Issue(date))), t, config, base)
  {
    hide NumberFor, Modelled, Among, NoDuplicates, NumberTaken;
    var w' := Next(w, Act(sid, Issue(date)));
    assert IssuedTo(w', t) == IssuedTo(w, t) && w'.db.invoices == w.db.invoices;
    assert w'.db.tenants[t] == w.db.tenants[t];
    assert forall a :: Holds(w', a, t) ==> Holds(w, a, t) && w'.phases[a] == w.phases[a];
  }

  lemma InsertKeepsOrderly(w: World, sid: SessionId, invoice: Invoice, t: TenantId, config: Tenant, base: nat)
    requires Modelled(config) && Orderly(w, t, config, base)
    requires sid in w.phases && w.phases[sid].Holding?
    ensures Orderly(Next(w, Act(sid, Insert(invoice))), t, config, base)
  {
    hide NumberFor, Modelled, Among, FitsColumns, NoDuplicates;
    var w' := Next(w, Act(sid, Insert(invoice)));
    assert IssuedTo(w', t) == IssuedTo(w, t) && w'.db.tenants == w.db.tenants;
    assert forall a :: Holds(w', a, t) ==> Holds(w, a, t) && w'.phases[a] == w.phases[a];
  }

  lemma DropKeepsOrderly(w: World, k: nat, t: TenantId, config: Tenant, base: nat)
    requires Modelled(config) && Orderly(w, t, config, base)
    ensures Orderly(Next(w, Drop(k)), t, config, base)
  {
    hide NumberFor, Modelled, Among;
  }

  lemma EditKeepsOrderly(w: World, k: nat, row: Invoice, t: TenantId, config: Tenant, base: nat)
    requires Modelled(config) && Orderly(w, t, config, base)
    ensures Orderly(Next(w, Edit(k, row)), t, config, base)
  {
    hide NumberFor, Modelled, Among;
  }

  lemma LockingKeepsOrderly(w: World, sid: SessionId, s: SessionStep, t: TenantId, config: Tenant, base: nat)
    requires Modelled(config) && Orderly(w, t, config, base)
    requires s.Load? || s.Abort? || (s.Lock? && ReadsCommitted(w, Act(sid, s), t))
    ensures Orderly(Next(w, Act(sid, s)), t, config, base)
  {
    hide NumberFor, Modelled, Among, NoDuplicates, NumberTaken;
    var w' := Next(w, Act(sid, s));
    assert IssuedTo(w', t) == IssuedTo(w, t) && w'.db == w.db;
    assert forall a :: Holds(w', a, t) ==> Holds(w, a, t) && w'.phases[a] == w.phases[a];
  }

  lemma SettingsKeepOrderly(w: World, step: Step, t: TenantId, config: Tenant, base: nat)
    requires Modelled(config) && Orderly(w, t, config, base)
    requires step.Open? || (step.Configure? && step.tenant != t)
    ensures Orderly(Next(w, step), t, config, base)
  {
    hide NumberFor, Modelled, Among, NoDuplicates, NumberTaken;
    var w' := Next(w, step);
    assert IssuedTo(w', t) == IssuedTo(w, t) && w'.db.invoices == w.db.invoices;
    assert forall a :: Holds(w', a, t) ==> Holds(w, a, t) && w'.phases[a] == w.phases[a];
  }

  lemma NextKeepsOrderly(w: World, step: Step, t: TenantId, config: Tenant, base: nat)
    requires Modelled(config) && Orderly(w, t, config, base) && Calm(w, step, t)
    ensures Orderly(Next(w, step), t, config, base)
  {
    hide NumberFor, Modelled, Orderly, After;
    match step {
      case Open(_) => SettingsKeepOrderly(w, step, t, config, base);
      case Configure(_, _, _) => SettingsKeepOrderly(w, step, t, config, base);
      case Edit(k, row) => EditKeepsOrderly(w, k, row, t, config, base);
      case Drop(k) => DropKeepsOrderly(w, k, t, config, base);
      case Act(sid, s) =>
        if sid in w.phases && Enabled(Local(w.db, w.locks, w.phases[sid]), sid, s) {
          match s {
            case Issue(date) =>
              if w.phases[sid].tenant == t {
                IssueToTenant(w, sid, date, t, config, base);
              } else {
                IssueElsewhere(w, sid, date, t, config, base);
              }
            case Insert(invoice) => InsertKeepsOrderly(w, sid, invoice, t, config, base);
            case Load(_) => LockingKeepsOrderly(w, sid, s, t, config, base);
            case Lock(_) => LockingKeepsOrderly(w, sid, s, t, config, base);
            case Abort => LockingKeepsOrderly(w, sid, s, t, config, base);
          }
        }
    }
  }

  lemma {:induction false} RunKeepsOrderly(w: World, steps: seq<Step>, t: TenantId, config: Tenant, base: nat)
    requires Modelled(config) && Orderly(w, t, config, base)
    requires CalmRun(w, steps, t)
    ensures Orderly(Run(w, steps), t, config, base)
    decreases |steps|
  {
    hide Orderly, Next, Modelled, Calm;
    if steps == [] {
    } else {
      NextKeepsOrderly(w, steps[0], t, config, base);
      RunKeepsOrderly(Next(w, steps[0]), steps[1..], t, config, base);
    }
  }

  /** Before anybody creates an invoice for t. */
  ghost predicate Start(w: World, t: TenantId) {
    && t in w.db.tenants && Modelled(w.db.tenants[t])
    && t !in w.locks && t !in w.issued
    && (forall sid :: sid in w.phases ==> w.phases[sid] == Idle)
    && (forall i :: 0 <= i < |w.db.invoices| ==> w.db.invoices[i].tenant != t)
  }

  /**
   Locked reads that return the committed row, and an unchanged configuration: in every interleaving no
   number is issued twice,
   not even after its invoice is deleted; no two sessions hold the same number; the counter counts
   exactly the numbers issued; and the constraint rejects no insert.
   */
  lemma NumberingNeverCollides(w: World, steps: seq<Step>, t: TenantId)
    requires Start(w, t) && CalmRun(w, steps, t)
    ensures var w' := Run(w, steps);
            && t in w'.db.tenants
            && NoDuplicates(IssuedTo(w', t))
            && w'.db.tenants[t].sequence == w.db.tenants[t].sequence + |IssuedTo(w', t)|
            && DistinctlyHeld(w', t)
            && (forall sid, invoice: Invoice :: Holds(w', sid, t) && !IdTaken(w'.db.invoices, invoice.id) ==>
                  Next(w', Act(sid, Insert(invoice))).phases[sid] ==
                  if FitsColumns(invoice) then Created(invoice.id) else Failed(500))
  {
    var config, base := w.db.tenants[t], w.db.tenants[t].sequence;
    StartIsOrderly(w, t);
    hide Start, Orderly, Modelled, CalmRun, NoDuplicates, DistinctlyHeld, FitsColumns, Next, Run;
    RunKeepsOrderly(w, steps, t, config, base);
    var w' := Run(w, steps);
    OrderlyMeans(w', t, config, base);
    forall sid, invoice: Invoice | Holds(w', sid, t) && !IdTaken(w'.db.invoices, invoice.id)
      ensures Next(w', Act(sid, Insert(invoice))).phases[sid] ==
              if FitsColumns(invoice) then Created(invoice.id) else Failed(500)
    {
      OrderlyInserts(w', sid, t, invoice, config, base);
    }
  }

  lemma StartIsOrderly(w: World, t: TenantId)
    requires Start(w, t)
    ensures Modelled(w.db.tenants[t]) && Orderly(w, t, w.db.tenants[t], w.db.tenants[t].sequence)
  {
    hide Modelled;
  }

  lemma OrderlyMeans(w: World, t: TenantId, config: Tenant, base: nat)
    requires Modelled(config) && Orderly(w, t, config, base)
    ensures t in w.db.tenants && NoDuplicates(IssuedTo(w, t)) && DistinctlyHeld(w, t)
    ensures w.db.tenants[t].sequence == base + |IssuedTo(w, t)|
  {
    hide Modelled, Among, NoDuplicates, DistinctlyHeld, IssuedTo;
  }

  lemma OrderlyInserts(w: World, sid: SessionId, t: TenantId, invoice: Invoice, config: Tenant, base: nat)
    requires Modelled(config) && Orderly(w, t, config, base)
    requires Holds(w, sid, t) && !IdTaken(w.db.invoices, invoice.id)
    ensures var phases := Next(w, Act(sid, Insert(invoice))).phases;
            sid in phases && phases[sid] == if FitsColumns(invoice) then Created(invoice.id) else Failed(500)
  {
    hide Modelled, Among, NoDuplicates, DistinctlyHeld, FitsColumns, NumberTaken, IdTaken, IssuedTo, LockHeld;
  }

  // ---------- When a stale locked read is harmless ----------

  /** A step that neither issues a number of t, nor changes its settings, nor is one of session `sid`. */
  predicate LeavesTenant(w: World, step: Step, sid: SessionId, t: TenantId) {
    match step
    case Act(other, s) =>
      other != sid && (s.Issue? && other in w.phases && w.phases[other].Locked? ==> w.phases[other].tenant != t)
    case Configure(other, _, _) => other != t
    case _ => true
  }

  predicate LeaveTenant(w: World, steps: seq<Step>, sid: SessionId, t: TenantId)
    decreases |steps|
  {
    steps == [] || (LeavesTenant(w, steps[0], sid, t) && LeaveTenant(Next(w, steps[0]), steps[1..], sid, t))
  }

  lemma StepLeavesTenant(w: World, step: Step, sid: SessionId, t: TenantId)
    requires LeavesTenant(w, step, sid, t) && sid in w.phases && t in w.db.tenants
    ensures var w' := Next(w, step);
            && sid in w'.phases && w'.phases[sid] == w.phases[sid]
            && t in w'.db.tenants && w'.db.tenants[t] == w.db.tenants[t]
  {
    hide NumberFor, Modelled, NumberTaken, IdTaken, FitsColumns;
  }

  /**
   If nobody takes a number of t or changes its settings between the load of a session and its lock, the
   row it loaded is still the committed one: a stale locked read keeps the run calm.
   */
  lemma {:induction false} LoadedRowStays(w: World, steps: seq<Step>, sid: SessionId, t: TenantId)
    requires sid in w.phases && t in w.db.tenants && w.phases[sid] == Loaded(t, w.db.tenants[t])
    requires LeaveTenant(w, steps, sid, t)
    ensures ReadsCommitted(Run(w, steps), Act(sid, Lock(false)), t)
    ensures Next(Run(w, steps), Act(sid, Lock(false))) == Next(Run(w, steps), Act(sid, Lock(true)))
    decreases |steps|
  {
    if steps == [] {
    } else {
      StepLeavesTenant(w, steps[0], sid, t);
      hide Next, LeavesTenant;
      LoadedRowStays(Next(w, steps[0]), steps[1..], sid, t);
    }
  }

  // ---------- Without the assumption ----------

  /** Two sessions load the tenant before either of them takes a number. */
  function Race(t: TenantId, date: DateStamp): seq<Step> {
    [Open(0), Open(1), Act(0, Load(t)), Act(1, Load(t)),
     Act(0, Lock(false)), Act(0, Issue(date)), Act(1, Lock(false)), Act(1, Issue(date))]
  }

  function JustTenant(t: TenantId, row: Tenant): World {
    World(Db(map[t := row], []), map[], map[], map[])
  }

  lemma RaceBegins(t: TenantId, row: Tenant)
    ensures var w := Next(Next(JustTenant(t, row), Open(0)), Open(1));
            Next(Next(w, Act(0, Load(t))), Act(1, Load(t))) ==
            World(Db(map[t := row], []), map[], map[0 := Loaded(t, row), 1 := Loaded(t, row)], map[])
  {
    var w := Next(Next(JustTenant(t, row), Open(0)), Open(1));
    var w' := Next(w, Act(0, Load(t)));
    assert w'.phases == map[0 := Loaded(t, row), 1 := Idle];
  }

  /** One session locks on a stale row and issues; `before` is what the table held meanwhile. */
  lemma StaleIssue(w: World, sid: SessionId, t: TenantId, row: Tenant, before: Tenant, date: DateStamp)
    requires Modelled(row) && NumberFor(row, date).Some?
    requires sid in w.phases && w.phases[sid] == Loaded(t, row)
    requires w.db == Db(map[t := before], []) && w.locks == map[]
    ensures var number := NumberFor(row, date).value;
            Next(Next(w, Act(sid, Lock(false))), Act(sid, Issue(date))) ==
            World(Db(map[t := before.(sequence := row.sequence + 1)], []), map[],
                  w.phases[sid := Holding(t, number)], w.issued[t := IssuedTo(w, t) + [number]])
  {
    hide NumberFor, Modelled;
    var w' := Next(w, Act(sid, Lock(false)));
    assert w' == World(w.db, map[t := sid], w.phases[sid := Locked(t, row)], w.issued);
    assert map[t := sid] - {t} == map[];
    assert w'.phases[sid := Holding(t, NumberFor(row, date).value)] ==
           w.phases[sid := Holding(t, NumberFor(row, date).value)];
  }

  /**
   If the locked SELECT answers from the row loaded before it, overlapping sessions of any tenant
   render the same number, one increment is lost, and the constraint turns the second insert away.
   */
  lemma StaleReadsCollide(t: TenantId, row: Tenant, date: DateStamp, invoice: Invoice, other: Invoice)
    requires Modelled(row) && NumberFor(row, date).Some? && invoice.id != other.id && FitsColumns(invoice)
    ensures var w := Run(JustTenant(t, row), Race(t, date));
            var number := NumberFor(row, date).value;
            && w.phases == map[0 := Holding(t, number), 1 := Holding(t, number)]
            && w.db == Db(map[t := row.(sequence := row.sequence + 1)], [])
            && w.issued == map[t := [number, number]]
            && var w' := Next(Next(w, Act(0, Insert(invoice))), Act(1, Insert(other)));
               w'.phases == map[0 := Created(invoice.id), 1 := Failed(400)]
  {
    hide NumberFor, Modelled, Next, FitsColumns;
    var w0, steps, number := JustTenant(t, row), Race(t, date), NumberFor(row, date).value;
    RaceBegins(t, row);
    var w4 := World(Db(map[t := row], []), map[], map[0 := Loaded(t, row), 1 := Loaded(t, row)], map[]);
    StaleIssue(w4, 0, t, row, row, date);
    var next := row.(sequence := row.sequence + 1);
    var w6 := World(Db(map[t := next], []), map[],
                    w4.phases[0 := Holding(t, number)], w4.issued[t := [number]]);
    StaleIssue(w6, 1, t, row, next, date);
    var w8 := World(Db(map[t := next], []), map[],
                    w6.phases[1 := Holding(t, number)], w6.issued[t := [number, number]]);
    assert [] + [number] == [number] && [number] + [number] == [number, number];
    assert IssuedTo(w4, t) == [] && IssuedTo(w6, t) == [number];
    RunInPairs(w0, steps);
    assert Run(w0, steps) == w8;
    assert w8.phases == map[0 := Holding(t, number), 1 := Holding(t, number)];
    assert w8.issued == map[t := [number, number]];
    InsertsCollide(w8, t, number, invoice, other);
  }

  lemma InsertsCollide(w: World, t: TenantId, number: string, invoice: Invoice, other: Invoice)
    requires w.phases == map[0 := Holding(t, number), 1 := Holding(t, number)] && w.db.invoices == []
    requires invoice.id != other.id && FitsColumns(invoice)
    ensures Next(Next(w, Act(0, Insert(invoice))), Act(1, Insert(other))).phases
            == map[0 := Created(invoice.id), 1 := Failed(400)]
  {
    hide FitsColumns;
    var w' := Next(w, Act(0, Insert(invoice)));
    assert w'.db.invoices[0].number == number && w'.db.invoices[0].tenant == t;
  }

  lemma RunTwo(w: World, steps: seq<Step>)
    requires |steps| >= 2
    ensures Run(w, steps) == Run(Next(Next(w, steps[0]), steps[1]), steps[2..])
  {
    hide Next;
    assert steps[1..][1..] == steps[2..];
  }

  lemma RunInPairs(w: World, steps: seq<Step>)
    requires |steps| == 8
    ensures Run(w, steps) ==
            Next(Next(Next(Next(Next(Next(Next(Next(w, steps[0]), steps[1]), steps[2]), steps[3]),
                 steps[4]), steps[5]), steps[6]), steps[7])
  {
    hide Next;
    var w2 := Next(Next(w, steps[0]), steps[1]);
    var w4 := Next(Next(w2, steps[2]), steps[3]);
    var w6 := Next(Next(w4, steps[4]), steps[5]);
    RunTwo(w, steps);
    RunTwo(w2, steps[2..]);
    RunTwo(w4, steps[4..]);
    RunTwo(w6, steps[6..]);
    assert steps[2..][2..] == steps[4..] && steps[4..][2..] == steps[6..] && steps[6..][2..] == [];
  }
}
