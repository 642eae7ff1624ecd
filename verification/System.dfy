/**
 The whole back end as a state machine: handlers, report requests and the passing of time, over the
 database and the cache.  The claims are for handlers run one at a time.
 */
module System {
  import opened Model
  import opened Redis
  import opened Cache
  import opened Analytics
  import opened Lifecycle
  import opened Reports
  import Runs

  datatype Sys = Sys(db: Db, store: Store, now: real)

  datatype Event = Act(action: Action) | Read(tenant: TenantId, kind: Kind) | Tick

  /** Every touched tenant's keys are evicted, if nothing fails; nothing else is. */
  ghost predicate Purged(before: Store, after: Store, touched: set<TenantId>, now: real, up: bool) {
    && after.Keys <= before.Keys
    && (forall key :: key in after ==> after[key] == before[key])
    && (forall key :: key in before && (forall t :: t in touched ==> !InNamespace(t, key)) ==> key in after)
    && (up ==> forall t :: t in touched ==> Evicted(after, t, now))
  }

  ghost predicate Step(s: Sys, s': Sys, e: Event, reply: Reply, env: Env, up: bool) {
    match e
    case Act(a) =>
      && InModel(s.db, a) && s'.db == Perform(s.db, env, a).db && s'.now == s.now
      && Purged(s.store, s'.store, Perform(s.db, env, a).touched, s.now, up)
    case Read(t, kind) =>
      && s'.db == s.db && s'.now == s.now
      && Serves(s.db, s.store, s'.store, s.now, t, kind, reply, up)
    case Tick => s'.db == s.db && s'.store == s.store && s.now <= s'.now
  }

  // ---------- Redis up: the cache never lies ----------

  ghost predicate EntryCoherent(s: Sys, t: TenantId, c: string, kind: Kind) {
    var found := Lookup(s.store, ReportKey(t, c, kind), s.now);
    found.Some? ==> found.value == Json(Compute(s.db, t, c, kind))
  }

  /** Every live report entry, of any tenant under any currency, equals recomputation. */
  ghost predicate Coherent(s: Sys) {
    forall t: TenantId, c: string, kind: Kind :: EntryCoherent(s, t, c, kind)
  }

  lemma ActKeepsEntry(s: Sys, s': Sys, a: Action, reply: Reply, env: Env, t: TenantId, c: string, kind: Kind)
    requires Step(s, s', Act(a), reply, env, true) && EntryCoherent(s, t, c, kind)
    ensures EntryCoherent(s', t, c, kind)
  {
    hide Perform, ReportKey, TenantRows, GroupBy, Entries, SummaryOf;
    var key := ReportKey(t, c, kind);
    ReportKeyInNamespace(t, c, kind);
    if t !in Perform(s.db, env, a).touched {
      Runs.UntouchedTenant(s.db, env, a, t);
    }
  }

  lemma ReadKeepsEntry(
    s: Sys, s': Sys, reader: TenantId, k: Kind, reply: Reply, env: Env, up: bool, t: TenantId, c: string, kind: Kind)
    requires Step(s, s', Read(reader, k), reply, env, up) && EntryCoherent(s, t, c, kind)
    ensures EntryCoherent(s', t, c, kind)
  {
    hide ReportKey, Compute, TenantRows;
    if reader in s.db.tenants && ReportKey(reader, s.db.tenants[reader].currency, k) == ReportKey(t, c, kind) {
      ReportKeyInjective(reader, s.db.tenants[reader].currency, k, t, c, kind);
    }
  }

  lemma StepKeepsCoherent(s: Sys, s': Sys, e: Event, reply: Reply, env: Env)
    requires Coherent(s) && Step(s, s', e, reply, env, true)
    ensures Coherent(s')
  {
    hide Step, EntryCoherent;
    forall t: TenantId, c: string, kind: Kind ensures EntryCoherent(s', t, c, kind) {
      assert EntryCoherent(s, t, c, kind);
      match e
      case Act(a) => ActKeepsEntry(s, s', a, reply, env, t, c, kind);
      case Read(reader, k) => ReadKeepsEntry(s, s', reader, k, reply, env, true, t, c, kind);
      case Tick => TickKeepsEntry(s, s', reply, env, t, c, kind);
    }
  }

  lemma TickKeepsEntry(s: Sys, s': Sys, reply: Reply, env: Env, t: TenantId, c: string, kind: Kind)
    requires Step(s, s', Tick, reply, env, true) && EntryCoherent(s, t, c, kind)
    ensures EntryCoherent(s', t, c, kind)
  {
    hide ReportKey, Compute;
  }

  /** A run, state by state; ups[i] says whether Redis is known to be up in step i. */
  ghost predicate IsRun(states: seq<Sys>, events: seq<Event>, replies: seq<Reply>, ups: seq<bool>, env: Env) {
    && |states| == |events| + 1 && |replies| == |events| == |ups|
    && forall i :: 0 <= i < |events| ==> Step(states[i], states[i + 1], events[i], replies[i], env, ups[i])
  }

  lemma {:induction false} RunCoherent(
    states: seq<Sys>, events: seq<Event>, replies: seq<Reply>, ups: seq<bool>, env: Env, i: nat)
    requires IsRun(states, events, replies, ups, env) && (forall j :: 0 <= j < |ups| ==> ups[j])
    requires Coherent(states[0]) && i <= |events|
    ensures Coherent(states[i])
  {
    hide Coherent, Step;
    if i == 0 {
    } else {
      RunCoherent(states, events, replies, ups, env, i - 1);
      assert Step(states[i - 1], states[i - 1 + 1], events[i - 1], replies[i - 1], env, ups[i - 1]);
      StepKeepsCoherent(states[i - 1], states[i], events[i - 1], replies[i - 1], env);
    }
  }

  /**
   Redis up, handlers one at a time: from an empty cache, along every run of creates, updates, status
   changes, sends, deletes, sweeps and settings changes, what a report request serves is what
   recomputing it from the current invoices gives.
   */
  lemma ServedIsCurrent(
    states: seq<Sys>, events: seq<Event>, replies: seq<Reply>, ups: seq<bool>, env: Env, i: nat)
    requires IsRun(states, events, replies, ups, env) && (forall j :: 0 <= j < |ups| ==> ups[j])
    requires states[0].store == map[] && i < |events| && events[i].Read? && replies[i].Served?
    ensures Coherent(states[i])
    ensures var db, t := states[i].db, events[i].tenant;
            t in db.tenants && replies[i].report == Compute(db, t, db.tenants[t].currency, events[i].kind)
  {
    assert Coherent(states[0]);
    RunCoherent(states, events, replies, ups, env, i);
    var s, t := states[i], events[i].tenant;
    assert Step(s, states[i + 1], events[i], replies[i], env, ups[i]);
    hide Compute, ReportKey;
    assert EntryCoherent(s, t, s.db.tenants[t].currency, events[i].kind);
  }

  // ---------- Redis failing at any point: stale for less than 300 seconds ----------

  /** The entry was computed from one of the states so far, and expires 300 seconds after it. */
  ghost predicate EntryFrom(states: seq<Sys>, k: nat, entry: Entry, t: TenantId, c: string, kind: Kind)
    requires k < |states|
  {
    entry == Entry(Json(Compute(states[k].db, t, c, kind)), Some(states[k].now + EXPIRY as real))
  }

  ghost predicate EntriesFrom(states: seq<Sys>, i: nat)
    requires i < |states|
  {
    forall t: TenantId, c: string, kind: Kind :: ReportKey(t, c, kind) in states[i].store ==>
      exists k: nat :: k <= i && EntryFrom(states, k, states[i].store[ReportKey(t, c, kind)], t, c, kind)
  }

  /** A step keeps each report entry, drops it, or writes it from the state it started in. */
  lemma StepEntry(s: Sys, s': Sys, e: Event, reply: Reply, env: Env, up: bool, t: TenantId, c: string, kind: Kind)
    requires Step(s, s', e, reply, env, up) && ReportKey(t, c, kind) in s'.store
    ensures var key := ReportKey(t, c, kind);
            || (key in s.store && s'.store[key] == s.store[key])
            || s'.store[key] == Entry(Json(Compute(s.db, t, c, kind)), Some(s.now + EXPIRY as real))
  {
    hide ReportKey, Compute, Perform;
    if e.Read? && e.tenant in s.db.tenants {
      var currency := s.db.tenants[e.tenant].currency;
      if ReportKey(e.tenant, currency, e.kind) == ReportKey(t, c, kind) {
        ReportKeyInjective(e.tenant, currency, e.kind, t, c, kind);
      }
    }
  }

  lemma {:induction false} RunEntriesFrom(
    states: seq<Sys>, events: seq<Event>, replies: seq<Reply>, ups: seq<bool>, env: Env, i: nat)
    requires IsRun(states, events, replies, ups, env) && states[0].store == map[] && i <= |events|
    ensures EntriesFrom(states, i)
  {
    hide Step, ReportKey, Compute;
    if i == 0 {
    } else {
      RunEntriesFrom(states, events, replies, ups, env, i - 1);
      assert Step(states[i - 1], states[i - 1 + 1], events[i - 1], replies[i - 1], env, ups[i - 1]);
      forall t: TenantId, c: string, kind: Kind | ReportKey(t, c, kind) in states[i].store
        ensures exists k: nat :: k <= i && EntryFrom(states, k, states[i].store[ReportKey(t, c, kind)], t, c, kind)
      {
        StepEntry(states[i - 1], states[i], events[i - 1], replies[i - 1], env, ups[i - 1], t, c, kind);
        var key := ReportKey(t, c, kind);
        if key in states[i - 1].store && states[i].store[key] == states[i - 1].store[key] {
          var k: nat :| k <= i - 1 && EntryFrom(states, k, states[i - 1].store[key], t, c, kind);
          assert EntryFrom(states, k, states[i].store[key], t, c, kind);
        } else {
          assert EntryFrom(states, i - 1, states[i].store[key], t, c, kind);
        }
      }
    }
  }

  /**
   Any Redis call may fail at any point, invalidations included: what a report request serves is still
   what recomputing it would have given in some state of the last 300 seconds.
   */
  lemma ServedIsRecent(
    states: seq<Sys>, events: seq<Event>, replies: seq<Reply>, ups: seq<bool>, env: Env, i: nat)
    requires IsRun(states, events, replies, ups, env) && states[0].store == map[]
    requires i < |events| && events[i].Read? && replies[i].Served?
    ensures var t := events[i].tenant;
            && t in states[i].db.tenants
            && exists k: nat :: k <= i && states[i].now - 300.0 < states[k].now
                 && replies[i].report == Compute(states[k].db, t, states[i].db.tenants[t].currency, events[i].kind)
  {
    RunEntriesFrom(states, events, replies, ups, env, i);
    var s, t, kind := states[i], events[i].tenant, events[i].kind;
    assert Step(s, states[i + 1], events[i], replies[i], env, ups[i]);
    hide Compute, ReportKey;
    var c := s.db.tenants[t].currency;
    var key := ReportKey(t, c, kind);
    if Lookup(s.store, key, s.now) == Some(Json(replies[i].report)) {
      var k: nat :| k <= i && EntryFrom(states, k, s.store[key], t, c, kind);
    } else {
      assert replies[i].report == Compute(states[i].db, t, c, kind);
    }
  }

  // ---------- Tenant isolation ----------

  predicate EventBy(e: Event, t: TenantId) {
    match e
    case Act(a) => Runs.By(a, t)
    case Read(reader, _) => reader == t
    case Tick => true
  }

  ghost predicate SameKeys(before: Store, after: Store, other: TenantId) {
    forall key :: InNamespace(other, key) ==>
      (key in after <==> key in before) && (key in before ==> after[key] == before[key])
  }

  lemma StepIsolated(s: Sys, s': Sys, e: Event, reply: Reply, env: Env, up: bool, t: TenantId, other: TenantId)
    requires Step(s, s', e, reply, env, up) && EventBy(e, t) && other != t
    ensures SameKeys(s.store, s'.store, other)
    ensures TenantRows(s'.db.invoices, other) == TenantRows(s.db.invoices, other)
    ensures other in s'.db.tenants <==> other in s.db.tenants
    ensures other in s.db.tenants ==> s'.db.tenants[other] == s.db.tenants[other]
  {
    hide Perform, Compute, ReportKey, InNamespace, TenantRows;
    forall key | InNamespace(other, key) ensures !InNamespace(t, key) {
      if InNamespace(t, key) { NamespacesDisjoint(t, other, key); }
    }
    match e {
      case Act(a) =>
        Runs.TouchesOwnTenant(s.db, env, a, t);
        Runs.UntouchedTenant(s.db, env, a, other);
        Runs.SameOutside(s.db.tenants, s'.db.tenants, t, other);
      case Read(_, kind) =>
        if t in s.db.tenants { ReportKeyInNamespace(t, s.db.tenants[t].currency, kind); }
      case Tick =>
    }
  }

  /** Whatever the users of one tenant do, the rows, the counter, the settings and the cache of others stay. */
  lemma {:induction false} SystemIsolation(
    states: seq<Sys>, events: seq<Event>, replies: seq<Reply>, ups: seq<bool>, env: Env,
    t: TenantId, other: TenantId, i: nat)
    requires IsRun(states, events, replies, ups, env) && i <= |events|
    requires other != t && forall j :: 0 <= j < |events| ==> EventBy(events[j], t)
    ensures SameKeys(states[0].store, states[i].store, other)
    ensures TenantRows(states[i].db.invoices, other) == TenantRows(states[0].db.invoices, other)
    ensures other in states[i].db.tenants <==> other in states[0].db.tenants
    ensures other in states[0].db.tenants ==> states[i].db.tenants[other] == states[0].db.tenants[other]
  {
    hide Step, TenantRows, InNamespace;
    if i == 0 {
    } else {
      SystemIsolation(states, events, replies, ups, env, t, other, i - 1);
      assert Step(states[i - 1], states[i - 1 + 1], events[i - 1], replies[i - 1], env, ups[i - 1]);
      StepIsolated(states[i - 1], states[i], events[i - 1], replies[i - 1], env, ups[i - 1], t, other);
    }
  }
}
