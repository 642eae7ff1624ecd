/** The analytics endpoints over the cache: look up, else compute and store for 300 seconds. */
module Reports {
  import opened Model
  import opened Storage
  import opened Redis
  import opened Cache
  import opened Analytics

  function KindName(kind: Kind): string {
    match kind
    case InvoiceSummary => "invoice_summary_"
    case RevenueByStatus => "revenue_by_status_"
  }

  function ReportKey(t: TenantId, currency: string, kind: Kind): string {
    CacheKey(t, KindName(kind) + currency)
  }

  lemma ReportKeyInjective(t: TenantId, c: string, k: Kind, t': TenantId, c': string, k': Kind)
    requires ReportKey(t, c, k) == ReportKey(t', c', k')
    ensures t == t' && c == c' && k == k'
  {
    CacheKeyInjective(t, t', KindName(k) + c, KindName(k') + c');
    assert (KindName(k) + c)[0] == if k.InvoiceSummary? then 'i' else 'r';
    assert (KindName(k') + c')[0] == if k'.InvoiceSummary? then 'i' else 'r';
    assert c == (KindName(k) + c)[|KindName(k)|..] == (KindName(k') + c')[|KindName(k)|..] == c';
  }

  lemma ReportKeyInNamespace(t: TenantId, c: string, k: Kind)
    ensures InNamespace(t, ReportKey(t, c, k))
  {
    assert Namespace(t) == "tenant:" + (t + ":");
    assert ReportKey(t, c, k) == Namespace(t) + (KindName(k) + c);
  }

  datatype Reply = Served(report: Report) | Missing

  /** `if cached_result`: an empty list of groups counts as a miss. */
  predicate Truthy(r: Report) { r.RevenueReport? ==> r.rows != [] }

  /** What one request for a report may answer, and leave in the cache. */
  ghost predicate Serves(
    db: Db, before: Store, after: Store, now: real, t: TenantId, kind: Kind, reply: Reply, up: bool)
  {
    if t !in db.tenants then reply == Missing && after == before
    else
      var c := db.tenants[t].currency;
      var key := ReportKey(t, c, kind);
      var found := Lookup(before, key, now);
      var computed := Compute(db, t, c, kind);
      || (reply.Served? && found == Some(Json(reply.report)) && Truthy(reply.report) && after == before)
      || (&& reply == Served(computed)
          && (up ==> found.Some? && found.value.Json? ==> !Truthy(found.value.report))
          && (after == WithExpiry(before, key, EXPIRY, Json(computed), now) || (!up && after == before)))
  }

  /**
   With Redis up, a live report is served as it is and nothing is written, except that an empty list is
   computed again and stored anew; without one the computed report is served and stored.
   */
  lemma ServesFromCache(db: Db, before: Store, after: Store, now: real, t: TenantId, kind: Kind, reply: Reply)
    requires Serves(db, before, after, now, t, kind, reply, true) && t in db.tenants
    ensures var c := db.tenants[t].currency;
            var key, computed := ReportKey(t, c, kind), Compute(db, t, c, kind);
            var found := Lookup(before, key, now);
            var hit := found.Some? && found.value.Json? && found.value.report != RevenueReport([]);
            if hit then reply == Served(found.value.report) && after == before
            else reply == Served(computed) && after == WithExpiry(before, key, 300, Json(computed), now)
  {
    hide ReportKey, Compute;
  }

  class ReportService {
    const database: Database
    const redis: Connection

    constructor (database: Database, redis: Connection)
      ensures this.database == database && this.redis == redis
    {
      this.database, this.redis := database, redis;
    }

    method GetInvoiceSummary(t: TenantId) returns (reply: Reply)
      modifies redis`entries
      ensures Serves(database.View(), old(redis.entries), redis.entries, redis.now, t, InvoiceSummary, reply, redis.up)
    {
      if t !in database.tenants { return Missing; }
      var currency := database.tenants[t].currency;
      var key := ReportKey(t, currency, InvoiceSummary);
      var cached := GetCache(redis, key);
      if cached.Some? && Truthy(cached.value) { return Served(cached.value); }
      var mine := TenantRows(database.invoices, t);
      var summary := Summary(
        |mine|, Count(mine, Draft), Count(mine, Sent), Count(mine, Paid), Count(mine, Overdue),
        Amount(mine, Paid), Amount(mine, Sent), Amount(mine, Overdue), currency);
      var _ := SetCache(redis, key, SummaryReport(summary));
      reply := Served(SummaryReport(summary));
    }

    /** The response list, one entry for each group of the query. */
    method RevenueGroups(groups: seq<Group>, currency: string) returns (revenue: seq<StatusRevenue>)
      ensures revenue == Entries(groups, currency)
    {
      revenue := [];
      for i := 0 to |groups|
        invariant revenue == Entries(groups[..i], currency)
      {
        var g := groups[i];
        revenue := revenue + [StatusRevenue(g.status, g.count, g.amount, currency)];
      }
      assert groups[..|groups|] == groups;
    }

    method GetRevenueByStatus(t: TenantId) returns (reply: Reply)
      modifies redis`entries
      ensures Serves(database.View(), old(redis.entries), redis.entries, redis.now, t, RevenueByStatus, reply, redis.up)
    {
      if t !in database.tenants { return Missing; }
      var currency := database.tenants[t].currency;
      var key := ReportKey(t, currency, RevenueByStatus);
      var cached := GetCache(redis, key);
      if cached.Some? && Truthy(cached.value) { return Served(cached.value); }
      var groups := GroupBy(TenantRows(database.invoices, t));
      var revenue := RevenueGroups(groups, currency);
      var _ := SetCache(redis, key, RevenueReport(revenue));
      reply := Served(RevenueReport(revenue));
    }
  }
}
