/** The tenant cache: keys, JSON values with an expiry, and tenant-wide invalidation. */
module Cache {
  import opened Model
  import opened Redis

  const EXPIRY := 300

  function CacheKey(tenant: TenantId, key: string): string {
    "tenant:" + (tenant + (":" + key))
  }

  /** The part every key of a tenant begins with. */
  function Namespace(tenant: TenantId): string { CacheKey(tenant, "") }

  predicate InNamespace(tenant: TenantId, key: string) { Namespace(tenant) <= key }

  // ---------- Key space ----------

  function UntilColon(s: string): nat {
    if s == "" || s[0] == ':' then 0 else 1 + UntilColon(s[1..])
  }

  lemma {:induction false} TenantEndsAtColon(a: TenantId, x: string)
    ensures UntilColon(a + (":" + x)) == |a|
  {
    if a == "" {
    } else {
      assert UuidChar(a[0]);
      assert forall c :: c in a[1..] ==> c in a;
      assert (a + (":" + x))[1..] == a[1..] + (":" + x);
      TenantEndsAtColon(a[1..], x);
    }
  }

  lemma SplitUnique(a: TenantId, b: TenantId, x: string, y: string)
    requires a + (":" + x) == b + (":" + y)
    ensures a == b && x == y
  {
    TenantEndsAtColon(a, x);
    TenantEndsAtColon(b, y);
    var s, t := a + (":" + x), b + (":" + y);
    assert a == s[..|a|] == t[..|b|] == b;
    assert x == s[|a| + 1..] == t[|b| + 1..] == y;
  }

  /** No two tenants, and no two names within a tenant, share a cache key. */
  lemma CacheKeyInjective(a: TenantId, b: TenantId, x: string, y: string)
    requires CacheKey(a, x) == CacheKey(b, y)
    ensures a == b && x == y
  {
    assert CacheKey(a, x)[7..] == a + (":" + x);
    assert CacheKey(b, y)[7..] == b + (":" + y);
    SplitUnique(a, b, x, y);
  }

  /** A key in a tenant's namespace is a cache key of that tenant and of no other. */
  lemma NamespacesDisjoint(a: TenantId, b: TenantId, key: string)
    requires InNamespace(a, key) && InNamespace(b, key)
    ensures a == b
  {
    var x, y := key[|Namespace(a)|..], key[|Namespace(b)|..];
    assert Namespace(a) == "tenant:" + (a + ":") && key == Namespace(a) + x == CacheKey(a, x);
    assert Namespace(b) == "tenant:" + (b + ":") && key == Namespace(b) + y == CacheKey(b, y);
    CacheKeyInjective(a, b, x, y);
  }

  predicate PlainPattern(s: string) {
    forall c :: c in s ==> c != '*' && c != '?' && c != '\\' && c != '['
  }

  lemma {:induction false} StarMatchesAnything(s: string)
    ensures Glob("*", s)
  {
    assert "*"[1..] == "";
    if s == "" {
    } else {
      StarMatchesAnything(s[1..]);
    }
  }

  lemma {:induction false} PlainThenStar(text: string, s: string)
    requires PlainPattern(text)
    ensures Glob(text + "*", s) <==> text <= s
  {
    var pattern := text + "*";
    if text == "" {
      assert pattern == "*";
      StarMatchesAnything(s);
    } else {
      assert pattern[1..] == text[1..] + "*";
      assert forall c :: c in text[1..] ==> c in text;
      assert text[0] in text;
      if s != "" { PlainThenStar(text[1..], s[1..]); }
    }
  }

  lemma PatternIsPlain(tenant: TenantId)
    ensures PlainPattern(Namespace(tenant)) && CacheKey(tenant, "*") == Namespace(tenant) + "*"
  {
    assert forall c :: c in tenant ==> UuidChar(c);
    assert Namespace(tenant) == "tenant:" + (tenant + ":");
  }

  /** The invalidation pattern of a tenant matches exactly the keys in its namespace. */
  lemma InvalidationMatchesNamespace(tenant: TenantId, key: string)
    ensures '[' !in CacheKey(tenant, "*")
    ensures Glob(CacheKey(tenant, "*"), key) <==> InNamespace(tenant, key)
  {
    PatternIsPlain(tenant);
    PlainThenStar(Namespace(tenant), key);
  }

  // ---------- Operations ----------

  /** Keys outside the namespace keep their entries; those inside keep theirs or lose it. */
  ghost predicate OnlyEvicts(before: Store, after: Store, tenant: TenantId) {
    && after.Keys <= before.Keys
    && (forall key :: key in after ==> after[key] == before[key])
    && (forall key :: key in before && !InNamespace(tenant, key) ==> key in after)
  }

  ghost predicate Evicted(store: Store, tenant: TenantId, now: real) {
    forall key :: key in store && InNamespace(tenant, key) ==> !Live(store, key, now)
  }

  method SetCache(redis: Connection, key: string, report: Report) returns (ok: bool)
    modifies redis`entries
    ensures redis.up ==> ok
    ensures var written := WithExpiry(old(redis.entries), key, EXPIRY, Json(report), redis.now);
            && (ok ==> redis.entries == written)
            && (redis.entries == old(redis.entries) || redis.entries == written)
  {
    ok := redis.SetEx(key, EXPIRY, Json(report));
  }

  /** Nothing but documents is kept under cache keys; a missing or unreadable value is a miss. */
  method GetCache(redis: Connection, key: string) returns (report: Option<Report>)
    ensures report.Some? ==> Lookup(redis.entries, key, redis.now) == Some(Json(report.value))
    ensures redis.up && report.None? ==>
              var value := Lookup(redis.entries, key, redis.now); value.None? || !value.value.Json?
  {
    var ok, value := redis.Get(key);
    if !ok || value.None? { return None; }
    match value.value
    case Json(r) => return Some(r);
    case _ => return None;
  }

  /** invalidate_tenant_cache(tenant, "*"): scan, and delete key by key until something fails. */
  method InvalidateTenantCache(redis: Connection, tenant: TenantId) returns (ok: bool)
    modifies redis`entries
    ensures redis.up ==> ok
    ensures OnlyEvicts(old(redis.entries), redis.entries, tenant)
    ensures ok ==> Evicted(redis.entries, tenant, redis.now)
  {
    forall key ensures '[' !in CacheKey(tenant, "*")
               ensures Glob(CacheKey(tenant, "*"), key) <==> InNamespace(tenant, key) {
      InvalidationMatchesNamespace(tenant, key);
    }
    assert '[' !in CacheKey(tenant, "*") by { InvalidationMatchesNamespace(tenant, ""); }
    var found, keys := redis.Scan(CacheKey(tenant, "*"));
    if !found { return false; }
    ok := true;
    var todo := keys;
    while todo != {}
      invariant todo <= keys
      invariant forall key :: key in keys ==> InNamespace(tenant, key)
      invariant OnlyEvicts(old(redis.entries), redis.entries, tenant)
      invariant forall key :: key in keys - todo ==> key !in redis.entries
      decreases |todo|
    {
      var key :| key in todo;
      var deleted := redis.Delete(key);
      if !deleted { return false; }
      todo := todo - {key};
    }
  }
}
