/** Progressive login delays: the Redis counter, the cooldown key, and the login endpoint that drives them. */
module Throttle {
  import opened Model
  import opened Ascii
  import opened Redis

  datatype Config = Config(
    shortDelay: nat, mediumDelay: nat, longDelay: nat,
    shortFrom: nat, mediumFrom: nat, longFrom: nat, window: nat)

  const DEFAULTS := Config(2, 30, 900, 4, 6, 9, 3600)

  predicate Ordered(c: Config) {
    && 1 <= c.shortFrom <= c.mediumFrom <= c.longFrom
    && c.shortDelay <= c.mediumDelay <= c.longDelay
    && 0 < c.longDelay && 0 < c.window
  }

  function FailureKey(email: string): string { "login:failures:" + LowerAll(email) }

  function CooldownKey(email: string): string { "login:cooldown:" + LowerAll(email) }

  function DelaySeconds(c: Config, attempts: int): nat {
    if attempts < c.shortFrom then 0
    else if attempts < c.mediumFrom then c.shortDelay
    else if attempts < c.longFrom then c.mediumDelay
    else c.longDelay
  }

  /** int(x) */
  function Truncate(x: real): int { if x >= 0.0 then x.Floor else -((-x).Floor) }

  // ---------- One call ----------

  /** What came of one call: `Lost` took effect but reported an error, `Refused` did neither. */
  datatype Call = Answered | Lost | Refused

  /** INCR, and EXPIRE when the count is one; 0 as soon as a call reports an error. */
  function RecordedUnder(c: Config, store: Store, key: string, now: real, incr: Call, expire: Call): (Store, int) {
    var next := Incremented(store, key, now);
    if next.None? || incr.Refused? then (store, 0)
    else if incr.Lost? then (next.value.0, 0)
    else if next.value.1 != 1 then next.value
    else (if expire.Refused? then next.value.0 else Expiring(next.value.0, key, c.window, now),
          if expire.Answered? then 1 else 0)
  }

  function Recorded(c: Config, store: Store, key: string, now: real): (Store, int) {
    RecordedUnder(c, store, key, now, Answered, Answered)
  }

  /** float(value) */
  function AsTime(v: Value): Option<real> {
    match v
    case Stamp(t) => Some(t)
    case Counter(n) => Some(n as real)
    case Json(_) => None
  }

  /** The remaining seconds is_in_cooldown reports, if it reports any. */
  function Remaining(store: Store, key: string, now: real): Option<int> {
    var v := Lookup(store, key, now);
    if v.None? || AsTime(v.value).None? then None
    else
      var left := Truncate(AsTime(v.value).value) - Truncate(now);
      if left > 0 then Some(left) else None
  }

  /** is_in_cooldown deletes a key that has run out. */
  function Checked(store: Store, key: string, now: real): Store {
    var v := Lookup(store, key, now);
    if v.Some? && AsTime(v.value).Some? && Remaining(store, key, now).None? then store - {key} else store
  }

  function Cooling(store: Store, key: string, delay: nat, now: real): Store {
    if delay == 0 then store else WithExpiry(store, key, delay, Stamp(now + delay as real), now)
  }

  datatype Failed = Failed(store: Store, count: int, applied: nat)

  /** A failed login: record it, then apply_delay. */
  function FailedLogin(c: Config, store: Store, email: string, now: real): Failed {
    var (recorded, count) := Recorded(c, store, FailureKey(email), now);
    var key := CooldownKey(email);
    if Remaining(recorded, key, now).Some? then Failed(recorded, count, 0)
    else
      var delay := DelaySeconds(c, count);
      Failed(Cooling(Checked(recorded, key, now), key, delay, now), count, delay)
  }

  function Cleared(store: Store, email: string): Store {
    store - {FailureKey(email)} - {CooldownKey(email)}
  }

  /** Keys other than `keys` keep their entries. */
  ghost predicate Elsewhere(before: Store, after: Store, keys: set<string>) {
    after - keys == before - keys
  }

  /** int(count) of the counter, 0 when there is none. */
  function Failures(store: Store, key: string, now: real): int {
    match Lookup(store, key, now)
    case Some(Counter(n)) => n
    case _ => 0
  }

  datatype Status = Status(failures: int, cooling: bool, remaining: int, nextDelay: nat, locked: bool)

  function StatusOf(c: Config, store: Store, email: string, now: real): Status {
    var n, left := Failures(store, FailureKey(email), now), Remaining(store, CooldownKey(email), now);
    Status(n, left.Some?, if left.Some? then left.value else 0, DelaySeconds(c, n), n >= c.longFrom)
  }

  // ---------- The service ----------

  /** How the password check of the login endpoint came out. */
  datatype Credentials = NoMatch | NoneActive | Match

  class LoginThrottle {
    const redis: Connection
    const config: Config

    constructor (redis: Connection, config: Config)
      ensures this.redis == redis && this.config == config
    {
      this.redis, this.config := redis, config;
    }

    method GetFailedAttempts(email: string) returns (count: int)
      ensures redis.up ==> count == Failures(redis.entries, FailureKey(email), redis.now)
      ensures count == 0 || count == Failures(redis.entries, FailureKey(email), redis.now)
    {
      var ok, value := redis.Get(FailureKey(email));
      if ok && value.Some? && value.value.Counter? { return value.value.n; }
      count := 0;
    }

    method RecordFailedAttempt(email: string) returns (count: int)
      modifies redis`entries
      ensures exists incr, expire ::
                (redis.entries, count) ==
                RecordedUnder(config, old(redis.entries), FailureKey(email), redis.now, incr, expire)
      ensures redis.up || count != 0 ==>
                (redis.entries, count) == Recorded(config, old(redis.entries), FailureKey(email), redis.now)
      ensures Elsewhere(old(redis.entries), redis.entries, {FailureKey(email)})
    {
      var key, was := FailureKey(email), redis.entries;
      var ok;
      ok, count := redis.Incr(key);
      ghost var incr, expire := if ok then Answered else if redis.entries == was then Refused else Lost, Answered;
      if !ok {
        count := 0;
      } else if count == 1 {
        var counted := redis.entries;
        var expiring := redis.Expire(key, config.window);
        expire := if expiring then Answered else if redis.entries == counted then Refused else Lost;
        if !expiring { count := 0; }
      }
      assert (redis.entries, count) == RecordedUnder(config, was, key, redis.now, incr, expire);
    }

    method ClearFailedAttempts(email: string) returns (ok: bool)
      modifies redis`entries
      ensures redis.up ==> ok && redis.entries == Cleared(old(redis.entries), email)
      ensures Elsewhere(old(redis.entries), redis.entries, {FailureKey(email), CooldownKey(email)})
    {
      ok := redis.Delete(FailureKey(email));
      if !ok { return; }
      ok := redis.Delete(CooldownKey(email));
    }

    method IsInCooldown(email: string) returns (cooling: bool, remaining: int)
      modifies redis`entries
      ensures redis.up ==>
                var left := Remaining(old(redis.entries), CooldownKey(email), redis.now);
                && redis.entries == Checked(old(redis.entries), CooldownKey(email), redis.now)
                && cooling == left.Some? && remaining == (if left.Some? then left.value else 0)
      ensures if cooling then Remaining(old(redis.entries), CooldownKey(email), redis.now) == Some(remaining)
              else remaining == 0
      ensures redis.entries in {old(redis.entries), Checked(old(redis.entries), CooldownKey(email), redis.now)}
      ensures Elsewhere(old(redis.entries), redis.entries, {CooldownKey(email)})
    {
      var key := CooldownKey(email);
      var ok, value := redis.Get(key);
      if !ok || value.None? { return false, 0; }
      var until := AsTime(value.value);
      if until.None? { return false, 0; }
      remaining := Truncate(until.value) - Truncate(redis.now);
      if remaining > 0 { return true, remaining; }
      var _ := redis.Delete(key);
      return false, 0;
    }

    method SetCooldown(email: string, delay: int) returns (ok: bool)
      modifies redis`entries
      ensures ok ==> delay > 0
      ensures redis.up ==> (ok <==> delay > 0)
      ensures redis.up && delay >= 0 ==>
                redis.entries == Cooling(old(redis.entries), CooldownKey(email), delay, redis.now)
      ensures Elsewhere(old(redis.entries), redis.entries, {CooldownKey(email)})
    {
      if delay <= 0 { return false; }
      var until := redis.now + delay as real;
      ok := redis.SetEx(CooldownKey(email), delay, Stamp(until));
    }

    method ApplyDelay(email: string, attempts: int) returns (applied: nat, remaining: int)
      modifies redis`entries, redis`now
      ensures redis.now >= old(redis.now) + applied as real
      ensures old(redis.up) ==>
                var before, at, key := old(redis.entries), old(redis.now), CooldownKey(email);
                var left, delay := Remaining(before, key, at), DelaySeconds(config, attempts);
                if left.Some? then applied == 0 && remaining == left.value && redis.entries == before
                else applied == remaining == delay && redis.entries == Cooling(Checked(before, key, at), key, delay, at)
      ensures if applied == 0 && remaining > 0
              then Remaining(old(redis.entries), CooldownKey(email), old(redis.now)) == Some(remaining)
              else applied == remaining == DelaySeconds(config, attempts)
      ensures Elsewhere(old(redis.entries), redis.entries, {CooldownKey(email)})
    {
      var cooling, left := IsInCooldown(email);
      if cooling { return 0, left; }
      var delay := DelaySeconds(config, attempts);
      if delay > 0 {
        var _ := SetCooldown(email, delay);
        redis.Sleep(delay as real);
      }
      return delay, delay;
    }

    /** get_throttle_status; the address itself is left out of the report. */
    method GetThrottleStatus(email: string) returns (status: Status)
      modifies redis`entries
      ensures redis.up ==>
                && status == StatusOf(config, old(redis.entries), email, redis.now)
                && redis.entries == Checked(old(redis.entries), CooldownKey(email), redis.now)
      ensures status.nextDelay == DelaySeconds(config, status.failures)
      ensures status.locked <==> status.failures >= config.longFrom
    {
      var failures := GetFailedAttempts(email);
      var cooling, remaining := IsInCooldown(email);
      status := Status(failures, cooling, remaining, DelaySeconds(config, failures), failures >= config.longFrom);
    }

    /** login, as far as it drives the throttle. Returns the status code. */
    method Login(email: string, credentials: Credentials) returns (code: nat)
      modifies redis`entries, redis`now
      ensures code == if credentials.Match? then 200 else 401
      ensures old(redis.up) && credentials.Match? ==>
                redis.entries == Cleared(old(redis.entries), LowerAll(email)) && redis.now == old(redis.now)
      ensures old(redis.up) && !credentials.Match? ==>
                var f := FailedLogin(config, old(redis.entries), LowerAll(email), old(redis.now));
                redis.entries == f.store && redis.now >= old(redis.now) + f.applied as real
    {
      var account := LowerAll(email);
      if !credentials.Match? {
        var count := RecordFailedAttempt(account);
        var _, _ := ApplyDelay(account, count);
        return 401;
      }
      var _ := ClearFailedAttempts(account);
      code := 200;
    }
  }

  /** Addresses that differ only in case share their keys, and no two accounts share any. */
  lemma KeysOfAccounts(a: string, b: string)
    ensures FailureKey(a) == FailureKey(b) <==> LowerAll(a) == LowerAll(b)
    ensures CooldownKey(a) == CooldownKey(b) <==> LowerAll(a) == LowerAll(b)
    ensures FailureKey(a) != CooldownKey(b)
  {
    assert FailureKey(a)[15..] == LowerAll(a) && FailureKey(b)[15..] == LowerAll(b);
    assert CooldownKey(a)[15..] == LowerAll(a) && CooldownKey(b)[15..] == LowerAll(b);
    assert FailureKey(a)[6] == 'f' && CooldownKey(b)[6] == 'c';
  }

  /** More failures never mean a shorter delay. */
  lemma DelayNeverFalls(c: Config, m: int, n: int)
    requires Ordered(c) && m <= n
    ensures DelaySeconds(c, m) <= DelaySeconds(c, n)
  {
  }

  // ---------- The cooldown ----------

  /**
   After a cooldown of d seconds set at time t, the time reported at u is between 1 and d, never rises,
   and is reported exactly until floor(t) + d: up to a second before the d seconds are over, never after.
   */
  lemma CooldownReports(store: Store, key: string, d: nat, t: real, u: real, v: real)
    requires d > 0 && 0.0 <= t <= u <= v
    ensures var s := Cooling(store, key, d, t);
            && (Remaining(s, key, u).Some? <==> u < (t.Floor + d) as real)
            && (Remaining(s, key, u).Some? ==> 1 <= Remaining(s, key, u).value <= d && u < t + d as real)
            && (Remaining(s, key, v).Some? ==>
                  Remaining(s, key, u).Some? && Remaining(s, key, v).value <= Remaining(s, key, u).value)
  {
    assert (t + d as real).Floor == t.Floor + d;
    assert t.Floor <= u.Floor <= v.Floor;
  }

  /**
   A failed login outside any cooldown leaves one that lasts exactly as long as it was delayed.  A failure
   meanwhile, from another connection, is counted but not delayed, and does not prolong it.
   */
  lemma FailureCools(c: Config, store: Store, email: string, t: real, u: real)
    requires 0.0 <= t <= u && Remaining(store, CooldownKey(email), t).None?
    ensures var f, key := FailedLogin(c, store, email, t), CooldownKey(email);
            && (Remaining(f.store, key, u).Some? <==> u < (t.Floor + f.applied) as real)
            && (Remaining(f.store, key, u).Some? ==>
                  var g := FailedLogin(c, f.store, email, u);
                  && g.applied == 0 && g.count == Recorded(c, f.store, FailureKey(email), u).1
                  && key in g.store && g.store[key] == f.store[key])
  {
    KeysOfAccounts(email, email);
    hide FailureKey, CooldownKey, DelaySeconds;
    var recorded := Recorded(c, store, FailureKey(email), t);
    var key, delay := CooldownKey(email), DelaySeconds(c, recorded.1);
    var f := FailedLogin(c, store, email, t);
    RecordedElsewhere(c, store, FailureKey(email), key, t);
    RecordedElsewhere(c, f.store, FailureKey(email), key, u);
    hide Recorded;
    if delay > 0 { CooldownReports(Checked(recorded.0, key, t), key, delay, t, u, u); }
  }

  /** After a success the account has no failures and no cooldown on record, and no other key has changed. */
  lemma SuccessForgets(store: Store, email: string, now: real)
    ensures var after := Cleared(store, email);
            && Failures(after, FailureKey(email), now) == 0 && Remaining(after, CooldownKey(email), now).None?
            && FailureKey(email) !in after && CooldownKey(email) !in after
            && forall key :: key != FailureKey(email) && key != CooldownKey(email) ==>
                 (key in after <==> key in store) && (key in store ==> after[key] == store[key])
  {
    hide FailureKey, CooldownKey;
  }

  /** Looking at a cooldown removes it exactly when it is a time that has come, and never changes what is reported. */
  lemma CheckedExactly(store: Store, key: string, now: real)
    ensures var after, found := Checked(store, key, now), Lookup(store, key, now);
            && (after == store || after == store - {key})
            && (key in store && key !in after <==>
                  found.Some? && AsTime(found.value).Some? && Truncate(AsTime(found.value).value) <= Truncate(now))
            && Remaining(after, key, now) == Remaining(store, key, now)
  {
  }

  lemma RecordedElsewhere(c: Config, store: Store, key: string, other: string, now: real)
    requires other != key
    ensures var r := Recorded(c, store, key, now).0;
            (other in r <==> other in store) && (other in store ==> r[other] == store[other])
  {
  }

  // ---------- The counter refines a simple specification ----------

  datatype Event = Failure(at: real) | Success(at: real)

  predicate InOrder(h: seq<Event>) {
    forall i :: 0 <= i < |h| - 1 ==> h[i].at <= h[i + 1].at
  }

  /** The event that opened the current window: a later failure never extends it, a success closes it. */
  function Opened(c: Config, h: seq<Event>): (k: Option<nat>)
    ensures k.Some? ==> k.value < |h|
  {
    if h == [] then None
    else
      var n := |h| - 1;
      var before := Opened(c, h[..n]);
      if h[n].Success? then None
      else if before.Some? && h[n].at < h[before.value].at + c.window as real then before
      else Some(n)
  }

  /** The failures since the window opened. */
  function FailureCount(c: Config, h: seq<Event>): nat {
    if Opened(c, h).None? then 0 else |h| - Opened(c, h).value
  }

  /** From the opening on there are only failures, all inside the window; before it a success or a window gone by. */
  lemma {:induction false} OpenedMeans(c: Config, h: seq<Event>)
    requires 0 < c.window && InOrder(h) && Opened(c, h).Some?
    ensures var k := Opened(c, h).value;
            && (forall i :: k <= i < |h| ==> h[i].Failure? && h[k].at <= h[i].at < h[k].at + c.window as real)
            && (k == 0 || h[k - 1].Success? ||
                  var before := Opened(c, h[..k]);
                  before.Some? && h[k].at >= h[before.value].at + c.window as real)
  {
    var n := |h| - 1;
    var k := Opened(c, h).value;
    if k < n {
      OpenedMeans(c, h[..n]);
      assert h[..n][..k] == h[..k];
      assert h[n - 1].at <= h[n].at;
    } else if n > 0 && !h[n - 1].Success? {
      OpenAfterFailure(c, h[..n]);
    }
  }

  lemma OpenAfterFailure(c: Config, h: seq<Event>)
    requires h != [] && h[|h| - 1].Failure?
    ensures Opened(c, h).Some?
  {
  }

  /** The store after a history of logins to one account. */
  function AfterLogins(c: Config, store: Store, email: string, h: seq<Event>): Store {
    if h == [] then store
    else
      var n := |h| - 1;
      var s := AfterLogins(c, store, email, h[..n]);
      if h[n].Success? then Cleared(s, email) else FailedLogin(c, s, email, h[n].at).store
  }

  /** Failed logins leave the failure key exactly as recording left it. */
  lemma FailedLoginCounter(c: Config, store: Store, email: string, now: real)
    ensures var f, r := FailedLogin(c, store, email, now), Recorded(c, store, FailureKey(email), now);
            var key := FailureKey(email);
            && f.count == r.1
            && (key in f.store <==> key in r.0) && (key in r.0 ==> f.store[key] == r.0[key])
  {
    KeysOfAccounts(email, email);
    hide Recorded, FailureKey, CooldownKey;
  }

  /** Counter entry `key` after one more failure, given what it was before. */
  lemma RecordedEntry(c: Config, store: Store, key: string, now: real)
    requires 0 < c.window
    requires key in store ==> store[key].value.Counter? && store[key].value.n >= 1 && store[key].expires.Some?
    ensures var r := Recorded(c, store, key, now);
            && key in r.0
            && if key in store && now < store[key].expires.value
               then r.1 == store[key].value.n + 1 && r.0[key] == Entry(Counter(r.1), store[key].expires)
               else r.1 == 1 && r.0[key] == Entry(Counter(1), Some(now + c.window as real))
  {
  }

  /** What the failure key holds after history h. */
  ghost predicate CounterIs(c: Config, store: Store, key: string, h: seq<Event>) {
    var open := Opened(c, h);
    if open.None? then key !in store
    else key in store && store[key] ==
           Entry(Counter(FailureCount(c, h)), Some(h[open.value].at + c.window as real))
  }

  lemma FailureCounts(c: Config, store: Store, email: string, h: seq<Event>)
    requires 0 < c.window && h != [] && h[|h| - 1].Failure?
    requires CounterIs(c, store, FailureKey(email), h[..|h| - 1])
    ensures var f := FailedLogin(c, store, email, h[|h| - 1].at);
            CounterIs(c, f.store, FailureKey(email), h) && f.count == FailureCount(c, h)
  {
    hide FailureKey, FailedLogin, Recorded;
    FailedLoginCounter(c, store, email, h[|h| - 1].at);
    RecordedEntry(c, store, FailureKey(email), h[|h| - 1].at);
  }

  /**
   The Redis counter is the specified one: its value is the failures since the later of the last success
   and the start of the current window, and it expires when that window does.
   */
  lemma {:induction false} CounterRefines(c: Config, store: Store, email: string, h: seq<Event>)
    requires 0 < c.window && FailureKey(email) !in store
    ensures CounterIs(c, AfterLogins(c, store, email, h), FailureKey(email), h)
    ensures h != [] && h[|h| - 1].Failure? ==>
              var before := AfterLogins(c, store, email, h[..|h| - 1]);
              FailedLogin(c, before, email, h[|h| - 1].at).count == FailureCount(c, h)
  {
    if h == [] {
    } else {
      var n := |h| - 1;
      CounterRefines(c, store, email, h[..n]);
      hide FailureKey, CooldownKey, FailedLogin;
      if h[n].Failure? { FailureCounts(c, AfterLogins(c, store, email, h[..n]), email, h); }
    }
  }

  /**
   What get_throttle_status reports after history h: the failures of the window if it is still open at
   `now`, otherwise none; the account is locked exactly while LONG_THRESHOLD failures are in the window.
   */
  lemma StatusAfterLogins(c: Config, store: Store, email: string, h: seq<Event>, now: real)
    requires Ordered(c) && FailureKey(email) !in store
    ensures var status, open := StatusOf(c, AfterLogins(c, store, email, h), email, now), Opened(c, h);
            var inWindow := open.Some? && now < h[open.value].at + c.window as real;
            && status.failures == (if inWindow then FailureCount(c, h) else 0)
            && (status.locked <==> inWindow && FailureCount(c, h) >= c.longFrom)
  {
    CounterRefines(c, store, email, h);
    hide AfterLogins, FailureKey, CooldownKey, DelaySeconds, FailureCount, Remaining;
  }

  // ---------- A counter that never expires ----------

  /** A counter without an expiry time. */
  predicate Unexpiring(store: Store, key: string) {
    key in store && store[key].expires.None?
  }

  /**
   A failure leaves such a counter, where there was none, exactly when it is the first of its window, its
   INCR took effect, and no EXPIRE did: the answer of INCR was lost, or EXPIRE was refused.
   */
  lemma UnexpiringExactly(c: Config, store: Store, key: string, now: real, incr: Call, expire: Call)
    requires !Unexpiring(store, key)
    ensures Unexpiring(RecordedUnder(c, store, key, now, incr, expire).0, key) <==>
              !Live(store, key, now) && (incr.Lost? || (incr.Answered? && expire.Refused?))
  {
  }

  /** Such a counter, at n. */
  predicate StuckAt(store: Store, key: string, n: int) {
    key in store && store[key] == Entry(Counter(n), None)
  }

  lemma StuckStep(c: Config, store: Store, email: string, now: real, n: int)
    requires StuckAt(store, FailureKey(email), n) && n >= 1
    ensures StuckAt(FailedLogin(c, store, email, now).store, FailureKey(email), n + 1)
  {
    hide FailureKey;
    FailedLoginCounter(c, store, email, now);
    hide FailedLogin;
  }

  /**
   From then on, however far apart the failures are, it counts them all and never runs out; only a success
   removes it.
   */
  lemma {:induction false} UnexpiringCountsOn(c: Config, store: Store, email: string, h: seq<Event>, n: int)
    requires StuckAt(store, FailureKey(email), n) && n >= 1
    requires forall i :: 0 <= i < |h| ==> h[i].Failure?
    ensures StuckAt(AfterLogins(c, store, email, h), FailureKey(email), n + |h|)
    ensures FailureKey(email) !in Cleared(AfterLogins(c, store, email, h), email)
  {
    hide FailureKey, CooldownKey, FailedLogin, StuckAt;
    if h == [] {
    } else {
      var last := |h| - 1;
      UnexpiringCountsOn(c, store, email, h[..last], n);
      StuckStep(c, AfterLogins(c, store, email, h[..last]), email, h[last].at, n + last);
    }
  }
}
