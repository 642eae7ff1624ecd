/** The Redis server the cache and the login throttle share: string keys, values, expiry times. */
module Redis {
  import opened Model

  /** What the program stores: counters it increments, times, and JSON documents. */
  datatype Value = Counter(n: int) | Stamp(time: real) | Json(report: Report)

  datatype Entry = Entry(value: Value, expires: Option<real>)

  type Store = map<string, Entry>

  predicate Live(store: Store, key: string, now: real) {
    key in store && (store[key].expires.Some? ==> now < store[key].expires.value)
  }

  function Lookup(store: Store, key: string, now: real): Option<Value> {
    if Live(store, key, now) then Some(store[key].value) else None
  }

  function WithExpiry(store: Store, key: string, seconds: int, value: Value, now: real): Store {
    store[key := Entry(value, Some(now + seconds as real))]
  }

  /** INCR: an absent key counts from 0 and has no expiry; a present one keeps its expiry. */
  function Incremented(store: Store, key: string, now: real): Option<(Store, int)> {
    if !Live(store, key, now) then Some((store[key := Entry(Counter(1), None)], 1))
    else if store[key].value.Counter? then
      var n := store[key].value.n + 1;
      Some((store[key := store[key].(value := Counter(n))], n))
    else None
  }

  function Expiring(store: Store, key: string, seconds: int, now: real): Store {
    if Live(store, key, now) then store[key := store[key].(expires := Some(now + seconds as real))] else store
  }

  /** Redis glob patterns without character classes. */
  predicate Glob(pattern: string, s: string)
    requires '[' !in pattern
    decreases |pattern|, |s|
  {
    if pattern == "" then s == ""
    else if pattern[0] == '*' then Glob(pattern[1..], s) || (s != "" && Glob(pattern, s[1..]))
    else if pattern[0] == '?' then s != "" && Glob(pattern[1..], s[1..])
    else if pattern[0] == '\\' && |pattern| >= 2 then
      s != "" && s[0] == pattern[1] && Glob(pattern[2..], s[1..])
    else s != "" && s[0] == pattern[0] && Glob(pattern[1..], s[1..])
  }

  /**
   A connection.  While `up` every call succeeds; otherwise any call may fail, and a call that reports
   failure may still have taken effect.  A missing client is one whose calls all fail without effect.
   */
  class Connection {
    var entries: Store
    var now: real
    var up: bool

    constructor ()
      ensures entries == map[] && up
    {
      entries, now, up := map[], 0.0, true;
    }

    /** Time passes; nothing else happens. */
    method Sleep(seconds: real)
      requires seconds >= 0.0
      modifies this`now
      ensures now >= old(now) + seconds
    {
      var delay: real :| delay >= 0.0;
      now := now + seconds + delay;
    }

    method Fails() returns (failed: bool)
      ensures up ==> !failed
    {
      failed := *;
      failed := failed && !up;
    }

    method Get(key: string) returns (ok: bool, value: Option<Value>)
      ensures up ==> ok
      ensures ok ==> value == Lookup(entries, key, now)
    {
      var failed := Fails();
      ok, value := !failed, Lookup(entries, key, now);
    }

    /** SETEX; a time to live that is not positive is refused. */
    method SetEx(key: string, seconds: int, value: Value) returns (ok: bool)
      modifies this`entries
      ensures up && seconds > 0 ==> ok
      ensures ok ==> seconds > 0
      ensures entries == old(entries) || (seconds > 0 && entries == WithExpiry(old(entries), key, seconds, value, now))
      ensures ok ==> entries == WithExpiry(old(entries), key, seconds, value, now)
    {
      if seconds <= 0 { return false; }
      var failed := Fails();
      var reached: bool := *;
      if !failed || reached { entries := WithExpiry(entries, key, seconds, value, now); }
      ok := !failed;
    }

    method Incr(key: string) returns (ok: bool, count: int)
      modifies this`entries
      ensures var next := Incremented(old(entries), key, now);
              && (ok ==> next == Some((entries, count)))
              && (up && next.Some? ==> ok)
              && (entries == old(entries) || (next.Some? && entries == next.value.0))
    {
      var next := Incremented(entries, key, now);
      if next.None? { return false, 0; }
      var failed := Fails();
      var reached: bool := *;
      if !failed || reached { entries := next.value.0; }
      ok, count := !failed, next.value.1;
    }

    method Expire(key: string, seconds: int) returns (ok: bool)
      modifies this`entries
      ensures up ==> ok
      ensures ok ==> entries == Expiring(old(entries), key, seconds, now)
      ensures entries == old(entries) || entries == Expiring(old(entries), key, seconds, now)
    {
      var failed := Fails();
      var reached: bool := *;
      if !failed || reached { entries := Expiring(entries, key, seconds, now); }
      ok := !failed;
    }

    method Delete(key: string) returns (ok: bool)
      modifies this`entries
      ensures up ==> ok
      ensures ok ==> entries == old(entries) - {key}
      ensures entries == old(entries) || entries == old(entries) - {key}
    {
      var failed := Fails();
      var reached: bool := *;
      if !failed || reached { entries := entries - {key}; }
      ok := !failed;
    }

    /** SCAN ... MATCH: the live keys that match. */
    method Scan(pattern: string) returns (ok: bool, keys: set<string>)
      requires '[' !in pattern
      ensures up ==> ok
      ensures ok ==> keys == set key | key in entries && Live(entries, key, now) && Glob(pattern, key)
    {
      var failed := Fails();
      ok, keys := !failed, set key | key in entries && Live(entries, key, now) && Glob(pattern, key);
    }
  }
}
