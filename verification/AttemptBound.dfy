/** How many attempts the login throttle leaves to a client that waits for every answer. */
module AttemptBound {
  import opened Model
  import opened Arithmetic
  import opened Redis
  import opened Throttle

  // ---------- Runs of a failing client ----------

  /**
   A sequential client that only fails: each attempt starts after the previous answer, which comes the
   applied delay, or more, after that attempt.
   */
  predicate Sequential(c: Config, store: Store, email: string, ready: real, times: seq<real>)
    decreases |times|
  {
    times == [] ||
    (times[0] >= ready &&
     var f := FailedLogin(c, store, email, times[0]);
     Sequential(c, f.store, email, times[0] + f.applied as real, times[1..]))
  }

  /** The counts record_failed_attempt returns along a run: positions within the window. */
  function Counts(c: Config, store: Store, email: string, times: seq<real>): (r: seq<int>)
    ensures |r| == |times|
    decreases |times|
  {
    if times == [] then []
    else
      var f := FailedLogin(c, store, email, times[0]);
      [f.count] + Counts(c, f.store, email, times[1..])
  }

  /** The window a client is in: when it opened, and how many failures it holds. */
  datatype Window = Fresh | Open(start: real, count: nat)

  function Attempt(c: Config, w: Window, t: real): Window {
    if w.Open? && t < w.start + c.window as real then Open(w.start, w.count + 1) else Open(t, 1)
  }

  /** The window after a history of logins. */
  function WindowAfter(c: Config, h: seq<Event>): Window {
    if h == [] then Fresh
    else
      var n := |h| - 1;
      if h[n].Success? then Fresh else Attempt(c, WindowAfter(c, h[..n]), h[n].at)
  }

  /** That window opened when the counter's did and holds the failures it has counted. */
  lemma {:induction false} WindowIsCounter(c: Config, h: seq<Event>)
    ensures var open := Opened(c, h);
            WindowAfter(c, h) == if open.None? then Fresh else Open(h[open.value].at, FailureCount(c, h))
  {
    if h == [] {
    } else {
      WindowIsCounter(c, h[..|h| - 1]);
    }
  }

  /** Sequential, without Redis: the client always waits for the delay of its count. */
  predicate Waits(c: Config, w: Window, ready: real, times: seq<real>)
    decreases |times|
  {
    times == [] ||
    (times[0] >= ready &&
     var w' := Attempt(c, w, times[0]);
     Waits(c, w', times[0] + DelaySeconds(c, w'.count) as real, times[1..]))
  }

  /** Counts, without Redis. */
  function Positions(c: Config, w: Window, times: seq<real>): (r: seq<int>)
    ensures |r| == |times|
    decreases |times|
  {
    if times == [] then []
    else
      var w' := Attempt(c, w, times[0]);
      [w'.count] + Positions(c, w', times[1..])
  }

  /** The store of a client in window w that is free to go on at `ready`: its cooldown is over by then. */
  ghost predicate Matches(c: Config, store: Store, email: string, w: Window, ready: real) {
    var fk, ck := FailureKey(email), CooldownKey(email);
    && (if w.Fresh? then fk !in store
        else fk in store && w.count >= 1 && store[fk] == Entry(Counter(w.count), Some(w.start + c.window as real)))
    && (ck in store ==> store[ck].expires.Some? && store[ck].expires.value <= ready)
  }

  /** In such a run the cooldown never cuts a delay short: every failure waits its full delay. */
  lemma NeverInCooldown(c: Config, store: Store, email: string, w: Window, ready: real, t: real)
    requires Ordered(c) && Matches(c, store, email, w, ready) && t >= ready
    ensures var f, w' := FailedLogin(c, store, email, t), Attempt(c, w, t);
            && f.count == w'.count && f.applied == DelaySeconds(c, w'.count)
            && Matches(c, f.store, email, w', t + f.applied as real)
  {
    KeysOfAccounts(email, email);
    hide FailureKey, CooldownKey, DelaySeconds;
    var recorded := Recorded(c, store, FailureKey(email), t).0;
    assert Remaining(recorded, CooldownKey(email), t).None?;
  }

  /** The runs of such a client over Redis, and the counts it is given, are those of the plain windows. */
  lemma {:induction false} SequentialIffWaits(
    c: Config, store: Store, email: string, w: Window, ready: real, times: seq<real>)
    requires Ordered(c) && Matches(c, store, email, w, ready)
    ensures Sequential(c, store, email, ready, times) <==> Waits(c, w, ready, times)
    ensures Waits(c, w, ready, times) ==> Counts(c, store, email, times) == Positions(c, w, times)
    decreases |times|
  {
    hide FailedLogin, Matches, Attempt;
    if times == [] {
    } else if times[0] >= ready {
      NeverInCooldown(c, store, email, w, ready, times[0]);
      var f := FailedLogin(c, store, email, times[0]);
      SequentialIffWaits(c, f.store, email, Attempt(c, w, times[0]), times[0] + f.applied as real, times[1..]);
    }
  }

  /** An account without failures or cooldown on record. */
  predicate Clean(store: Store, email: string) {
    FailureKey(email) !in store && CooldownKey(email) !in store
  }

  lemma CleanMatches(c: Config, store: Store, email: string, ready: real)
    requires Clean(store, email)
    ensures Matches(c, store, email, Fresh, ready)
  {
  }

  lemma FromClean(c: Config, store: Store, email: string, times: seq<real>)
    requires Ordered(c) && Clean(store, email) && times != []
    requires Sequential(c, store, email, times[0], times)
    ensures Waits(c, Fresh, times[0], times) && Counts(c, store, email, times) == Positions(c, Fresh, times)
  {
    hide FailedLogin;
    SequentialIffWaits(c, store, email, Fresh, times[0], times);
  }

  // ---------- The delays, count by count ----------

  /** The documented steps: no delay, then the short, the medium and the long one. */
  predicate Steps(c: Config, count: int, seconds: nat) {
    && (count < c.shortFrom ==> seconds == 0)
    && (c.shortFrom <= count < c.mediumFrom ==> seconds == c.shortDelay)
    && (c.mediumFrom <= count < c.longFrom ==> seconds == c.mediumDelay)
    && (c.longFrom <= count ==> seconds == c.longDelay)
  }

  /** From one failure to the next, at least the delay of its count goes by. */
  predicate GapHolds(c: Config, count: int, gap: real) {
    && (count < c.shortFrom ==> gap >= 0.0)
    && (c.shortFrom <= count < c.mediumFrom ==> gap >= c.shortDelay as real)
    && (c.mediumFrom <= count < c.longFrom ==> gap >= c.mediumDelay as real)
    && (c.longFrom <= count ==> gap >= c.longDelay as real)
  }

  lemma StepsAre(c: Config, count: int, seconds: nat, gap: real)
    requires Ordered(c)
    ensures Steps(c, count, seconds) <==> seconds == DelaySeconds(c, count)
    ensures GapHolds(c, count, gap) <==> gap >= DelaySeconds(c, count) as real
  {
  }

  /** The gaps of a run, after a first failure that comes at `ready` or later. */
  predicate Spacing(c: Config, counts: seq<int>, times: seq<real>)
    requires |counts| == |times|
  {
    forall i :: 0 <= i < |times| - 1 ==> GapHolds(c, counts[i], times[i + 1] - times[i])
  }

  lemma SpacingCons(c: Config, count: int, counts: seq<int>, t: real, times: seq<real>)
    requires |counts| == |times|
    ensures Spacing(c, [count] + counts, [t] + times) <==>
              (times != [] ==> GapHolds(c, count, times[0] - t)) && Spacing(c, counts, times)
  {
    hide GapHolds;
    var cs, ts := [count] + counts, [t] + times;
    if Spacing(c, cs, ts) {
      assert times != [] ==> GapHolds(c, cs[0], ts[0 + 1] - ts[0]);
      forall i | 0 <= i < |times| - 1 ensures GapHolds(c, counts[i], times[i + 1] - times[i]) {
        assert GapHolds(c, cs[i + 1], ts[i + 1 + 1] - ts[i + 1]);
      }
    }
  }

  lemma {:induction false} WaitsIffSpacing(c: Config, w: Window, ready: real, times: seq<real>)
    requires Ordered(c)
    ensures Waits(c, w, ready, times) <==>
              (times != [] ==> times[0] >= ready) && Spacing(c, Positions(c, w, times), times)
    decreases |times|
  {
    hide GapHolds, DelaySeconds, Spacing;
    if times == [] {
      assert Spacing(c, [], []) by { NoGaps(c); }
    } else {
      var t, rest := times[0], times[1..];
      var w' := Attempt(c, w, t);
      var next := t + DelaySeconds(c, w'.count) as real;
      WaitsIffSpacing(c, w', next, rest);
      SpacingCons(c, w'.count, Positions(c, w', rest), t, rest);
      assert times == [t] + rest;
      if rest != [] { StepsAre(c, w'.count, 0, rest[0] - t); }
    }
  }

  lemma NoGaps(c: Config)
    ensures Spacing(c, [], [])
  {
  }

  /**
   The runs of a failing client from a clean account are exactly the sequences of times in which every
   failure is followed, no sooner than the delay of its count allows, by the next: nothing is enforced below
   the short threshold, and exactly the short, medium and long delay from each threshold on.
   */
  lemma SequentialIffSpaced(c: Config, store: Store, email: string, times: seq<real>)
    requires Ordered(c) && Clean(store, email) && times != []
    ensures Sequential(c, store, email, times[0], times) <==> Spacing(c, Positions(c, Fresh, times), times)
    ensures Sequential(c, store, email, times[0], times) ==>
              Spacing(c, Counts(c, store, email, times), times)
  {
    CleanMatches(c, store, email, times[0]);
    hide Sequential, Waits, Spacing, Clean, Matches;
    SequentialIffWaits(c, store, email, Fresh, times[0], times);
    WaitsIffSpacing(c, Fresh, times[0], times);
  }

  /** The seconds apply_delay sleeps along a run. */
  function Delays(c: Config, store: Store, email: string, times: seq<real>): (r: seq<nat>)
    ensures |r| == |times|
    decreases |times|
  {
    if times == [] then []
    else
      var f := FailedLogin(c, store, email, times[0]);
      [f.applied] + Delays(c, f.store, email, times[1..])
  }

  lemma {:induction false} DelaysFollowCounts(
    c: Config, store: Store, email: string, w: Window, ready: real, times: seq<real>, i: nat)
    requires Ordered(c) && Matches(c, store, email, w, ready) && Sequential(c, store, email, ready, times)
    requires i < |times|
    ensures Steps(c, Counts(c, store, email, times)[i], Delays(c, store, email, times)[i])
    decreases i
  {
    hide FailedLogin, Matches, Attempt, DelaySeconds, Steps;
    NeverInCooldown(c, store, email, w, ready, times[0]);
    var f := FailedLogin(c, store, email, times[0]);
    if i == 0 {
      StepsAre(c, f.count, f.applied, 0.0);
    } else {
      DelaysFollowCounts(
        c, f.store, email, Attempt(c, w, times[0]), times[0] + f.applied as real, times[1..], i - 1);
    }
  }

  /** Each failure of a run is delayed by the step of its count; with the defaults by 0, 2, 30 or 900 seconds. */
  lemma DelaysByCount(c: Config, store: Store, email: string, times: seq<real>, i: nat)
    requires Ordered(c) && Clean(store, email) && i < |times| && Sequential(c, store, email, times[0], times)
    ensures var count, seconds := Counts(c, store, email, times)[i], Delays(c, store, email, times)[i];
            && Steps(c, count, seconds)
            && (c == DEFAULTS ==>
                  seconds == if count <= 3 then 0 else if count <= 5 then 2 else if count <= 8 then 30 else 900)
  {
    CleanMatches(c, store, email, times[0]);
    hide Sequential, Clean, Matches;
    DelaysFollowCounts(c, store, email, Fresh, times[0], times, i);
  }

  // ---------- Within one window ----------

  /** The most failures one window can hold. */
  function WindowBound(c: Config): nat
    requires Ordered(c)
  {
    c.longFrom - 1 + CeilDiv(c.window, c.longDelay)
  }

  /** n failures since `start`, the last at `last`: from the long threshold on they are long delays apart. */
  predicate Spread(c: Config, w: Window, last: real) {
    w.Open? && w.count >= 1 && w.start <= last < w.start + c.window as real &&
    (w.count >= c.longFrom ==> last >= w.start + ((w.count - c.longFrom) * c.longDelay) as real)
  }

  /** Nothing is known of a fresh window. */
  predicate FreshOrSpread(c: Config, w: Window, last: real, ready: real) {
    w.Fresh? || (Spread(c, w, last) && ready >= last + DelaySeconds(c, w.count) as real)
  }

  lemma AttemptSpreads(c: Config, w: Window, last: real, ready: real, t: real)
    requires Ordered(c) && FreshOrSpread(c, w, last, ready) && t >= ready
    ensures Spread(c, Attempt(c, w, t), t)
  {
    if w.Open? {
      var k := w.count - c.longFrom;
      assert (k + 1) * c.longDelay == k * c.longDelay + c.longDelay;
    }
  }

  lemma SpreadBounded(c: Config, w: Window, last: real)
    requires Ordered(c) && Spread(c, w, last)
    ensures w.count <= WindowBound(c)
  {
    if w.count >= c.longFrom {
      var k := w.count - c.longFrom;
      assert (k * c.longDelay) as real < c.window as real;
      CeilBetween(c.window, c.longDelay, k);
    } else {
      CeilBetween(c.window, c.longDelay, 0);
    }
  }

  /** The window after failure i of a run: it holds the count given to that failure. */
  lemma {:induction false} WindowAt(
    c: Config, w: Window, last: real, ready: real, times: seq<real>, i: nat) returns (at: Window)
    requires Ordered(c) && FreshOrSpread(c, w, last, ready) && i < |times| && Waits(c, w, ready, times)
    ensures Spread(c, at, times[i]) && at.count == Positions(c, w, times)[i]
    ensures at.count == 1 ==> at.start == times[i]
    ensures Waits(c, at, times[i] + DelaySeconds(c, at.count) as real, times[i + 1..])
    decreases i
  {
    var t := times[0];
    var w' := Attempt(c, w, t);
    AttemptSpreads(c, w, last, ready, t);
    hide DelaySeconds, Spread;
    if i == 0 {
      at := w';
    } else {
      at := WindowAt(c, w', t, t + DelaySeconds(c, w'.count) as real, times[1..], i - 1);
      assert times[1..][i - 1] == times[i] && times[1..][i..] == times[i + 1..];
    }
  }

  /**
   A sequential client that keeps failing records at most LONG - 1 + ceil(WINDOW / LONG_DELAY)
   failures in any one window.
   */
  lemma FailuresPerWindow(c: Config, store: Store, email: string, times: seq<real>, i: nat)
    requires Ordered(c) && Clean(store, email) && i < |times|
    requires Sequential(c, store, email, times[0], times)
    ensures 1 <= Counts(c, store, email, times)[i] <= WindowBound(c)
  {
    hide *;
    FromClean(c, store, email, times);
    assert FreshOrSpread(c, Fresh, 0.0, times[0]) by { NothingKnown(c, times[0]); }
    var w := WindowAt(c, Fresh, 0.0, times[0], times, i);
    SpreadBounded(c, w, times[i]);
    SpreadPositive(c, w, times[i]);
  }

  lemma NothingKnown(c: Config, ready: real)
    ensures FreshOrSpread(c, Fresh, 0.0, ready)
  {
  }

  lemma SpreadPositive(c: Config, w: Window, last: real)
    requires Spread(c, w, last)
    ensures w.count >= 1 && w.start <= last < w.start + c.window as real
  {
  }

  // ---------- Over several windows ----------

  function Last(times: seq<real>, otherwise: real): real {
    if times == [] then otherwise else times[|times| - 1]
  }

  lemma {:induction false} WaitsInOrder(c: Config, w: Window, ready: real, times: seq<real>)
    requires Waits(c, w, ready, times)
    ensures Last(times, ready) >= ready
    decreases |times|
  {
    if times == [] {
    } else {
      var w' := Attempt(c, w, times[0]);
      WaitsInOrder(c, w', times[0] + DelaySeconds(c, w'.count) as real, times[1..]);
    }
  }

  /**
   Counting windows.  The current one opened at least m window lengths after `origin`; the last failure comes
   before origin + (q + 1) window lengths and before origin + q window lengths + (e + 1) long delays.  Then
   every window from m to q - 1 is full at most, and window q holds longFrom + e failures at most.
   */
  lemma {:induction false} CountByWindows(
    c: Config, w: Window, last: real, times: seq<real>, origin: real, m: nat, q: nat, e: nat)
    requires Ordered(c) && Spread(c, w, last) && c.longFrom + e <= WindowBound(c)
    requires Waits(c, w, last + DelaySeconds(c, w.count) as real, times)
    requires w.start >= origin + Times(m, c.window) as real
    requires Last(times, last) < origin + Times(q + 1, c.window) as real
    requires Last(times, last) < origin + (Times(q, c.window) + Times(e + 1, c.longDelay)) as real
    ensures m <= q && w.count + |times| <= Times(q - m, WindowBound(c)) + c.longFrom + e
    decreases |times|
  {
    hide WindowBound, DelaySeconds, Times;
    SpreadBounded(c, w, last);
    WaitsInOrder(c, w, last + DelaySeconds(c, w.count) as real, times);
    var b := WindowBound(c);
    TimesNext(q, c.window);
    TimesApart(q, m, c.window);
    if times == [] {
      LastWindow(c, w, last, origin, m, q, e);
    } else {
      var t := times[0];
      var w' := Attempt(c, w, t);
      AttemptSpreads(c, w, last, last + DelaySeconds(c, w.count) as real, t);
      assert Last(times[1..], t) == Last(times, last);
      if t < w.start + c.window as real {
        CountByWindows(c, w', t, times[1..], origin, m, q, e);
      } else {
        TimesNext(m, c.window);
        CountByWindows(c, w', t, times[1..], origin, m + 1, q, e);
        TimesNext(q - (m + 1), b);
      }
    }
  }

  lemma LastWindow(c: Config, w: Window, last: real, origin: real, m: nat, q: nat, e: nat)
    requires Ordered(c) && Spread(c, w, last) && w.count <= WindowBound(c) && m <= q
    requires w.start >= origin + Times(m, c.window) as real
    requires last < origin + (Times(q, c.window) + Times(e + 1, c.longDelay)) as real
    ensures w.count <= Times(q - m, WindowBound(c)) + c.longFrom + e
  {
    hide Times;
    var b, k := WindowBound(c), w.count - c.longFrom;
    TimesApart(0, q - m, b);
    TimesNext(0, b);
    if k > e {
      assert last >= w.start + Times(k, c.longDelay) as real by { LongDelays(c, w, last); }
      TimesNext(e, c.longDelay);
      TimesApart(e, k, c.longDelay);
    }
  }

  lemma LongDelays(c: Config, w: Window, last: real)
    requires Spread(c, w, last) && w.count >= c.longFrom
    ensures last >= w.start + Times(w.count - c.longFrom, c.longDelay) as real
  {
  }

  /** A window that z seconds of are over holds no more than its bound. */
  lemma InWindow(c: Config, z: nat)
    requires Ordered(c) && z < c.window
    ensures c.longFrom + z / c.longDelay <= WindowBound(c)
    ensures z < Times(z / c.longDelay + 1, c.longDelay)
  {
    assert z == (z / c.longDelay) * c.longDelay + z % c.longDelay;
    CeilBetween(c.window, c.longDelay, z / c.longDelay);
    TimesNext(z / c.longDelay, c.longDelay);
  }

  lemma FullWindow(c: Config)
    requires Ordered(c)
    ensures c.longFrom <= WindowBound(c)
    ensures c.window <= Times(WindowBound(c) - c.longFrom + 1, c.longDelay)
  {
    CeilBetween(c.window, c.longDelay, CeilDiv(c.window, c.longDelay));
    CeilBetween(c.window, c.longDelay, 0);
  }

  /** From the failure at t that opens a window on: q whole windows, and z seconds of another. */
  lemma FromOpening(c: Config, t: real, times: seq<real>, q: nat, z: nat)
    requires Ordered(c) && Spread(c, Open(t, 1), t) && z < c.window
    requires Waits(c, Open(t, 1), t + DelaySeconds(c, 1) as real, times)
    requires Last(times, t) <= t + (Times(q, c.window) + z) as real
    ensures 1 + |times| <= Times(q, WindowBound(c)) + c.longFrom + z / c.longDelay
    ensures 1 + |times| <= Times(q + 1, WindowBound(c))
  {
    hide Spread, Waits, Last, WindowBound, Times, DelaySeconds;
    TimesNext(q, c.window);
    TimesNext(0, c.window);
    InWindow(c, z);
    CountByWindows(c, Open(t, 1), t, times, t, 0, q, z / c.longDelay);
    TimesNext(q, WindowBound(c));
  }

  /** What k long delays leave of z seconds. */
  lemma Spare(z: nat, k: nat, d: nat)
    requires d > 0 && Times(k, d) <= z
    ensures k <= z / d && z < Times(k, d) + Times(z / d - k + 1, d)
  {
    assert z == (z / d) * d + z % d;
    MultiplesApart(z / d, k, d);
    assert (z / d - k + 1) * d == (z / d) * d - k * d + d;
  }

  /** k failures a long delay apart since `origin`, then a new window at t. */
  lemma LongThenFresh(c: Config, t: real, times: seq<real>, origin: real, k: nat, q: nat, z: nat)
    requires Ordered(c) && 1 <= k <= WindowBound(c) + 1 - c.longFrom && z < c.window
    requires t >= origin + Times(k, c.longDelay) as real
    requires Spread(c, Open(t, 1), t) && Waits(c, Open(t, 1), t + DelaySeconds(c, 1) as real, times)
    requires Last(times, t) <= origin + (Times(q, c.window) + z) as real
    ensures k + 1 + |times| <= Times(q + 1, WindowBound(c))
  {
    hide Spread, Waits, CeilDiv, WindowBound, Times, DelaySeconds;
    var b, d := WindowBound(c), c.longDelay;
    TimesNext(q, c.window);
    TimesNext(q, b);
    TimesNext(0, c.window);
    if Times(k, d) <= z {
      Spare(z, k, d);
      InWindow(c, z);
      CountByWindows(c, Open(t, 1), t, times, t, 0, q, z / d - k);
    } else {
      WaitsInOrder(c, Open(t, 1), t + DelaySeconds(c, 1) as real, times);
      FullWindow(c);
      TimesNext(q - 1, c.window);
      TimesNext(q - 1, b);
      CountByWindows(c, Open(t, 1), t, times, t, 0, q - 1, b - c.longFrom);
    }
  }

  /** A failure after a long count comes a long delay later. */
  lemma LongStep(c: Config, w: Window, last: real, t: real)
    requires Ordered(c) && Spread(c, w, last) && w.count >= c.longFrom
    requires t >= last + DelaySeconds(c, w.count) as real
    ensures t >= last + c.longDelay as real && w.count <= WindowBound(c) && Spread(c, Attempt(c, w, t), t)
    ensures Attempt(c, w, t).count != w.count + 1 ==> Attempt(c, w, t) == Open(t, 1)
  {
    SpreadBounded(c, w, last);
    AttemptSpreads(c, w, last, last + DelaySeconds(c, w.count) as real, t);
  }

  /**
   From a failure at `origin` whose count had reached the long threshold on.  The window has held k failures
   since, all but the first at least a long delay after the one before; `last` is the latest of them.
   */
  lemma {:induction false} FromLong(
    c: Config, w: Window, last: real, times: seq<real>, origin: real, k: nat, q: nat, z: nat)
    requires Ordered(c) && Spread(c, w, last) && w.Open? && 1 <= k <= w.count + 1 - c.longFrom && z < c.window
    requires Waits(c, w, last + DelaySeconds(c, w.count) as real, times)
    requires last >= origin + Times(k - 1, c.longDelay) as real
    requires Last(times, last) <= origin + (Times(q, c.window) + z) as real
    ensures k + |times| <= Times(q + 1, WindowBound(c))
    decreases |times|
  {
    hide WindowBound, CeilDiv, Spread, DelaySeconds, Attempt, Times;
    if times == [] {
      SpreadBounded(c, w, last);
      TimesNext(q, WindowBound(c));
    } else {
      var t := times[0];
      LongStep(c, w, last, t);
      assert Last(times[1..], t) == Last(times, last);
      TimesNext(k - 1, c.longDelay);
      if Attempt(c, w, t).count == w.count + 1 {
        FromLong(c, Attempt(c, w, t), t, times[1..], origin, k + 1, q, z);
      } else {
        LongThenFresh(c, t, times[1..], origin, k, q, z);
      }
    }
  }

  /** From any failure, at `last`: its window and the next q + 1 are full at most. */
  lemma FromAnywhere(c: Config, w: Window, last: real, times: seq<real>, q: nat, z: nat)
    requires Ordered(c) && Spread(c, w, last) && w.Open? && z < c.window
    requires Waits(c, w, last + DelaySeconds(c, w.count) as real, times)
    requires Last(times, last) <= last + (Times(q, c.window) + z) as real
    ensures w.count + |times| <= Times(q + 2, WindowBound(c))
  {
    hide *;
    assert last < w.start + c.window as real by { SpreadPositive(c, w, last); }
    var b := WindowBound(c);
    FullWindow(c);
    TimesNext(0, c.window);
    TimesNext(q, c.window);
    TimesNext(q + 1, c.window);
    TimesNext(q + 1, b);
    CountByWindows(c, w, last, times, w.start, 0, q + 1, b - c.longFrom);
  }

  // ---------- Failures in any interval ----------

  /** Failure i of such a run, from a clean account, is given `count`; the run ends within `seconds` of it. */
  ghost predicate Fails(
    c: Config, store: Store, email: string, times: seq<real>, i: nat, count: int, seconds: nat) {
    && Ordered(c) && Clean(store, email) && i < |times| && Sequential(c, store, email, times[0], times)
    && Counts(c, store, email, times)[i] == count
    && times[|times| - 1] <= times[i] + seconds as real
  }

  /** The window of failure i of a run, and how the run goes on from there. */
  lemma WindowOf(
    c: Config, store: Store, email: string, times: seq<real>, i: nat, count: int, seconds: nat) returns (w: Window)
    requires Fails(c, store, email, times, i, count, seconds)
    ensures Ordered(c) && i < |times| && w.Open? && w.count == count && Spread(c, w, times[i])
    ensures count == 1 ==> w == Open(times[i], 1)
    ensures Waits(c, w, times[i] + DelaySeconds(c, w.count) as real, times[i + 1..])
    ensures Last(times[i + 1..], times[i]) <= times[i] + seconds as real
  {
    hide Waits, Ordered, Sequential, Clean, DelaySeconds;
    FromClean(c, store, email, times);
    w := WindowAt(c, Fresh, 0.0, times[0], times, i);
  }

  /**
   From a failure that opens a window (count 1) or has reached the long threshold, the next `seconds` hold
   at most bound * (floor(seconds / WINDOW) + 1) failures, that one included.
   */
  lemma FailuresFrom(
    c: Config, store: Store, email: string, times: seq<real>, i: nat, count: int, seconds: nat)
    requires Fails(c, store, email, times, i, count, seconds)
    requires count == 1 || count >= c.longFrom
    ensures |times| - i <= WindowBound(c) * (seconds / c.window + 1)
    ensures count == 1 ==>
              |times| - i <= WindowBound(c) * (seconds / c.window) + c.longFrom + seconds % c.window / c.longDelay
  {
    var w := WindowOf(c, store, email, times, i, count, seconds);
    hide Fails, Spread, Waits, Last, WindowBound, DelaySeconds, Times;
    var q, z := seconds / c.window, seconds % c.window;
    TimesDivided(seconds, c.window);
    if count == 1 {
      FromOpening(c, times[i], times[i + 1..], q, z);
    } else {
      TimesNext(0, c.longDelay);
      FromLong(c, w, times[i], times[i + 1..], times[i], 1, q, z);
    }
    TimesCommute(q, WindowBound(c));
    TimesCommute(q + 1, WindowBound(c));
  }

  /** From any failure they hold at most bound * (floor(seconds / WINDOW) + 2). */
  lemma FailuresInAnyInterval(
    c: Config, store: Store, email: string, times: seq<real>, i: nat, count: int, seconds: nat)
    requires Fails(c, store, email, times, i, count, seconds)
    ensures |times| - i <= WindowBound(c) * (seconds / c.window + 2)
  {
    var w := WindowOf(c, store, email, times, i, count, seconds);
    hide Fails, Spread, Waits, Last, WindowBound, DelaySeconds, Times;
    TimesDivided(seconds, c.window);
    FromAnywhere(c, w, times[i], times[i + 1..], seconds / c.window, seconds % c.window);
    TimesCommute(seconds / c.window + 2, WindowBound(c));
  }

  // ---------- Exactly which failures the smaller bound holds from, with the default settings ----------

  /** The smaller bound, over every run from every failure that is given `count`. */
  ghost predicate BoundHoldsFrom(c: Config, count: int)
    requires Ordered(c)
  {
    forall store, email, times, i: nat, seconds: nat :: Fails(c, store, email, times, i, count, seconds) ==>
      |times| - i <= WindowBound(c) * (seconds / c.window + 1)
  }

  /** Failure k more of a window that opened at `start` and holds `count`: the next is late enough for its delay. */
  predicate SpacedAt(c: Config, start: real, count: nat, s: seq<real>, ready: real, k: nat)
    requires k < |s|
  {
    && start <= s[k] < start + c.window as real
    && s[k] + DelaySeconds(c, count + k + 1) as real <= (if k + 1 < |s| then s[k + 1] else ready)
  }

  /** All of s are; what follows them comes at `ready` or later. */
  predicate Spaced(c: Config, start: real, count: nat, s: seq<real>, ready: real) {
    forall k :: 0 <= k < |s| ==> SpacedAt(c, start, count, s, ready, k)
  }

  lemma WaitsSooner(c: Config, w: Window, ready: real, sooner: real, times: seq<real>)
    requires Waits(c, w, ready, times) && sooner <= ready
    ensures Waits(c, w, sooner, times)
  {
  }

  lemma SpacedTail(c: Config, start: real, count: nat, s: seq<real>, ready: real)
    requires Spaced(c, start, count, s, ready) && s != []
    ensures Spaced(c, start, count + 1, s[1..], ready)
    ensures Attempt(c, Open(start, count), s[0]) == Open(start, count + 1)
    ensures s[0] + DelaySeconds(c, count + 1) as real <= if |s| == 1 then ready else s[1]
  {
    var tail, n := s[1..], count + 1;
    assert SpacedAt(c, start, count, s, ready, 0);
    forall k | 0 <= k < |tail|
      ensures SpacedAt(c, start, n, tail, ready, k)
    {
      assert SpacedAt(c, start, count, s, ready, k + 1);
    }
  }

  lemma {:induction false} SpacedWaits(
    c: Config, start: real, count: nat, s: seq<real>, ready: real, rest: seq<real>)
    requires Spaced(c, start, count, s, ready) && Waits(c, Open(start, count + |s|), ready, rest)
    ensures Waits(c, Open(start, count), if s == [] then ready else s[0], s + rest)
    ensures forall k :: 0 <= k < |s| ==> Positions(c, Open(start, count), s + rest)[k] == count + k + 1
    decreases |s|
  {
    hide Spaced, DelaySeconds, Attempt;
    if s == [] {
      assert s + rest == rest;
    } else {
      SpacedTail(c, start, count, s, ready);
      SpacedWaits(c, start, count + 1, s[1..], ready, rest);
      assert (s + rest)[1..] == s[1..] + rest;
      var w' := Open(start, count + 1);
      WaitsSooner(c, w', if |s| == 1 then ready else s[1], s[0] + DelaySeconds(c, count + 1) as real, s[1..] + rest);
    }
  }

  /** Twelve failures of a window that opens 3629 seconds after the one before. */
  const LATE: seq<real> := [3629.0] + AFTER_OPENING
  const AFTER_OPENING: seq<real> := [
    3629.0, 3629.0, 3629.0, 3631.0, 3633.0, 3663.0, 3693.0, 3723.0, 4623.0, 5523.0, 6423.0]

  lemma LateWaits(n: nat)
    ensures Waits(DEFAULTS, Open(0.0, n), 3629.0, LATE)
  {
    assert Spaced(DEFAULTS, 3629.0, 1, AFTER_OPENING, 7323.0);
    hide Spaced;
    SpacedWaits(DEFAULTS, 3629.0, 1, AFTER_OPENING, 7323.0, []);
    assert AFTER_OPENING + [] == AFTER_OPENING == LATE[1..];
  }

  /** A run whose first window, from 0 on, holds the failures `early` besides, and then the late ones. */
  function ThenLate(early: seq<real>): seq<real> { [0.0] + (early + LATE) }

  /** The first failure of a run opens its window; with counts below the first delay, nothing is waited for. */
  lemma OpensAtZero(rest: seq<real>, ready: real)
    requires ready >= 0.0 && Waits(DEFAULTS, Open(0.0, 1), ready, rest)
    ensures Waits(DEFAULTS, Fresh, 0.0, [0.0] + rest)
    ensures Positions(DEFAULTS, Fresh, [0.0] + rest) == [1] + Positions(DEFAULTS, Open(0.0, 1), rest)
  {
    WaitsSooner(DEFAULTS, Open(0.0, 1), ready, 0.0, rest);
    assert ([0.0] + rest)[1..] == rest;
  }

  lemma ThenLateWaits(early: seq<real>)
    requires early != [] && Spaced(DEFAULTS, 0.0, 1, early, 3629.0)
    ensures Waits(DEFAULTS, Fresh, 0.0, ThenLate(early))
    ensures forall k :: 0 <= k <= |early| ==> Positions(DEFAULTS, Fresh, ThenLate(early))[k] == k + 1
  {
    assert SpacedAt(DEFAULTS, 0.0, 1, early, 3629.0, 0);
    hide Spaced, Waits, Positions, LATE;
    LateWaits(1 + |early|);
    SpacedWaits(DEFAULTS, 0.0, 1, early, 3629.0, LATE);
    OpensAtZero(early + LATE, early[0]);
  }

  lemma ThenLateRuns(store: Store, email: string, early: seq<real>)
    requires Clean(store, email) && early != [] && Spaced(DEFAULTS, 0.0, 1, early, 3629.0)
    ensures Sequential(DEFAULTS, store, email, 0.0, ThenLate(early))
    ensures forall k :: 0 <= k <= |early| ==> Counts(DEFAULTS, store, email, ThenLate(early))[k] == k + 1
  {
    hide *;
    OrderedDefaults();
    ThenLateWaits(early);
    CleanMatches(DEFAULTS, store, email, 0.0);
    SequentialIffWaits(DEFAULTS, store, email, Fresh, 0.0, ThenLate(early));
  }

  lemma OrderedDefaults()
    ensures Ordered(DEFAULTS) && WindowBound(DEFAULTS) == 12
  {
  }

  /** m failures in the window from 0 on, the last of them a second before it ends; then the late ones. */
  function Breaking(m: nat): seq<real>
    requires m >= 2
  {
    ThenLate(seq(m - 1, k => if k == m - 2 then 3599.0 else 100.0 * (k + 1) as real))
  }

  /** From every count between 2 and 8: thirteen failures in 2824 seconds. */
  lemma LateCountsBreak(store: Store, email: string, m: nat)
    requires Clean(store, email) && 2 <= m <= 8
    ensures Fails(DEFAULTS, store, email, Breaking(m), m - 1, m, 2824)
    ensures |Breaking(m)| - (m - 1) == 13
  {
    hide Clean, Sequential;
    var early := seq(m - 1, k => if k == m - 2 then 3599.0 else 100.0 * (k + 1) as real);
    ThenLateRuns(store, email, early);
  }

  /**
   With the default settings the smaller bound holds from a failure exactly if the count it is given is 1
   or has reached the long threshold.
   */
  lemma BoundExactly(count: int)
    requires 1 <= count
    ensures Ordered(DEFAULTS) && WindowBound(DEFAULTS) == 12
    ensures BoundHoldsFrom(DEFAULTS, count) <==> count == 1 || count >= DEFAULTS.longFrom
  {
    OrderedDefaults();
    hide Fails, WindowBound;
    if count == 1 || count >= DEFAULTS.longFrom {
      forall store, email, times, i: nat, seconds: nat | Fails(DEFAULTS, store, email, times, i, count, seconds)
        ensures |times| - i <= WindowBound(DEFAULTS) * (seconds / DEFAULTS.window + 1)
      {
        FailuresFrom(DEFAULTS, store, email, times, i, count, seconds);
      }
    } else {
      LateCountsBreak(map[], "", count);
      assert !(13 <= 12 * (2824 / DEFAULTS.window + 1));
    }
  }

  /** Five failures late in one window and twelve in the next: seventeen in 2828 seconds. */
  lemma IntervalsStraddle(store: Store, email: string)
    requires Clean(store, email)
    ensures var s := ThenLate([3595.0, 3595.0, 3595.0, 3597.0, 3599.0]);
            Sequential(DEFAULTS, store, email, 0.0, s) && |s| == 18 && s[17] - s[1] == 2828.0
  {
    var early := [3595.0, 3595.0, 3595.0, 3597.0, 3599.0];
    assert Spaced(DEFAULTS, 0.0, 1, early, 3629.0) by { hide Clean; }
    hide Spaced, Clean, Sequential;
    ThenLateRuns(store, email, early);
  }
}
