// The fixed-window rate limiter: one expiring counter per key and window.
module RateLimit {
  import opened Common
  import opened Redis

  // A window length in seconds.
  type Window = n: nat | n > 0 witness 1

  // `int(time.time()) // window_seconds`; instants are microseconds since the epoch.
  function WindowOf(now: nat, seconds: Window): nat {
    now / SECOND / seconds
  }

  function FullKey(key: string, window: nat): string {
    "rl:" + key + ":" + Decimal(window)
  }

  datatype Verdict = Allowed | RateLimited

  // Limiters of any window lengths share the store.
  datatype Call = Call(key: string, limit: nat, seconds: Window, now: nat)

  // ---- specification --------------------------------------------------------------------

  // INCR then EXPIRE: the new counter value and the store it leaves.
  function Hit(store: Store<nat>, key: string, now: nat, seconds: Window): (Store<nat>, nat) {
    var full := FullKey(key, WindowOf(now, seconds));
    var value := match Get(store, full, now) case Some(v) => v + 1 case None => 1;
    (At(store, now)[full := Entry(value, now + seconds * SECOND)], value)
  }

  function VerdictOn(value: nat, limit: nat): Verdict {
    if value > limit then RateLimited else Allowed
  }

  method CheckRateLimit(redis: RedisDb<nat>, key: string, limit: nat, seconds: Window, now: nat)
    returns (verdict: Verdict)
    modifies redis
    ensures redis.store == Hit(old(redis.store), key, now, seconds).0
    ensures verdict == VerdictOn(Hit(old(redis.store), key, now, seconds).1, limit)
  {
    var full := FullKey(key, WindowOf(now, seconds));
    var found := redis.Fetch(full, now);
    var value := 1;
    if found.Some? {
      value := found.value + 1;
    }
    redis.SetEx(full, value, now + seconds * SECOND);
    if value > limit {
      return RateLimited;
    }
    return Allowed;
  }

  // ---- keys never collide ------------------------------------------------------------------

  // Distinct (key, window) pairs never share a counter.
  lemma FullKeyIsInjective(key: string, window: nat, key': string, window': nat)
    ensures FullKey(key, window) == FullKey(key', window') <==> key == key' && window == window'
  {
    if FullKey(key, window) == FullKey(key', window') {
      ColonSplitIsUnique("rl:" + key, Decimal(window), "rl:" + key', Decimal(window'));
      assert ("rl:" + key)[3..] == key && ("rl:" + key')[3..] == key';
      ParseDecimal(window);
      ParseDecimal(window');
    }
  }

  // ---- runs ------------------------------------------------------------------------------------

  function Run(cs: seq<Call>): Store<nat> {
    if cs == [] then map[]
    else
      var c := cs[|cs| - 1];
      Hit(Run(cs[..|cs| - 1]), c.key, c.now, c.seconds).0
  }

  // The counter value the last call of the run read.
  function LastValue(cs: seq<Call>): nat
    requires cs != []
  {
    var c := cs[|cs| - 1];
    Hit(Run(cs[..|cs| - 1]), c.key, c.now, c.seconds).1
  }

  predicate InWindow(c: Call, key: string, window: nat, seconds: Window) {
    c.key == key && WindowOf(c.now, seconds) == window
  }

  // How many calls of the run fell into this key's window.
  function Tally(cs: seq<Call>, key: string, window: nat, seconds: Window): nat {
    if cs == [] then 0
    else
      Tally(cs[..|cs| - 1], key, window, seconds)
      + if InWindow(cs[|cs| - 1], key, window, seconds) then 1 else 0
  }

  ghost predicate ClockRuns(cs: seq<Call>) {
    forall i, j | 0 <= i < j < |cs| :: cs[i].now <= cs[j].now
  }

  // Every limiter that uses `key` has this window length.
  ghost predicate OneLength(cs: seq<Call>, key: string, seconds: Window) {
    forall i | 0 <= i < |cs| && cs[i].key == key :: cs[i].seconds == seconds
  }

  // A hit renews the key beyond the end of its own window.
  lemma HitOutlivesItsWindow(now: nat, later: nat, seconds: Window)
    requires WindowOf(now, seconds) == WindowOf(later, seconds)
    ensures later < now + seconds * SECOND
  {
    var s, s' := now / SECOND, later / SECOND;
    DivisionBounds(s, seconds);
    DivisionBounds(s', seconds);
    assert (s' / seconds + 1) * seconds == (s / seconds) * seconds + seconds;
  }

  // The documentation has the key expire at the end of its window; it does exactly when the hit
  // comes at the window's first instant, and later otherwise.
  lemma ExpiresWithItsWindowExactlyWhen(store: Store<nat>, key: string, now: nat, seconds: Window)
    ensures var w := WindowOf(now, seconds);
            var (after, end) := (Hit(store, key, now, seconds).0, (w + 1) * seconds * SECOND);
            && FullKey(key, w) in after
            && end <= after[FullKey(key, w)].expires
            && (after[FullKey(key, w)].expires == end <==> now == w * seconds * SECOND)
  {
    var w := WindowOf(now, seconds);
    DivisionBounds(now / SECOND, seconds);
    DivisionBounds(now, SECOND);
    assert (w + 1) * seconds == w * seconds + seconds;
    MulMonotone(w * seconds, now / SECOND, SECOND);
  }

  // The counters of `key` that a call at `now` or later can still reach.
  ghost predicate Counting(store: Store<nat>, cs: seq<Call>, key: string, seconds: Window, now: nat) {
    forall later: nat | now <= later :: Counts(store, cs, key, seconds, later)
  }

  ghost predicate Counts(store: Store<nat>, cs: seq<Call>, key: string, seconds: Window, later: nat) {
    var w := WindowOf(later, seconds);
    var n := Tally(cs, key, w, seconds);
    Get(store, FullKey(key, w), later) == if n == 0 then None else Some(n)
  }

  lemma HitKeepsCounting(store: Store<nat>, cs: seq<Call>, before: nat, c: Call, key: string, seconds: Window)
    requires Counting(store, cs, key, seconds, before) && before <= c.now
    requires c.key == key ==> c.seconds == seconds
    ensures Counting(Hit(store, c.key, c.now, c.seconds).0, cs + [c], key, seconds, c.now)
    ensures c.key == key ==>
              Hit(store, key, c.now, seconds).1 == Tally(cs, key, WindowOf(c.now, seconds), seconds) + 1
  {
    var cs', store' := cs + [c], Hit(store, c.key, c.now, c.seconds).0;
    assert cs'[..|cs'| - 1] == cs;
    var w0 := WindowOf(c.now, c.seconds);
    assert Counts(store, cs, key, seconds, c.now);
    forall later: nat | c.now <= later ensures Counts(store', cs', key, seconds, later) {
      var w := WindowOf(later, seconds);
      assert Counts(store, cs, key, seconds, later);
      FullKeyIsInjective(key, w, c.key, w0);
      if key == c.key && w == w0 {
        HitOutlivesItsWindow(c.now, later, seconds);
      } else {
        assert Get(store', FullKey(key, w), later) == Get(store, FullKey(key, w), later);
      }
    }
  }

  function LastInstant(cs: seq<Call>): nat {
    if cs == [] then 0 else cs[|cs| - 1].now
  }

  lemma {:induction false} RunCounts(cs: seq<Call>, key: string, seconds: Window)
    requires ClockRuns(cs) && OneLength(cs, key, seconds)
    ensures Counting(Run(cs), cs, key, seconds, LastInstant(cs))
  {
    if cs != [] {
      var front, c := cs[..|cs| - 1], cs[|cs| - 1];
      RunCounts(front, key, seconds);
      HitKeepsCounting(Run(front), front, LastInstant(front), c, key, seconds);
      assert front + [c] == cs;
    }
  }

  // Over every run on a clock that never steps back, the value each call reads is exactly the
  // number of calls its key has made in the current window: no counter expires under its window,
  // and limiters on other keys, of whatever length, do not disturb it.
  lemma CounterIsExact(cs: seq<Call>)
    requires cs != [] && ClockRuns(cs)
    requires var c := cs[|cs| - 1]; OneLength(cs, c.key, c.seconds)
    ensures var c := cs[|cs| - 1];
            LastValue(cs) == Tally(cs, c.key, WindowOf(c.now, c.seconds), c.seconds)
  {
    var front, c := cs[..|cs| - 1], cs[|cs| - 1];
    RunCounts(front, c.key, c.seconds);
    HitKeepsCounting(Run(front), front, LastInstant(front), c, c.key, c.seconds);
  }

  // Two lengths on one key do disturb each other: window 1 of five seconds is not window 1 of ten.
  lemma MixedLengthsMiscount()
    ensures var cs := [Call("k", 1, 5, 9 * SECOND), Call("k", 1, 10, 10 * SECOND)];
            ClockRuns(cs) && Tally(cs, "k", 1, 10) == 1 && LastValue(cs) == 2
  {
    var cs := [Call("k", 1, 5, 9 * SECOND), Call("k", 1, 10, 10 * SECOND)];
    assert cs[..1] == [cs[0]] && cs[..1][..0] == [];
    assert WindowOf(9 * SECOND, 5) == 1 && WindowOf(10 * SECOND, 10) == 1 && WindowOf(9 * SECOND, 10) == 0;
    assert Run(cs[..1]) == Hit(Run([]), "k", 9 * SECOND, 5).0;
    assert Tally(cs[..1], "k", 1, 10) == Tally([], "k", 1, 10);
  }

  // ---- how many get through ---------------------------------------------------------------------

  // Was the last call of this non-empty run let through?
  predicate LastAllowed(cs: seq<Call>)
    requires cs != []
  {
    VerdictOn(LastValue(cs), cs[|cs| - 1].limit) == Allowed
  }

  function Passed(cs: seq<Call>, key: string, window: nat, seconds: Window): nat {
    if cs == [] then 0
    else
      Passed(cs[..|cs| - 1], key, window, seconds)
      + if InWindow(cs[|cs| - 1], key, window, seconds) && LastAllowed(cs) then 1 else 0
  }

  ghost predicate SameLimit(cs: seq<Call>, key: string, limit: nat) {
    forall i | 0 <= i < |cs| && cs[i].key == key :: cs[i].limit == limit
  }

  // Exactly min(limit, calls) calls of a window get through.
  lemma {:induction false} PassedIsMinimum(cs: seq<Call>, key: string, window: nat, seconds: Window, limit: nat)
    requires ClockRuns(cs) && OneLength(cs, key, seconds) && SameLimit(cs, key, limit)
    ensures var n := Tally(cs, key, window, seconds);
            Passed(cs, key, window, seconds) == if n < limit then n else limit
  {
    if cs != [] {
      PassedIsMinimum(cs[..|cs| - 1], key, window, seconds, limit);
      if cs[|cs| - 1].key == key {
        CounterIsExact(cs);
      }
    }
  }

  function PassedBetween(cs: seq<Call>, key: string, start: nat, end: nat): nat {
    if cs == [] then 0
    else
      var c := cs[|cs| - 1];
      PassedBetween(cs[..|cs| - 1], key, start, end)
      + if c.key == key && start <= c.now < end && LastAllowed(cs) then 1 else 0
  }

  lemma IntervalTouchesTwoWindows(start: nat, now: nat, seconds: Window)
    requires start <= now < start + seconds * SECOND
    ensures WindowOf(start, seconds) <= WindowOf(now, seconds) <= WindowOf(start, seconds) + 1
  {
    DivisionIsMonotone(start / SECOND, now / SECOND, seconds);
    DivisionByStep(start / SECOND, now / SECOND, seconds);
  }

  lemma {:induction false} IntervalPassesAtMostItsWindows(cs: seq<Call>, key: string, start: nat, seconds: Window)
    ensures PassedBetween(cs, key, start, start + seconds * SECOND)
         <= Passed(cs, key, WindowOf(start, seconds), seconds) + Passed(cs, key, WindowOf(start, seconds) + 1, seconds)
  {
    if cs != [] {
      var c := cs[|cs| - 1];
      IntervalPassesAtMostItsWindows(cs[..|cs| - 1], key, start, seconds);
      if start <= c.now < start + seconds * SECOND {
        IntervalTouchesTwoWindows(start, c.now, seconds);
      }
    }
  }

  // Any interval as long as a window, wherever it starts, lets at most twice the limit through.
  lemma AnyIntervalPassesAtMostTwiceTheLimit(cs: seq<Call>, key: string, start: nat, seconds: Window, limit: nat)
    requires ClockRuns(cs) && OneLength(cs, key, seconds) && SameLimit(cs, key, limit)
    ensures PassedBetween(cs, key, start, start + seconds * SECOND) <= 2 * limit
  {
    IntervalPassesAtMostItsWindows(cs, key, start, seconds);
    PassedIsMinimum(cs, key, WindowOf(start, seconds), seconds, limit);
    PassedIsMinimum(cs, key, WindowOf(start, seconds) + 1, seconds, limit);
  }
}
