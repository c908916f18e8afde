/** The fixed-window limiter: the Lua counter with its TTL, its `hit` wrapper, and how many hits any
    interval of one window length can let through. Times and windows are in one unit, any real. */
module FixedWindow {

  import opened RateLimits
  import opened Wrappers

  datatype Counter = Missing | Counting(count: nat, expireAt: real)

  datatype Reply = Reply(count: nat, ttl: real)

  /** INCR, PEXPIRE on the first hit only, PTTL. */
  function Script(c: Counter, now: real, window: real): (Counter, Reply) {
    var count := if c.Missing? then 1 else c.count + 1;
    var expireAt := if c.Missing? || count == 1 then now + window else c.expireAt;
    (Counting(count, expireAt), Reply(count, expireAt - now))
  }

  /** The counter key in Redis. */
  class CounterKey {
    var counter: Counter

    constructor ()
      ensures counter == Missing
    {
      counter := Missing;
    }

    method Hit(now: real, window: real) returns (r: Reply)
      modifies this
      ensures (counter, r) == Script(old(counter), now, window)
    {
      var count := if counter.Missing? then 1 else counter.count + 1;
      var expireAt := if counter.Missing? then 0.0 else counter.expireAt;
      if count == 1 {
        expireAt := now + window;
      }
      counter := Counting(count, expireAt);
      r := Reply(count, expireAt - now);
    }
  }

  /** `RedisRateLimiter.hit`, given the script's reply or its failure; a TTL that is not positive reads as the
      whole window. */
  function HitResult(reply: Result<Reply, Outage>, times: nat, window: real, failOpen: bool)
    : Result<RateLimitResult, Outage>
  {
    match reply
    case Err(e) => OnOutage(e, times, window, failOpen)
    case Ok(r) => Ok(Counted(r.count, times, if r.ttl > 0.0 then r.ttl else window))
  }

  /** What the wrapper makes of a reply: not degraded, whatever `fail_open` says. */
  function Judged(r: Reply, times: nat, window: real): RateLimitResult {
    HitResult(Ok(r), times, window, true).value
  }

  /** A failed script is raised exactly without `fail_open`, and otherwise let through as degraded; a reply is
      never degraded nor raised. */
  lemma OutageIsExact(reply: Result<Reply, Outage>, times: nat, window: real, failOpen: bool)
    ensures var result := HitResult(reply, times, window, failOpen);
            && (reply.Err? ==> OutageHonest(result, times, window, failOpen))
            && (reply.Ok? ==> result == Ok(Judged(reply.value, times, window)) && !result.value.degraded)
  {
  }

  /** A key without a TTL left reads as one whole window to wait: a client is never told to come back at once. */
  lemma AlwaysAWait(r: Reply, times: nat, window: real)
    ensures var wait := Judged(r, times, window).resetAfterSeconds;
            && (window > 0.0 ==> wait > 0.0)
            && (wait == r.ttl || (r.ttl <= 0.0 && wait == window))
  {
  }

  /** After a hit, `remaining` is how many more the window lets through now, whatever their number; and the
      reset time is the exact time until Redis may drop the key. */
  lemma ResultIsTruthful(c: Counter, now: real, times: nat, window: real, n: nat, later: real)
    requires window > 0.0 && now <= later && (c.Counting? ==> c.count >= 1 && now < c.expireAt)
    ensures var (c1, r) := Script(c, now, window);
            var result := Judged(r, times, window);
            && result.limit == times
            && (result.allowed <==> AllowedTimes(c, [Hit(now)], window, times) == [now])
            && |AllowedTimes(c1, Repeat(now, n), window, times)|
               == (if n < result.remaining then n else result.remaining)
            && (Legal(c1, now, [Vanish(later)], window) <==> now + result.resetAfterSeconds <= later)
  {
    var (c1, r) := Script(c, now, window);
    RoomLeft(c1, now, n, times, window);
    assert [Hit(now)][1..] == [] && [Vanish(later)][1..] == [];
    assert AllowedTimes(c1, [], window, times) == [];
    assert AllowedTimes(c, [Hit(now)], window, times) == AllowedBy(c, Hit(now), window, times) + [];
    assert Legal(After(c1, Vanish(later), window), later, [], window);
  }

  lemma {:induction false} RoomLeft(c: Counter, now: real, n: nat, times: nat, window: real)
    requires c.Counting? && c.count >= 1
    ensures |AllowedTimes(c, Repeat(now, n), window, times)|
         == if c.count >= times then 0 else if n < times - c.count then n else times - c.count
    decreases n
  {
    if n > 0 {
      var rest := Repeat(now, n - 1);
      assert Repeat(now, n)[1..] == rest;
      RoomLeft(Counting(c.count + 1, c.expireAt), now, n - 1, times, window);
      assert AllowedTimes(c, Repeat(now, n), window, times)
          == AllowedBy(c, Hit(now), window, times)
             + AllowedTimes(Counting(c.count + 1, c.expireAt), rest, window, times);
    }
  }

  // -- Runs ----------------------------------------------------------------------------------

  datatype Event = Hit(now: real) | Vanish(now: real)

  function After(c: Counter, e: Event, window: real): Counter {
    if e.Hit? then Script(c, e.now, window).0 else Missing
  }

  /** Time does not go back, and the key is dropped only once its TTL has run out. */
  predicate Legal(c: Counter, since: real, es: seq<Event>, window: real)
    decreases |es|
  {
    es == [] ||
    (&& since <= es[0].now
     && (es[0].Vanish? && c.Counting? ==> c.expireAt <= es[0].now)
     && Legal(After(c, es[0], window), es[0].now, es[1..], window))
  }

  /** The times of the allowed hits, in order. */
  function AllowedTimes(c: Counter, es: seq<Event>, window: real, times: nat): seq<real>
    decreases |es|
  {
    if es == [] then []
    else AllowedBy(c, es[0], window, times) + AllowedTimes(After(c, es[0], window), es[1..], window, times)
  }

  function AllowedBy(c: Counter, e: Event, window: real, times: nat): seq<real> {
    if e.Hit? && Judged(Script(c, e.now, window).1, times, window).allowed then [e.now] else []
  }

  lemma Associative(a: seq<real>, b: seq<real>, c: seq<real>)
    ensures (a + b) + c == a + (b + c)
  {
  }

  predicate Sorted(log: seq<real>) { forall i, j | 0 <= i < j < |log| :: log[i] <= log[j] }

  /** Any `n + 1` consecutive entries span at least `window`. */
  predicate Spaced(log: seq<real>, n: nat, window: real) {
    forall i, j | 0 <= i < |log| && 0 <= j < |log| && j == i + n :: log[j] - log[i] >= window
  }

  function Most(times: nat): nat
    requires times >= 1
  {
    2 * times - 1
  }

  function Allowed(c: Counter, times: nat): nat {
    if c.Missing? then 0 else if c.count < times then c.count else times
  }

  /** The allowed hits so far: in order, none in the future, never too close. */
  predicate LogKept(log: seq<real>, now: real, window: real, times: nat)
    requires times >= 1
  {
    Sorted(log) && Spaced(log, Most(times), window) && forall i | 0 <= i < |log| :: log[i] <= now
  }

  /** The current window's allowed hits sit at the end of the log, the first of them at the window's
      start, and the window before it started at least one window earlier. */
  predicate WindowKept(c: Counter, now: real, log: seq<real>, window: real, times: nat) {
    && Allowed(c, times) <= |log|
    && (c.Counting? ==>
          var p := |log| - Allowed(c, times);
          && c.count >= 1 && times >= 1 && c.expireAt - window <= now
          && log[p] == c.expireAt - window
          && (p >= times ==> log[p - times] <= c.expireAt - window - window))
    && (c.Missing? && |log| >= times >= 1 ==> log[|log| - times] <= now - window)
  }

  predicate Kept(c: Counter, now: real, log: seq<real>, window: real, times: nat)
    requires times >= 1
  {
    LogKept(log, now, window, times) && WindowKept(c, now, log, window, times)
  }

  lemma AppendKeeps(log: seq<real>, now: real, n: nat, window: real)
    requires Sorted(log) && Spaced(log, n, window) && forall i | 0 <= i < |log| :: log[i] <= now
    requires 1 <= n <= |log| ==> now - log[|log| - n] >= window
    requires n >= 1
    ensures Sorted(log + [now]) && Spaced(log + [now], n, window)
    ensures forall i | 0 <= i < |log + [now]| :: (log + [now])[i] <= now
  {
    var log1 := log + [now];
    forall i, j | 0 <= i < |log1| && 0 <= j < |log1| && j == i + n ensures log1[j] - log1[i] >= window {
      assert j < |log| ==> log[j] - log[i] >= window;
    }
  }

  /** The entry a full bound before the end is at least one window old when another hit is allowed. */
  lemma OldEnough(c: Counter, since: real, log: seq<real>, now: real, window: real, times: nat)
    requires times >= 1 && window >= 0.0 && since <= now && Kept(c, since, log, window, times)
    requires Allowed(c, times) < times && Most(times) <= |log|
    ensures now - log[|log| - Most(times)] >= window
  {
    var p := |log| - Allowed(c, times);
    var i := |log| - Most(times);
    assert i <= p - times;
    assert log[p - times] <= now - window;
    assert i < p - times ==> log[i] <= log[p - times];
  }

  lemma WindowKeeps(c: Counter, since: real, log: seq<real>, now: real, window: real, times: nat)
    requires times >= 1 && window >= 0.0 && since <= now && WindowKept(c, since, log, window, times)
    requires Allowed(c, times) < times
    ensures WindowKept(Script(c, now, window).0, now, log + [now], window, times)
  {
    var p := |log| - Allowed(c, times);
    assert p < |log| ==> (log + [now])[p] == log[p];
    assert p >= times ==> (log + [now])[p - times] == log[p - times];
  }

  lemma DeniedKeeps(c: Counter, since: real, log: seq<real>, now: real, window: real, times: nat)
    requires times >= 1 && since <= now && WindowKept(c, since, log, window, times)
    requires Allowed(c, times) == times
    ensures WindowKept(Script(c, now, window).0, now, log, window, times)
  {
  }

  lemma HitKeeps(c: Counter, since: real, log: seq<real>, now: real, window: real, times: nat)
    requires times >= 1 && window >= 0.0 && since <= now && Kept(c, since, log, window, times)
    ensures var (c1, r) := Script(c, now, window);
            Kept(c1, now, if Judged(r, times, window).allowed then log + [now] else log, window, times)
  {
    if Judged(Script(c, now, window).1, times, window).allowed {
      if Most(times) <= |log| { OldEnough(c, since, log, now, window, times); }
      AppendKeeps(log, now, Most(times), window);
      WindowKeeps(c, since, log, now, window, times);
    } else {
      DeniedKeeps(c, since, log, now, window, times);
    }
  }

  lemma VanishKeeps(c: Counter, since: real, log: seq<real>, now: real, window: real, times: nat)
    requires times >= 1 && window >= 0.0 && since <= now && Kept(c, since, log, window, times)
    requires c.Counting? ==> c.expireAt <= now
    ensures Kept(Missing, now, log, window, times)
  {
    if c.Counting? && |log| >= times {
      var p := |log| - Allowed(c, times);
      assert |log| - times <= p;
      assert log[|log| - times] <= log[p];
    }
  }

  lemma EventKeeps(c: Counter, since: real, log: seq<real>, e: Event, window: real, times: nat)
    requires times >= 1 && window >= 0.0 && Kept(c, since, log, window, times) && since <= e.now
    requires e.Vanish? && c.Counting? ==> c.expireAt <= e.now
    ensures Kept(After(c, e, window), e.now, log + AllowedBy(c, e, window, times), window, times)
  {
    if e.Hit? {
      HitKeeps(c, since, log, e.now, window, times);
    } else {
      VanishKeeps(c, since, log, e.now, window, times);
    }
    assert log + [] == log;
  }

  lemma {:induction false} RunKeeps(c: Counter, since: real, log: seq<real>, es: seq<Event>, window: real, times: nat)
    requires times >= 1 && window >= 0.0 && Kept(c, since, log, window, times) && Legal(c, since, es, window)
    ensures Sorted(log + AllowedTimes(c, es, window, times))
    ensures Spaced(log + AllowedTimes(c, es, window, times), Most(times), window)
    decreases |es|
  {
    if es == [] {
      assert log + AllowedTimes(c, es, window, times) == log;
    } else {
      EventKeeps(c, since, log, es[0], window, times);
      var first := AllowedBy(c, es[0], window, times);
      RunKeeps(After(c, es[0], window), es[0].now, log + first, es[1..], window, times);
      Associative(log, first, AllowedTimes(After(c, es[0], window), es[1..], window, times));
    }
  }

  function Inside(log: seq<real>, start: real, window: real): set<int> {
    set i | 0 <= i < |log| && start <= log[i] < start + window
  }

  function Indices(lo: int, n: nat): (s: set<int>)
    ensures |s| == n && forall i :: i in s <==> lo <= i < lo + n
  {
    if n == 0 then {} else Indices(lo, n - 1) + {lo + n - 1}
  }

  lemma SpacedPair(log: seq<real>, n: nat, window: real, i: int, k: int)
    requires Sorted(log) && Spaced(log, n, window) && 0 <= i && i + n <= k < |log|
    ensures log[k] - log[i] >= window
  {
    assert log[i + n] - log[i] >= window;
    assert log[i + n] <= log[k];
  }

  lemma SpacedBoundsIntervals(log: seq<real>, n: nat, window: real, start: real)
    requires Sorted(log) && Spaced(log, n, window)
    ensures |Inside(log, start, window)| <= n
  {
    var inside := Inside(log, start, window);
    if inside != {} {
      var first := LeastIndex(inside);
      forall i | i in inside ensures i in Indices(first, n) {
        if first + n <= i { SpacedPair(log, n, window, first, i); }
      }
      assert inside + (Indices(first, n) - inside) == Indices(first, n);
    }
  }

  lemma {:induction false} LeastIndex(s: set<int>) returns (least: int)
    requires s != {}
    ensures least in s && forall i | i in s :: least <= i
    decreases |s|
  {
    assert (forall x :: x !in s) ==> s == {};
    var x :| x in s;
    if s - {x} == {} {
      assert s == {x} + (s - {x}) == {x};
      least := x;
    } else {
      var y := LeastIndex(s - {x});
      least := if x <= y then x else y;
      assert forall i | i in s :: i == x || i in s - {x};
    }
  }

  /** Over any run, an interval of one window length, [start, start + window), lets at most
      2 * times - 1 hits through: one fewer than the documented 2 * times, because a window starts
      with its own first hit. */
  lemma AnyWindowHoldsTwice(es: seq<Event>, since: real, window: real, times: nat, start: real)
    requires times >= 1 && window >= 0.0 && Legal(Missing, since, es, window)
    ensures |Inside(AllowedTimes(Missing, es, window, times), start, window)| <= 2 * times - 1
  {
    var log := AllowedTimes(Missing, es, window, times);
    RunKeeps(Missing, since, [], es, window, times);
    assert [] + log == log;
    SpacedBoundsIntervals(log, Most(times), window, start);
  }

  // -- The bound is reached ------------------------------------------------------------------

  function Repeat(now: real, n: nat): seq<Event> { if n == 0 then [] else [Hit(now)] + Repeat(now, n - 1) }

  function Same(now: real, n: nat): (log: seq<real>)
    ensures |log| == n && forall i | 0 <= i < n :: log[i] == now
  {
    if n == 0 then [] else [now] + Same(now, n - 1)
  }

  lemma RepeatFirst(now: real, n: nat, rest: seq<Event>)
    requires n > 0
    ensures Repeat(now, n) + rest == [Hit(now)] + (Repeat(now, n - 1) + rest)
  {
  }

  lemma SameFirst(now: real, n: nat, rest: seq<real>)
    requires n > 0
    ensures Same(now, n) + rest == [now] + (Same(now, n - 1) + rest)
  {
  }

  lemma FirstHit(c: Counter, now: real, es: seq<Event>, window: real, times: nat)
    requires c.Counting? && 1 <= c.count < times
    ensures AllowedTimes(c, [Hit(now)] + es, window, times)
         == [now] + AllowedTimes(Counting(c.count + 1, c.expireAt), es, window, times)
    ensures Legal(c, now, [Hit(now)] + es, window)
       <==> Legal(Counting(c.count + 1, c.expireAt), now, es, window)
  {
    assert ([Hit(now)] + es)[1..] == es;
  }

  lemma {:induction false} RepeatRun(c: Counter, now: real, n: nat, rest: seq<Event>, window: real, times: nat)
    requires c.Counting? && c.count >= 1 && c.count + n <= times
    ensures AllowedTimes(c, Repeat(now, n) + rest, window, times)
         == Same(now, n) + AllowedTimes(Counting(c.count + n, c.expireAt), rest, window, times)
    ensures Legal(c, now, Repeat(now, n) + rest, window)
       <==> Legal(Counting(c.count + n, c.expireAt), now, rest, window)
    decreases n
  {
    if n == 0 {
      assert Repeat(now, n) + rest == rest;
      assert Same(now, n) + AllowedTimes(c, rest, window, times) == AllowedTimes(c, rest, window, times);
    } else {
      RepeatFirst(now, n, rest);
      FirstHit(c, now, Repeat(now, n - 1) + rest, window, times);
      RepeatRun(Counting(c.count + 1, c.expireAt), now, n - 1, rest, window, times);
      SameFirst(now, n, AllowedTimes(Counting(c.count + n, c.expireAt), rest, window, times));
    }
  }

  /** One hit opens a window, the rest of it comes half a window later, a full window right after it. */
  function Burst(times: nat, window: real): seq<Event>
    requires times >= 1
  {
    [Hit(0.0)] + (Repeat(window / 2.0, times - 1) + SecondWindow(times, window))
  }

  function SecondWindow(times: nat, window: real): seq<Event>
    requires times >= 1
  {
    [Vanish(window), Hit(window)] + (Repeat(window, times - 1) + [])
  }

  lemma SecondWindowRun(times: nat, window: real)
    requires times >= 1 && window > 0.0
    ensures var c := Counting(times, window);
            && Legal(c, window / 2.0, SecondWindow(times, window), window)
            && AllowedTimes(c, SecondWindow(times, window), window, times) == [window] + Same(window, times - 1)
  {
    var es := SecondWindow(times, window);
    var rest := Repeat(window, times - 1) + [];
    var c := Counting(1, window + window);
    assert es[1..] == [Hit(window)] + rest && es[1..][1..] == rest;
    RepeatRun(c, window, times - 1, [], window, times);
    assert Legal(Missing, window, es[1..], window);
    assert AllowedTimes(c, rest, window, times) == Same(window, times - 1) + [];
    assert AllowedTimes(Missing, es[1..], window, times) == [window] + AllowedTimes(c, rest, window, times);
  }

  lemma BurstRun(times: nat, window: real)
    requires times >= 1 && window > 0.0
    ensures Legal(Missing, 0.0, Burst(times, window), window)
    ensures AllowedTimes(Missing, Burst(times, window), window, times)
         == [0.0] + (Same(window / 2.0, times - 1) + ([window] + Same(window, times - 1)))
  {
    var es := Burst(times, window);
    var c := Counting(1, window);
    assert es[1..] == Repeat(window / 2.0, times - 1) + SecondWindow(times, window);
    SecondWindowRun(times, window);
    RepeatRun(c, window / 2.0, times - 1, SecondWindow(times, window), window, times);
    LegalSince(c, window / 2.0, 0.0, es[1..], window);
    assert Script(Missing, 0.0, window).0 == c;
  }

  /** For every limit and window there is a run that lets 2 * times - 1 hits through in one window length. */
  lemma TwiceIsReached(times: nat, window: real) returns (es: seq<Event>, start: real)
    requires times >= 1 && window > 0.0
    ensures Legal(Missing, 0.0, es, window)
    ensures |Inside(AllowedTimes(Missing, es, window, times), start, window)| == 2 * times - 1
  {
    es, start := Burst(times, window), window / 2.0;
    BurstRun(times, window);
    var a, b := Same(start, times - 1), Same(window, times - 1);
    BurstInside([0.0] + (a + ([window] + b)), start, window, times);
  }

  lemma BurstInside(log: seq<real>, start: real, window: real, times: nat)
    requires times >= 1 && window > 0.0 && start == window / 2.0 && |log| == 2 * times && log[0] == 0.0
    requires forall i | 1 <= i < times :: log[i] == start
    requires forall i | times <= i < 2 * times :: log[i] == window
    ensures |Inside(log, start, window)| == 2 * times - 1
  {
    assert Inside(log, start, window) == Indices(1, 2 * times - 1);
  }

  lemma LegalSince(c: Counter, since: real, earlier: real, es: seq<Event>, window: real)
    requires earlier <= since && Legal(c, since, es, window)
    ensures Legal(c, earlier, es, window)
  {
  }
}
