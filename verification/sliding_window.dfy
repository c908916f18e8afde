/** The sliding-window-log limiter: the Lua script over one sorted set with a TTL, the `hit` wrapper,
    and the log it stands for, which neither expires nor forgets. Times are server milliseconds. */
module SlidingWindow {

  import opened RateLimits
  import opened Wrappers

  type Member = string

  /** A sorted set by member, and when its key expires. An empty set is a missing key. */
  datatype Key = Key(zset: map<Member, int>, expireAt: int)

  datatype Reply = Reply(allowed: bool, count: nat, resetMs: int)

  lemma {:induction false} LeastExists(s: set<int>)
    requires s != {}
    ensures exists x :: x in s && forall y | y in s :: x <= y
    decreases |s|
  {
    assert (forall x :: x !in s) ==> s == {};
    var x :| x in s;
    if s - {x} != {} {
      LeastExists(s - {x});
      var y :| y in s - {x} && forall z | z in s - {x} :: y <= z;
      var least := if x <= y then x else y;
      assert forall z | z in s :: z == x || z in s - {x};
      assert least in s && forall z | z in s :: least <= z;
    } else {
      assert s == {x} + (s - {x}) == {x};
    }
  }

  /** The score of `ZRANGE key 0 0`. */
  function Oldest(zset: map<Member, int>): (o: int)
    requires zset != map[]
    ensures exists m :: m in zset && zset[m] == o
    ensures forall m | m in zset :: o <= zset[m]
  {
    var scores := set m | m in zset :: zset[m];
    assert scores != {} by {
      var m :| m in zset;
      assert zset[m] in scores;
    }
    LeastExists(scores);
    var o :| o in scores && forall y | y in scores :: o <= y;
    assert forall m | m in zset :: zset[m] in scores;
    o
  }

  /** `ZREMRANGEBYSCORE key 0 cutoff`. */
  function Trim(zset: map<Member, int>, cutoff: int): map<Member, int> {
    map m | m in zset && !(0 <= zset[m] <= cutoff) :: zset[m]
  }

  /** The script, on what it finds in the key. */
  function Script(k: Key, now: nat, window: nat, limit: int, member: Member): (Key, Reply) {
    var live := Trim(k.zset, now - window);
    if |live| < limit then
      (Key(live[member := now], now + window), Reply(true, |live| + 1, window))
    else
      (Key(live, now + window),
       Reply(false, |live|, if live == map[] then window else Oldest(live) + window - now))
  }

  /** The key in Redis; `Hit` runs the script once, command by command. */
  class SlidingWindowKey {
    var zset: map<Member, int>
    var expireAt: int

    function Contents(): Key
      reads this
    {
      Key(zset, expireAt)
    }

    method Hit(now: nat, window: nat, limit: int, member: Member) returns (r: Reply)
      modifies this
      ensures (Contents(), r) == Script(old(Contents()), now, window, limit, member)
    {
      zset := Trim(zset, now - window);
      var count := |zset|;
      if count < limit {
        zset := zset[member := now];
        expireAt := now + window;
        return Reply(true, count + 1, window);
      }
      var resetMs: int := window;
      if zset != map[] {
        resetMs := Oldest(zset) + window - now;
      }
      expireAt := now + window;
      return Reply(false, count, resetMs);
    }
  }

  // -- Runs -------------------------------------------------------------------------------

  /** What happens to one key: hits, and Redis dropping it once its TTL has run out. */
  datatype Event = Hit(now: nat, member: Member) | Vanish(now: nat)

  /** Server time never goes back, and a key is dropped only after its expiry. Whether an expired key is
      still seen by a hit is left open, so no detail of Redis's own expiry matters. */
  predicate Legal(k: Key, es: seq<Event>, since: nat, window: nat, limit: int)
    decreases |es|
  {
    es == [] ||
    (&& since <= es[0].now
     && (es[0].Vanish? ==> k.expireAt <= es[0].now)
     && Legal(After(k, es[0], window, limit), es[1..], es[0].now, window, limit))
  }

  function After(k: Key, e: Event, window: nat, limit: int): Key {
    match e
    case Hit(now, member) => Script(k, now, window, limit, member).0
    case Vanish(now) => Key(map[], now)
  }

  function Replies(k: Key, es: seq<Event>, window: nat, limit: int): seq<Reply>
    decreases |es|
  {
    if es == [] then []
    else (match es[0]
          case Hit(now, member) => [Script(k, now, window, limit, member).1]
          case Vanish(_) => [])
         + Replies(After(k, es[0], window, limit), es[1..], window, limit)
  }

  // -- The log it stands for ------------------------------------------------------------------

  /** Every allowed hit ever, with its time. */
  type Log = map<Member, int>

  function InWindow(log: Log, now: int, window: nat): set<Member> {
    set m | m in log && now - window < log[m] <= now
  }

  function LogHit(log: Log, now: nat, window: nat, limit: int, member: Member): (Log, Reply) {
    var live := map m | m in InWindow(log, now, window) :: log[m];
    if |InWindow(log, now, window)| < limit then
      (log[member := now], Reply(true, |InWindow(log, now, window)| + 1, window))
    else
      (log, Reply(false, |InWindow(log, now, window)|, if live == map[] then window else Oldest(live) + window - now))
  }

  function LogAfter(log: Log, e: Event, window: nat, limit: int): Log {
    match e
    case Hit(now, member) => LogHit(log, now, window, limit, member).0
    case Vanish(_) => log
  }

  function LogRun(log: Log, es: seq<Event>, window: nat, limit: int): Log
    decreases |es|
  {
    if es == [] then log else LogRun(LogAfter(log, es[0], window, limit), es[1..], window, limit)
  }

  function LogReplies(log: Log, es: seq<Event>, window: nat, limit: int): seq<Reply>
    decreases |es|
  {
    if es == [] then []
    else (match es[0]
          case Hit(now, member) => [LogHit(log, now, window, limit, member).1]
          case Vanish(_) => [])
         + LogReplies(LogAfter(log, es[0], window, limit), es[1..], window, limit)
  }

  /** The key agrees with the log on everything still inside the window, and its TTL outlives it. */
  ghost predicate Stands(k: Key, log: Log, now: int, window: nat) {
    && (forall m | m in log :: 0 <= log[m] <= now)
    && (forall m | m in k.zset :: m in log && k.zset[m] == log[m] && log[m] + window <= k.expireAt)
    && (forall m | m in log && now - window < log[m] :: m in k.zset)
  }

  lemma HitStands(k: Key, log: Log, since: int, now: nat, window: nat, limit: int, member: Member)
    requires Stands(k, log, since, window) && since <= now
    ensures Script(k, now, window, limit, member).1 == LogHit(log, now, window, limit, member).1
    ensures Stands(Script(k, now, window, limit, member).0, LogHit(log, now, window, limit, member).0, now, window)
  {
    var live := Trim(k.zset, now - window);
    var ideal := map m | m in InWindow(log, now, window) :: log[m];
    assert live == ideal;
    assert live.Keys == InWindow(log, now, window);
    assert |live| == |live.Keys|;
  }

  lemma {:induction false} RunStands(k: Key, log: Log, since: nat, es: seq<Event>, window: nat, limit: int)
    requires Stands(k, log, since, window) && Legal(k, es, since, window, limit)
    ensures Replies(k, es, window, limit) == LogReplies(log, es, window, limit)
    decreases |es|
  {
    if es != [] {
      match es[0] {
        case Hit(now, member) => HitStands(k, log, since, now, window, limit, member);
        case Vanish(now) =>
      }
      RunStands(After(k, es[0], window, limit), LogAfter(log, es[0], window, limit), es[0].now, es[1..], window, limit);
    }
  }

  /** The script answers every run exactly like the log that never expires and never forgets: trimming
      and PEXPIRE cannot be observed, whenever Redis drops the key. */
  lemma ExpiryIsUnobservable(expireAt: int, es: seq<Event>, window: nat, limit: int)
    requires Legal(Key(map[], expireAt), es, 0, window, limit)
    ensures Replies(Key(map[], expireAt), es, window, limit) == LogReplies(map[], es, window, limit)
  {
    RunStands(Key(map[], expireAt), map[], 0, es, window, limit);
  }

  // -- No interval of window length holds more than limit allowed hits ------------------------

  predicate Ordered(es: seq<Event>, since: int) {
    && (forall i | 0 <= i < |es| :: since <= es[i].now)
    && (forall i, j | 0 <= i < j < |es| :: es[i].now <= es[j].now)
  }

  /** The members drawn by different hits differ (they are uuid4 hex strings). */
  predicate Distinct(log: Log, es: seq<Event>) {
    && (forall i | 0 <= i < |es| && es[i].Hit? :: es[i].member !in log)
    && (forall i, j | 0 <= i < j < |es| && es[i].Hit? && es[j].Hit? :: es[i].member != es[j].member)
  }

  function Between(log: Log, start: int, window: nat): set<Member> {
    set m | m in log && start < log[m] <= start + window
  }

  ghost predicate Bounded(log: Log, now: int, window: nat, limit: nat) {
    && (forall m | m in log :: 0 <= log[m] <= now)
    && (forall start: int :: |Between(log, start, window)| <= limit)
  }

  lemma SubsetSize<T>(a: set<T>, b: set<T>)
    requires a <= b
    ensures |a| <= |b|
  {
    assert a + (b - a) == b;
  }

  lemma HitBounded(log: Log, since: int, now: nat, window: nat, limit: nat, member: Member)
    requires Bounded(log, since, window, limit) && since <= now && member !in log
    ensures Bounded(LogHit(log, now, window, limit, member).0, now, window, limit)
  {
    var log1 := LogHit(log, now, window, limit, member).0;
    if log1 != log {
      forall start: int ensures |Between(log1, start, window)| <= limit {
        if start < now <= start + window {
          var live := InWindow(log, now, window);
          assert Between(log1, start, window) <= live + {member};
          SubsetSize(Between(log1, start, window), live + {member});
        } else {
          assert Between(log1, start, window) == Between(log, start, window);
        }
      }
    }
  }

  lemma {:induction false} RunBounded(log: Log, since: nat, es: seq<Event>, window: nat, limit: nat) returns (end: nat)
    requires Bounded(log, since, window, limit) && Ordered(es, since) && Distinct(log, es)
    ensures Bounded(LogRun(log, es, window, limit), end, window, limit)
    ensures end == if es == [] then since else es[|es| - 1].now
    decreases |es|
  {
    end := since;
    if es != [] {
      var log1 := LogAfter(log, es[0], window, limit);
      if es[0].Hit? {
        HitBounded(log, since, es[0].now, window, limit, es[0].member);
      }
      assert forall i | 0 <= i < |es| - 1 :: es[1..][i] == es[i + 1];
      end := RunBounded(log1, es[0].now, es[1..], window, limit);
    }
  }

  /** Over any run, every interval (start, start + window] holds at most `limit` allowed hits. */
  lemma AnyIntervalHoldsTheLimit(es: seq<Event>, window: nat, limit: nat, start: int)
    requires Ordered(es, 0) && Distinct(map[], es)
    ensures |Between(LogRun(map[], es, window, limit), start, window)| <= limit
  {
    BoundedFromNothing(es, window, limit);
  }

  // -- reset_ms is exact ------------------------------------------------------------------

  lemma WindowIsInterval(log: Log, now: int, window: nat)
    ensures InWindow(log, now, window) == Between(log, now - window, window)
  {
  }

  /** One retry after a denial: refused before `resetMs` has passed, and not after. */
  lemma ResetOneHit(log: Log, now: nat, window: nat, limit: nat, member: Member, later: nat, other: Member)
    requires Bounded(log, now, window, limit) && limit >= 1 && now <= later
    requires !LogHit(log, now, window, limit, member).1.allowed
    ensures var reset := LogHit(log, now, window, limit, member).1.resetMs;
            && 1 <= reset <= window
            && (LogHit(log, later, window, limit, other).1.allowed <==> now + reset <= later)
  {
    var live := InWindow(log, now, window);
    var scores := map m | m in live :: log[m];
    WindowIsInterval(log, now, window);
    assert |live| == limit;
    assert live != {};
    var anyone :| anyone in live;
    assert anyone in scores;
    var o := Oldest(scores);
    var first :| first in scores && scores[first] == o;
    var still := InWindow(log, later, window);
    assert still <= live;
    assert forall m | m in live :: m in scores && scores[m] == log[m];
    assert LogHit(log, now, window, limit, member).1.resetMs == o + window - now;
    if later < o + window {
      assert live <= still;
      assert live == still;
    } else {
      assert first !in still;
      SubsetSize(still, live - {first});
      assert |live - {first}| == |live| - 1;
    }
  }

  /** After a denial at `now` with reset r, however many retries follow: all of those before now + r are
      denied and change nothing, and the first one at or after now + r is allowed. */
  lemma {:induction false} ResetIsExact(log: Log, now: nat, window: nat, limit: nat, member: Member,
                                        tries: seq<Event>, later: nat, other: Member)
    requires Bounded(log, now, window, limit) && limit >= 1
    requires !LogHit(log, now, window, limit, member).1.allowed
    requires Ordered(tries, now)
    requires forall i | 0 <= i < |tries| ::
               tries[i].now < now + LogHit(log, now, window, limit, member).1.resetMs
    requires now + LogHit(log, now, window, limit, member).1.resetMs <= later
    ensures LogRun(log, tries, window, limit) == log
    ensures forall i | 0 <= i < |LogReplies(log, tries, window, limit)| ::
              !LogReplies(log, tries, window, limit)[i].allowed
    ensures LogHit(LogRun(log, tries, window, limit), later, window, limit, other).1.allowed
    decreases |tries|
  {
    if tries == [] {
      ResetOneHit(log, now, window, limit, member, later, other);
    } else {
      if tries[0].Hit? {
        ResetOneHit(log, now, window, limit, member, tries[0].now, tries[0].member);
      }
      assert forall i | 0 <= i < |tries| - 1 :: tries[1..][i] == tries[i + 1];
      ResetIsExact(log, now, window, limit, member, tries[1..], later, other);
    }
  }

  /** The same for any denial a run reaches: `resetMs` is the exact time until a retry is allowed. */
  lemma RetryAfterIsExact(es: seq<Event>, now: nat, window: nat, limit: nat, member: Member,
                          tries: seq<Event>, later: nat, other: Member)
    requires limit >= 1 && Ordered(es + [Hit(now, member)], 0) && Distinct(map[], es)
    requires !LogHit(LogRun(map[], es, window, limit), now, window, limit, member).1.allowed
    requires Ordered(tries, now)
    ensures var log := LogRun(map[], es, window, limit);
            var reset := LogHit(log, now, window, limit, member).1.resetMs;
            && 1 <= reset <= window
            && ((forall i | 0 <= i < |tries| :: tries[i].now < now + reset) ==>
                  && LogRun(log, tries, window, limit) == log
                  && (forall i | 0 <= i < |LogReplies(log, tries, window, limit)| ::
                        !LogReplies(log, tries, window, limit)[i].allowed)
                  && (now + reset <= later ==> LogHit(log, later, window, limit, other).1.allowed))
  {
    var log := LogRun(map[], es, window, limit);
    var reset := LogHit(log, now, window, limit, member).1.resetMs;
    var all := es + [Hit(now, member)];
    assert all[|es|].now == now;
    assert forall i | 0 <= i < |es| :: es[i] == all[i];
    var empty: Log := map[];
    forall s: int ensures |Between(empty, s, window)| <= limit {
      assert Between(empty, s, window) == {};
    }
    var end := RunBounded(empty, 0, es, window, limit);
    assert end <= now;
    ResetOneHit(log, now, window, limit, member, now, other);
    if forall i | 0 <= i < |tries| :: tries[i].now < now + reset {
      ResetIsExact(log, now, window, limit, member, tries, now + reset, other);
      if now + reset <= later {
        ResetOneHit(log, now, window, limit, member, later, other);
      }
    }
  }

  // -- The wrapper ---------------------------------------------------------------------------

  /** `RedisSlidingWindowRateLimiter.hit`, given the script's reply or its failure. */
  function HitResult(reply: Result<Reply, Outage>, times: nat, seconds: real, failOpen: bool)
    : Result<RateLimitResult, Outage>
  {
    match reply
    case Err(e) => OnOutage(e, times, seconds, failOpen)
    case Ok(r) =>
      var reset := r.resetMs as real / 1000.0;
      Ok(RateLimitResult(r.allowed, if times > r.count then times - r.count else 0,
                         if reset > 0.0 then reset else 0.0, times, false))
  }

  /** A failed script is raised exactly without `fail_open`, and otherwise let through as degraded. A reply is
      never raised nor degraded; its limit is `times`, and after an allowed hit its reset time the window. */
  lemma OutageIsExact(reply: Result<Reply, Outage>, times: nat, seconds: real, failOpen: bool)
    ensures var result := HitResult(reply, times, seconds, failOpen);
            && (reply.Err? ==> OutageHonest(result, times, seconds, failOpen))
            && (reply.Ok? ==> result.Ok? && !result.value.degraded && result.value.limit == times)
  {
  }

  lemma AllowedReset(k: Key, now: nat, window: nat, times: nat, member: Member, seconds: real, failOpen: bool)
    ensures var r := Script(k, now, window, times, member).1;
            var result := HitResult(Ok(r), times, seconds, failOpen);
            result.Ok? && (result.value.allowed ==> result.value.resetAfterSeconds == window as real / 1000.0)
  {
  }

  /** What a caller is told: after an allowed hit, `remaining` more are allowed right away; after a denied
      one none is, and waiting the reported time is neither too short nor longer than the window. */
  lemma ResultIsTruthful(log: Log, now: nat, window: nat, times: nat, member: Member, seconds: real)
    requires Bounded(log, now, window, times) && times >= 1 && member !in log
    ensures var (log1, r) := LogHit(log, now, window, times, member);
            var result := HitResult(Ok(r), times, seconds, true).value;
            && !result.degraded && result.limit == times
            && (window > 0 ==> result.remaining == times - |InWindow(log1, now, window)|)
            && (result.allowed <==> |InWindow(log, now, window)| < times)
            && (!result.allowed ==> 0.0 < result.resetAfterSeconds <= window as real / 1000.0)
  {
    var (log1, r) := LogHit(log, now, window, times, member);
    WindowIsInterval(log, now, window);
    if r.allowed {
      if window > 0 {
        assert InWindow(log1, now, window) == InWindow(log, now, window) + {member};
      }
      assert |InWindow(log, now, window)| < times;
    } else {
      WindowIsInterval(log, now, window);
      assert |InWindow(log, now, window)| == times;
      ResetOneHit(log, now, window, times, member, now, member);
    }
  }

  // -- The same of the script itself ----------------------------------------------------------------------

  function KeyRun(k: Key, es: seq<Event>, window: nat, limit: int): Key
    decreases |es|
  {
    if es == [] then k else KeyRun(After(k, es[0], window, limit), es[1..], window, limit)
  }

  function AdmittedBy(k: Key, before: Log, e: Event, window: nat, limit: int): Log {
    match e
    case Hit(now, member) => if Script(k, now, window, limit, member).1.allowed then before[member := now] else before
    case Vanish(_) => before
  }

  /** The hits the script allows in a run, with their times, added to those before. */
  function Admitted(k: Key, before: Log, es: seq<Event>, window: nat, limit: int): Log
    decreases |es|
  {
    if es == [] then before
    else
      Admitted(After(k, es[0], window, limit), AdmittedBy(k, before, es[0], window, limit), es[1..], window, limit)
  }

  function LastTime(es: seq<Event>, since: int): int { if es == [] then since else es[|es| - 1].now }

  lemma EventAdmits(k: Key, log: Log, since: int, e: Event, window: nat, limit: int)
    requires Stands(k, log, since, window) && since <= e.now && (e.Vanish? ==> k.expireAt <= e.now)
    ensures AdmittedBy(k, log, e, window, limit) == LogAfter(log, e, window, limit)
    ensures Stands(After(k, e, window, limit), LogAfter(log, e, window, limit), e.now, window)
  {
    match e
    case Hit(now, member) => HitStands(k, log, since, now, window, limit, member);
    case Vanish(_) =>
  }

  lemma {:induction false} RunAdmits(k: Key, log: Log, since: nat, es: seq<Event>, window: nat, limit: int)
    requires Stands(k, log, since, window) && Legal(k, es, since, window, limit)
    ensures Admitted(k, log, es, window, limit) == LogRun(log, es, window, limit)
    ensures Stands(KeyRun(k, es, window, limit), LogRun(log, es, window, limit), LastTime(es, since), window)
    decreases |es|
  {
    if es != [] {
      EventAdmits(k, log, since, es[0], window, limit);
      var log1 := LogAfter(log, es[0], window, limit);
      RunAdmits(After(k, es[0], window, limit), log1, es[0].now, es[1..], window, limit);
    }
  }

  lemma {:induction false} LegalIsOrdered(k: Key, es: seq<Event>, since: nat, window: nat, limit: int)
    requires Legal(k, es, since, window, limit)
    ensures Ordered(es, since)
    decreases |es|
  {
    if es != [] {
      LegalIsOrdered(After(k, es[0], window, limit), es[1..], es[0].now, window, limit);
      assert forall i | 1 <= i < |es| :: es[i] == es[1..][i - 1];
    }
  }

  lemma BoundedFromNothing(es: seq<Event>, window: nat, limit: nat)
    requires Ordered(es, 0) && Distinct(map[], es)
    ensures Bounded(LogRun(map[], es, window, limit), LastTime(es, 0), window, limit)
  {
    var log: Log := map[];
    forall s: int ensures |Between(log, s, window)| <= limit {
      assert Between(log, s, window) == {};
    }
    var end := RunBounded(log, 0, es, window, limit);
  }

  /** In every run of the script, whenever Redis drops the key, every interval (start, start + window] holds
      at most `limit` hits it allowed. */
  lemma ScriptKeepsTheLimit(expireAt: int, es: seq<Event>, window: nat, limit: nat, start: int)
    requires Legal(Key(map[], expireAt), es, 0, window, limit) && Distinct(map[], es)
    ensures |Between(Admitted(Key(map[], expireAt), map[], es, window, limit), start, window)| <= limit
  {
    RunAdmits(Key(map[], expireAt), map[], 0, es, window, limit);
    LegalIsOrdered(Key(map[], expireAt), es, 0, window, limit);
    BoundedFromNothing(es, window, limit);
  }

  /** Whenever a run of the script ends in a denial, its `reset_ms` is exact: it lies in 1..window, every try
      before that time is denied, and the next one is allowed if and only if that time has come. */
  lemma ScriptResetIsExact(expireAt: int, es: seq<Event>, now: nat, window: nat, limit: nat, member: Member,
                           tries: seq<Event>, later: nat, other: Member)
    requires limit >= 1 && Legal(Key(map[], expireAt), es, 0, window, limit) && Distinct(map[], es)
    requires LastTime(es, 0) <= now
    requires var (k, r) := Script(KeyRun(Key(map[], expireAt), es, window, limit), now, window, limit, member);
             && !r.allowed && Legal(k, tries, now, window, limit) && LastTime(tries, now) <= later
             && forall i | 0 <= i < |tries| :: tries[i].now < now + r.resetMs
    ensures var (k, r) := Script(KeyRun(Key(map[], expireAt), es, window, limit), now, window, limit, member);
            && 1 <= r.resetMs <= window
            && (forall i | 0 <= i < |Replies(k, tries, window, limit)| :: !Replies(k, tries, window, limit)[i].allowed)
            && (Script(KeyRun(k, tries, window, limit), later, window, limit, other).1.allowed <==>
                now + r.resetMs <= later)
  {
    var k0 := KeyRun(Key(map[], expireAt), es, window, limit);
    var log := Admitted(Key(map[], expireAt), map[], es, window, limit);
    RunAdmits(Key(map[], expireAt), map[], 0, es, window, limit);
    LegalIsOrdered(Key(map[], expireAt), es, 0, window, limit);
    BoundedFromNothing(es, window, limit);
    assert Bounded(log, now, window, limit);
    HitStands(k0, log, LastTime(es, 0), now, window, limit, member);
    var (k, r) := Script(k0, now, window, limit, member);
    LegalIsOrdered(k, tries, now, window, limit);
    RunStands(k, log, now, tries, window, limit);
    RunAdmits(k, log, now, tries, window, limit);
    ResetIsExact(log, now, window, limit, member, tries, now + r.resetMs, other);
    HitStands(KeyRun(k, tries, window, limit), log, LastTime(tries, now), later, window, limit, other);
    ResetOneHit(log, now, window, limit, member, later, other);
  }

  /** What the caller of a script run is told: whether fewer than `times` allowed hits lie in the window; how
      many more the key has room for; and after a denial a positive time, at most the window. */
  lemma ScriptResultIsTruthful(expireAt: int, es: seq<Event>, now: nat, window: nat, times: nat, member: Member,
                               seconds: real)
    requires times >= 1 && window > 0 && Legal(Key(map[], expireAt), es, 0, window, times) && LastTime(es, 0) <= now
    requires Distinct(map[], es + [Hit(now, member)])
    ensures var log := Admitted(Key(map[], expireAt), map[], es, window, times);
            var (k, r) := Script(KeyRun(Key(map[], expireAt), es, window, times), now, window, times, member);
            var result := HitResult(Ok(r), times, seconds, true).value;
            && !result.degraded && result.limit == times
            && (result.allowed <==> |InWindow(log, now, window)| < times)
            && result.remaining == times - |k.zset|
            && (!result.allowed ==> 0.0 < result.resetAfterSeconds <= window as real / 1000.0)
  {
    var all := es + [Hit(now, member)];
    assert forall i | 0 <= i < |es| :: all[i] == es[i];
    assert all[|es|].Hit? && all[|es|].member == member;
    var k0 := KeyRun(Key(map[], expireAt), es, window, times);
    RunAdmits(Key(map[], expireAt), map[], 0, es, window, times);
    LegalIsOrdered(Key(map[], expireAt), es, 0, window, times);
    BoundedFromNothing(es, window, times);
    NewMember(Key(map[], expireAt), map[], es, window, times, member);
    var log := Admitted(Key(map[], expireAt), map[], es, window, times);
    TruthfulHere(k0, log, LastTime(es, 0), now, window, times, member, seconds);
  }

  lemma {:induction false} NewMember(k: Key, before: Log, es: seq<Event>, window: nat, limit: int, member: Member)
    requires member !in before && forall i | 0 <= i < |es| && es[i].Hit? :: es[i].member != member
    ensures member !in Admitted(k, before, es, window, limit)
    decreases |es|
  {
    if es != [] {
      assert forall i | 0 <= i < |es| - 1 :: es[1..][i] == es[i + 1];
      var log := AdmittedBy(k, before, es[0], window, limit);
      NewMember(After(k, es[0], window, limit), log, es[1..], window, limit, member);
    }
  }

  lemma TruthfulHere(k: Key, log: Log, since: int, now: nat, window: nat, times: nat, member: Member, seconds: real)
    requires Stands(k, log, since, window) && since <= now && Bounded(log, since, window, times)
    requires member !in log && times >= 1 && window > 0
    ensures var (k1, r) := Script(k, now, window, times, member);
            var result := HitResult(Ok(r), times, seconds, true).value;
            && !result.degraded && result.limit == times
            && (result.allowed <==> |InWindow(log, now, window)| < times)
            && result.remaining == times - |k1.zset|
            && (!result.allowed ==> 0.0 < result.resetAfterSeconds <= window as real / 1000.0)
  {
    assert Bounded(log, now, window, times);
    HitStands(k, log, since, now, window, times, member);
    if !Script(k, now, window, times, member).1.allowed {
      ResetOneHit(log, now, window, times, member, now, member);
    }
    SizeAfter(k, log, since, now, window, times, member);
  }

  lemma SizeAfter(k: Key, log: Log, since: int, now: nat, window: nat, times: nat, member: Member)
    requires Stands(k, log, since, window) && since <= now && Bounded(log, now, window, times)
    requires member !in log && times >= 1
    ensures var (k1, r) := Script(k, now, window, times, member); r.count == |k1.zset| <= times
  {
    var live := Trim(k.zset, now - window);
    WindowIsInterval(log, now, window);
    assert live.Keys == InWindow(log, now, window);
    assert |live| == |live.Keys|;
    assert live[member := now].Keys == live.Keys + {member};
    assert |live[member := now]| == |live[member := now].Keys|;
  }
}
