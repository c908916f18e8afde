/** The in-process limiter: fixed windows in a recency-ordered map that drops its oldest keys, against
    the same limiter with no bound on the map. */
module MemoryLimiter {

  import opened RateLimits
  import opened Wrappers
  import FixedWindow

  /** Keys are only ever compared for equality. */
  type Key = nat

  datatype Window = Window(start: real, count: nat)

  datatype Hit = Hit(key: Key, now: real, times: nat, seconds: real)

  // -- One hit on one window -----------------------------------------------------------------

  /** The window a hit counts in: the stored one, or a new one when there is none or it has run out. */
  function Counting(found: Option<Window>, h: Hit): Window {
    match found
    case None => Window(h.now, 1)
    case Some(w) => if h.now - w.start >= h.seconds then Window(h.now, 1) else Window(w.start, w.count + 1)
  }

  function Answer(w: Window, h: Hit): RateLimitResult {
    var left := h.seconds - (h.now - w.start);
    Counted(w.count, h.times, if left > 0.0 then left else 0.0)
  }

  function Find(windows: map<Key, Window>, key: Key): Option<Window> {
    if key in windows then Some(windows[key]) else None
  }

  // -- The recency order of an OrderedDict -----------------------------------------------------

  predicate Distinct(order: seq<Key>) { forall i, j | 0 <= i < j < |order| :: order[i] != order[j] }

  function Remove(order: seq<Key>, key: Key): (r: seq<Key>)
    ensures |r| <= |order| && forall k :: k in r <==> k in order && k != key
  {
    if order == [] then []
    else
      var (init, last) := (order[..|order| - 1], order[|order| - 1]);
      if last == key then Remove(init, key) else Remove(init, key) + [last]
  }

  /** Storing a key and `move_to_end`. */
  function Touch(order: seq<Key>, key: Key): seq<Key> { Remove(order, key) + [key] }

  function Newest(order: seq<Key>, n: nat): seq<Key> { if |order| > n then order[|order| - n..] else order }

  lemma {:induction false} RemoveConcat(a: seq<Key>, b: seq<Key>, key: Key)
    ensures Remove(a + b, key) == Remove(a, key) + Remove(b, key)
  {
    if b == [] {
      assert a + b == a;
    } else {
      assert (a + b)[..|a + b| - 1] == a + b[..|b| - 1];
      RemoveConcat(a, b[..|b| - 1], key);
    }
  }

  lemma {:induction false} RemoveSize(order: seq<Key>, key: Key)
    requires Distinct(order)
    ensures |Remove(order, key)| == if key in order then |order| - 1 else |order|
    ensures key !in order ==> Remove(order, key) == order
    ensures Distinct(Remove(order, key))
  {
    if order != [] {
      var init, last := order[..|order| - 1], order[|order| - 1];
      RemoveSize(init, key);
      assert order == init + [last];
      assert last !in init;
    }
  }

  lemma LastOf(a: seq<Key>, b: seq<Key>, n: nat)
    requires |b| >= n
    ensures Newest(a + b, n) == Newest(b, n)
  {
    assert Newest(a + b, n) == (a + b)[|a| + |b| - n..] == b[|b| - n..];
  }

  lemma TouchNewest(order: seq<Key>, n: nat, key: Key)
    requires Distinct(order)
    ensures Newest(Touch(Newest(order, n), key), n) == Newest(Touch(order, key), n)
  {
    if |order| > n {
      var a, b := order[..|order| - n], order[|order| - n..];
      assert order == a + b;
      RemoveConcat(a, b, key);
      RemoveSize(b, key);
      LastOf(Remove(a, key), Touch(b, key), n);
      assert Touch(order, key) == Remove(a, key) + Touch(b, key);
    }
  }

  // -- The map with its bound and without ------------------------------------------------------

  datatype Windows = Windows(order: seq<Key>, stored: map<Key, Window>)

  const EMPTY := Windows([], map[])

  function Store(ws: Windows, h: Hit): Windows {
    Windows(Touch(ws.order, h.key), ws.stored[h.key := Counting(Find(ws.stored, h.key), h)])
  }

  /** `popitem(last=False)`. */
  function DropOldest(ws: Windows): Windows
    requires ws.order != []
  {
    Windows(ws.order[1..], ws.stored - {ws.order[0]})
  }

  /** Dropping the oldest until at most `maxKeys` entries are left. */
  function Evict(ws: Windows, maxKeys: nat): Windows
    decreases |ws.order|
  {
    if |ws.order| > maxKeys then Evict(DropOldest(ws), maxKeys) else ws
  }

  function Bounded(hs: seq<Hit>, maxKeys: nat): Windows {
    if hs == [] then EMPTY else Evict(Store(Bounded(hs[..|hs| - 1], maxKeys), hs[|hs| - 1]), maxKeys)
  }

  function Unbounded(hs: seq<Hit>): Windows {
    if hs == [] then EMPTY else Store(Unbounded(hs[..|hs| - 1]), hs[|hs| - 1])
  }

  ghost predicate Valid(ws: Windows) {
    Distinct(ws.order) && forall k :: k in ws.stored <==> k in ws.order
  }

  lemma StoreValid(ws: Windows, h: Hit)
    requires Valid(ws)
    ensures Valid(Store(ws, h))
  {
    RemoveSize(ws.order, h.key);
  }

  lemma DropValid(ws: Windows)
    requires Valid(ws) && ws.order != []
    ensures Valid(DropOldest(ws))
    ensures forall k | k in DropOldest(ws).stored :: k in ws.stored && DropOldest(ws).stored[k] == ws.stored[k]
  {
    assert ws.order == [ws.order[0]] + ws.order[1..];
  }

  lemma NewestDrop(order: seq<Key>, n: nat)
    requires |order| > n
    ensures Newest(order[1..], n) == Newest(order, n)
  {
    var rest := order[1..];
    var cut := |order| - n;
    assert Newest(rest, n) == rest[cut - 1..];
    assert rest[cut - 1..] == order[cut..];
  }

  predicate Agrees(kept: map<Key, Window>, all: map<Key, Window>) {
    forall k | k in kept :: k in all && kept[k] == all[k]
  }

  lemma {:induction false} EvictKeepsNewest(ws: Windows, maxKeys: nat)
    requires Valid(ws)
    ensures Valid(Evict(ws, maxKeys)) && Evict(ws, maxKeys).order == Newest(ws.order, maxKeys)
    ensures Agrees(Evict(ws, maxKeys).stored, ws.stored)
    decreases |ws.order|
  {
    if |ws.order| > maxKeys {
      DropValid(ws);
      NewestDrop(ws.order, maxKeys);
      EvictKeepsNewest(DropOldest(ws), maxKeys);
    }
  }

  class InMemoryRateLimiter {
    const maxKeys: nat
    var order: seq<Key>
    var stored: map<Key, Window>

    ghost function Contents(): Windows
      reads this
    {
      Windows(order, stored)
    }

    constructor (maxKeys: nat)
      ensures this.maxKeys == maxKeys && Contents() == EMPTY
    {
      this.maxKeys := maxKeys;
      order, stored := [], map[];
    }

    method Hit(h: Hit) returns (r: RateLimitResult)
      modifies this
      ensures Contents() == Evict(Store(old(Contents()), h), maxKeys)
      ensures r == Answer(Counting(Find(old(stored), h.key), h), h)
    {
      var windowStart, count := h.now, 0;
      if h.key in stored {
        windowStart, count := stored[h.key].start, stored[h.key].count;
      }
      if h.now - windowStart >= h.seconds {
        windowStart, count := h.now, 0;
      }
      count := count + 1;
      var w := Window(windowStart, count);
      assert w == Counting(Find(stored, h.key), h);
      stored := stored[h.key := w];
      order := Touch(order, h.key);
      EvictOldest();
      var left := h.seconds - (h.now - windowStart);
      r := Counted(count, h.times, if left > 0.0 then left else 0.0);
    }

    /** `while len(self._windows) > self.max_keys: self._windows.popitem(last=False)`. */
    method EvictOldest()
      modifies this
      ensures Contents() == Evict(old(Contents()), maxKeys)
    {
      while |order| > maxKeys
        invariant Evict(Contents(), maxKeys) == Evict(old(Contents()), maxKeys)
      {
        order, stored := order[1..], stored - {order[0]};
      }
    }
  }

  // -- Which keys it holds -----------------------------------------------------------------

  /** The keys of a history of hits. */
  function KeysOf(hs: seq<Hit>): seq<Key> {
    if hs == [] then [] else KeysOf(hs[..|hs| - 1]) + [hs[|hs| - 1].key]
  }

  predicate WasHit(hs: seq<Hit>, key: Key) { key in KeysOf(hs) }

  /** The distinct keys hit after the last hit of `key`. */
  function HitSince(hs: seq<Hit>, key: Key): set<Key> { Since(KeysOf(hs), key) }

  function Since(ks: seq<Key>, key: Key): set<Key> {
    if ks == [] || ks[|ks| - 1] == key then {}
    else Since(ks[..|ks| - 1], key) + {ks[|ks| - 1]}
  }

  /** The order that touching a history of keys leaves behind. */
  function Recency(ks: seq<Key>): seq<Key> {
    if ks == [] then [] else Touch(Recency(ks[..|ks| - 1]), ks[|ks| - 1])
  }

  function Behind(order: seq<Key>, key: Key): set<Key> {
    if order == [] || order[|order| - 1] == key then {}
    else Behind(order[..|order| - 1], key) + {order[|order| - 1]}
  }

  lemma {:induction false} BehindRemove(order: seq<Key>, gone: Key, key: Key)
    requires key != gone
    ensures Behind(Remove(order, gone), key) == Behind(order, key) - {gone}
  {
    if order != [] {
      var init, last := order[..|order| - 1], order[|order| - 1];
      BehindRemove(init, gone, key);
      if last != gone {
        assert Remove(order, gone)[..|Remove(order, gone)| - 1] == Remove(init, gone);
      }
    }
  }

  lemma {:induction false} BehindMembers(order: seq<Key>, key: Key)
    ensures forall k | k in Behind(order, key) :: k in order
  {
    if order != [] { BehindMembers(order[..|order| - 1], key); }
  }

  lemma {:induction false} InNewest(order: seq<Key>, n: nat, key: Key)
    requires Distinct(order)
    ensures key in Newest(order, n) <==> key in order && |Behind(order, key)| < n
  {
    if order != [] {
      var init, last := order[..|order| - 1], order[|order| - 1];
      assert order == init + [last];
      assert last !in init;
      if n == 0 {
        assert Newest(order, n) == [];
      } else {
        InNewest(init, n - 1, key);
        BehindMembers(init, key);
        assert Newest(order, n) == Newest(init, n - 1) + [last];
      }
    }
  }

  /** That order is the order of last hits: behind each key stand exactly the keys hit since. */
  lemma {:induction false} OrderIsRecency(ks: seq<Key>)
    ensures Distinct(Recency(ks))
    ensures forall key :: key in Recency(ks) <==> key in ks
    ensures forall key | key in ks :: Behind(Recency(ks), key) == Since(ks, key)
  {
    if ks != [] {
      var init, last := ks[..|ks| - 1], ks[|ks| - 1];
      assert ks == init + [last];
      OrderIsRecency(init);
      var order := Recency(init);
      RemoveSize(order, last);
      assert Recency(ks)[..|Recency(ks)| - 1] == Remove(order, last);
      forall key | key in ks ensures Behind(Recency(ks), key) == Since(ks, key) {
        if key != last { BehindRemove(order, last, key); }
      }
    }
  }

  lemma {:induction false} UnboundedOrder(hs: seq<Hit>)
    ensures Unbounded(hs).order == Recency(KeysOf(hs)) && Valid(Unbounded(hs))
  {
    if hs != [] {
      var init, h := hs[..|hs| - 1], hs[|hs| - 1];
      UnboundedOrder(init);
      StoreValid(Unbounded(init), h);
      assert KeysOf(hs)[..|KeysOf(hs)| - 1] == KeysOf(init);
    }
  }

  lemma {:induction false} BoundedOrder(hs: seq<Hit>, maxKeys: nat)
    ensures Bounded(hs, maxKeys).order == Newest(Recency(KeysOf(hs)), maxKeys) && Valid(Bounded(hs, maxKeys))
  {
    if hs != [] {
      var init, h := hs[..|hs| - 1], hs[|hs| - 1];
      BoundedOrder(init, maxKeys);
      StoreValid(Bounded(init, maxKeys), h);
      EvictKeepsNewest(Store(Bounded(init, maxKeys), h), maxKeys);
      assert KeysOf(hs)[..|KeysOf(hs)| - 1] == KeysOf(init);
      OrderIsRecency(KeysOf(init));
      TouchNewest(Recency(KeysOf(init)), maxKeys, h.key);
    }
  }

  /** After any history the map holds exactly the keys with fewer than `maxKeys` other keys hit since
      their own last hit, in the order of those last hits, and never more than `maxKeys` of them. */
  lemma HoldsTheMostRecent(hs: seq<Hit>, maxKeys: nat, key: Key)
    ensures var ws := Bounded(hs, maxKeys);
            && |ws.order| <= maxKeys && Distinct(ws.order)
            && ws.order == Newest(Unbounded(hs).order, maxKeys)
            && (key in ws.stored <==> key in ws.order)
            && (key in Unbounded(hs).stored <==> WasHit(hs, key))
            && (key in ws.stored <==> WasHit(hs, key) && |HitSince(hs, key)| < maxKeys)
  {
    BoundedOrder(hs, maxKeys);
    UnboundedOrder(hs);
    OrderIsRecency(KeysOf(hs));
    InNewest(Recency(KeysOf(hs)), maxKeys, key);
  }

  // -- When the bound cannot be told from none ------------------------------------------------

  /** At every hit of `key` the bounded map still has it, or its window has run out anyway. */
  predicate Undisturbed(hs: seq<Hit>, maxKeys: nat, key: Key) {
    hs == [] ||
    (&& Undisturbed(hs[..|hs| - 1], maxKeys, key)
     && (hs[|hs| - 1].key == key ==> Survives(hs[..|hs| - 1], maxKeys, hs[|hs| - 1])))
  }

  predicate Survives(before: seq<Hit>, maxKeys: nat, h: Hit) {
    || !WasHit(before, h.key)
    || |HitSince(before, h.key)| < maxKeys
    || (h.key in Unbounded(before).stored && h.now - Unbounded(before).stored[h.key].start >= h.seconds)
  }

  predicate SameWindow(hs: seq<Hit>, maxKeys: nat, key: Key) {
    key in Bounded(hs, maxKeys).stored ==>
      key in Unbounded(hs).stored && Bounded(hs, maxKeys).stored[key] == Unbounded(hs).stored[key]
  }

  lemma SameCounting(hs: seq<Hit>, maxKeys: nat, h: Hit)
    requires SameWindow(hs, maxKeys, h.key) && Survives(hs, maxKeys, h)
    ensures Counting(Find(Bounded(hs, maxKeys).stored, h.key), h) == Counting(Find(Unbounded(hs).stored, h.key), h)
  {
    HoldsTheMostRecent(hs, maxKeys, h.key);
  }

  lemma {:induction false} UndisturbedSame(hs: seq<Hit>, maxKeys: nat, key: Key)
    requires Undisturbed(hs, maxKeys, key)
    ensures SameWindow(hs, maxKeys, key)
  {
    if hs != [] {
      var init, h := hs[..|hs| - 1], hs[|hs| - 1];
      UndisturbedSame(init, maxKeys, key);
      if key == h.key { SameCounting(init, maxKeys, h); }
      BoundedOrder(init, maxKeys);
      StoreValid(Bounded(init, maxKeys), h);
      EvictKeepsNewest(Store(Bounded(init, maxKeys), h), maxKeys);
    }
  }

  /** A hit on an undisturbed key is answered exactly as the unbounded limiter answers it. */
  lemma BoundIsUnobservable(hs: seq<Hit>, maxKeys: nat, h: Hit)
    requires Undisturbed(hs + [h], maxKeys, h.key)
    ensures Answer(Counting(Find(Bounded(hs, maxKeys).stored, h.key), h), h)
         == Answer(Counting(Find(Unbounded(hs).stored, h.key), h), h)
  {
    assert (hs + [h])[..|hs|] == hs;
    UndisturbedSame(hs, maxKeys, h.key);
    SameCounting(hs, maxKeys, h);
  }

  /** Outside that condition the answers do come apart: a key evicted inside its window starts over. */
  lemma EvictionForgets(hs: seq<Hit>, maxKeys: nat, h: Hit)
    requires WasHit(hs, h.key) && !Survives(hs, maxKeys, h)
    ensures Counting(Find(Bounded(hs, maxKeys).stored, h.key), h) == Window(h.now, 1)
    ensures h.key in Unbounded(hs).stored
    ensures Counting(Find(Unbounded(hs).stored, h.key), h)
         == var w := Unbounded(hs).stored[h.key]; Window(w.start, w.count + 1)
  {
    HoldsTheMostRecent(hs, maxKeys, h.key);
  }

  // -- What a caller is told --------------------------------------------------------------------

  /** A burst of n hits at one moment. */
  function Burst(h: Hit, n: nat): seq<Hit> { if n == 0 then [] else [h] + Burst(h, n - 1) }

  lemma {:induction false} RoomLeft(w: Window, h: Hit, n: nat)
    requires h.now - w.start < h.seconds
    ensures |AllowedOf(Some(w), Burst(h, n))|
         == if w.count >= h.times then 0 else if n < h.times - w.count then n else h.times - w.count
    decreases n
  {
    if n > 0 {
      assert Burst(h, n)[1..] == Burst(h, n - 1);
      RoomLeft(Window(w.start, w.count + 1), h, n - 1);
    }
  }

  /** After a hit, `remaining` is how many more are let through now, and the reset time is exact: a later hit
      starts a new window if and only if that time has passed. */
  lemma AnswerIsTruthful(found: Option<Window>, h: Hit, n: nat, later: real)
    requires h.now <= later && (found.Some? ==> found.value.start <= h.now)
    ensures var w := Counting(found, h);
            var result := Answer(w, h);
            && !result.degraded && result.limit == h.times && result.resetAfterSeconds >= 0.0
            && (result.allowed <==> w.count <= h.times)
            && (h.seconds > 0.0 ==>
                  |AllowedOf(Some(w), Burst(h, n))| == if n < result.remaining then n else result.remaining)
            && w.count >= 1
            && (Counting(Some(w), h.(now := later)).count == 1 <==> h.now + result.resetAfterSeconds <= later)
  {
    if h.seconds > 0.0 { RoomLeft(Counting(found, h), h, n); }
  }

  // -- One key is a fixed window ---------------------------------------------------------------

  /** The hits of one key as events of the fixed-window counter: a window that has run out is dropped. */
  function AsCounter(w: Option<Window>, seconds: real): FixedWindow.Counter {
    match w
    case None => FixedWindow.Missing
    case Some(w) => FixedWindow.Counting(w.count, w.start + seconds)
  }

  function AsEvents(w: Option<Window>, h: Hit): seq<FixedWindow.Event> {
    if w.Some? && h.now - w.value.start >= h.seconds
    then [FixedWindow.Vanish(h.now), FixedWindow.Hit(h.now)]
    else [FixedWindow.Hit(h.now)]
  }

  /** One in-memory hit is one run of the counter, so the fixed-window bound holds for it as well. */
  lemma MemoryHitIsCounterHit(w: Option<Window>, h: Hit)
    requires w.Some? ==> w.value.count >= 1
    ensures var w1 := Counting(w, h);
            var es := AsEvents(w, h);
            && FixedWindow.Legal(AsCounter(w, h.seconds), h.now, es, h.seconds)
            && CounterRun(AsCounter(w, h.seconds), es, h.seconds) == AsCounter(Some(w1), h.seconds)
            && FixedWindow.AllowedTimes(AsCounter(w, h.seconds), es, h.seconds, h.times)
               == (if Answer(w1, h).allowed then [h.now] else [])
            && w1.count >= 1
  {
    var c := AsCounter(w, h.seconds);
    var es := AsEvents(w, h);
    var hit := FixedWindow.Hit(h.now);
    var start := if |es| == 2 then FixedWindow.Missing else c;
    OneHit(start, hit, h);
    if |es| == 2 {
      assert es[1..] == [hit];
      assert FixedWindow.AllowedTimes(c, es, h.seconds, h.times)
          == [] + FixedWindow.AllowedTimes(FixedWindow.Missing, [hit], h.seconds, h.times);
    }
  }

  lemma OneHit(c: FixedWindow.Counter, e: FixedWindow.Event, h: Hit)
    requires e == FixedWindow.Hit(h.now)
    ensures CounterRun(c, [e], h.seconds) == FixedWindow.Script(c, h.now, h.seconds).0
    ensures FixedWindow.AllowedTimes(c, [e], h.seconds, h.times)
         == if FixedWindow.Script(c, h.now, h.seconds).1.count <= h.times then [h.now] else []
    ensures FixedWindow.Legal(c, h.now, [e], h.seconds)
  {
    var c1 := FixedWindow.After(c, e, h.seconds);
    assert [e][1..] == [];
    assert CounterRun(c1, [], h.seconds) == c1;
    assert FixedWindow.AllowedTimes(c1, [], h.seconds, h.times) == [];
    assert FixedWindow.Legal(c1, h.now, [], h.seconds);
  }

  function CounterRun(c: FixedWindow.Counter, es: seq<FixedWindow.Event>, window: real): FixedWindow.Counter
    decreases |es|
  {
    if es == [] then c else CounterRun(FixedWindow.After(c, es[0], window), es[1..], window)
  }

  // -- A whole run of hits on one key that is never evicted --------------------------------------

  function AllowedOf(w: Option<Window>, hs: seq<Hit>): seq<real>
    decreases |hs|
  {
    if hs == [] then []
    else
      var w1 := Counting(w, hs[0]);
      (if Answer(w1, hs[0]).allowed then [hs[0].now] else []) + AllowedOf(Some(w1), hs[1..])
  }

  function EventsOf(w: Option<Window>, hs: seq<Hit>): seq<FixedWindow.Event>
    decreases |hs|
  {
    if hs == [] then [] else AsEvents(w, hs[0]) + EventsOf(Some(Counting(w, hs[0])), hs[1..])
  }

  /** Hits of one key under one limit, at clock readings that do not go back. */
  predicate Steady(hs: seq<Hit>, since: real, times: nat, seconds: real) {
    && (forall i | 0 <= i < |hs| :: hs[i].times == times && hs[i].seconds == seconds && since <= hs[i].now)
    && (forall i, j | 0 <= i < j < |hs| :: hs[i].now <= hs[j].now)
  }

  lemma {:induction false} CounterAppend(c: FixedWindow.Counter, since: real, a: seq<FixedWindow.Event>,
                                         b: seq<FixedWindow.Event>, window: real, times: nat, mid: real)
    requires FixedWindow.Legal(c, since, a, window)
    requires mid == if a == [] then since else a[|a| - 1].now
    requires FixedWindow.Legal(CounterRun(c, a, window), mid, b, window)
    ensures FixedWindow.Legal(c, since, a + b, window)
    ensures FixedWindow.AllowedTimes(c, a + b, window, times)
         == FixedWindow.AllowedTimes(c, a, window, times)
          + FixedWindow.AllowedTimes(CounterRun(c, a, window), b, window, times)
    decreases |a|
  {
    if a == [] {
      assert a + b == b;
    } else {
      assert (a + b)[0] == a[0] && (a + b)[1..] == a[1..] + b;
      assert a[1..] != [] ==> a[1..][|a[1..]| - 1] == a[|a| - 1];
      var c1 := FixedWindow.After(c, a[0], window);
      CounterAppend(c1, a[0].now, a[1..], b, window, times, mid);
      FixedWindow.Associative(FixedWindow.AllowedBy(c, a[0], window, times),
                              FixedWindow.AllowedTimes(c1, a[1..], window, times),
                              FixedWindow.AllowedTimes(CounterRun(c, a, window), b, window, times));
    }
  }

  lemma {:induction false} HitsAreEvents(w: Option<Window>, hs: seq<Hit>, since: real, times: nat, seconds: real)
    requires Steady(hs, since, times, seconds) && (w.Some? ==> w.value.count >= 1)
    ensures FixedWindow.Legal(AsCounter(w, seconds), since, EventsOf(w, hs), seconds)
    ensures FixedWindow.AllowedTimes(AsCounter(w, seconds), EventsOf(w, hs), seconds, times) == AllowedOf(w, hs)
    decreases |hs|
  {
    if hs != [] {
      var h := hs[0];
      var w1 := Some(Counting(w, h));
      MemoryHitIsCounterHit(w, h);
      FixedWindow.LegalSince(AsCounter(w, seconds), h.now, since, AsEvents(w, h), seconds);
      assert forall i | 0 <= i < |hs| - 1 :: hs[1..][i] == hs[i + 1];
      HitsAreEvents(w1, hs[1..], h.now, times, seconds);
      CounterAppend(AsCounter(w, seconds), since, AsEvents(w, h), EventsOf(w1, hs[1..]), seconds, times, h.now);
    }
  }

  lemma HitsHoldTwice(hs: seq<Hit>, since: real, times: nat, seconds: real, start: real)
    requires Steady(hs, since, times, seconds) && times >= 1 && seconds >= 0.0
    ensures |FixedWindow.Inside(AllowedOf(None, hs), start, seconds)| <= 2 * times - 1
  {
    HitsAreEvents(None, hs, since, times, seconds);
    FixedWindow.AnyWindowHoldsTwice(EventsOf(None, hs), since, seconds, times, start);
  }

  function OfKey(hs: seq<Hit>, key: Key): seq<Hit> {
    if hs == [] then []
    else if hs[|hs| - 1].key == key then OfKey(hs[..|hs| - 1], key) + [hs[|hs| - 1]]
    else OfKey(hs[..|hs| - 1], key)
  }

  function WindowOf(hs: seq<Hit>): Option<Window> {
    if hs == [] then None else Some(Counting(WindowOf(hs[..|hs| - 1]), hs[|hs| - 1]))
  }

  /** Without the bound, what is stored for a key depends on that key's own hits only. */
  lemma {:induction false} KeysAreIndependent(hs: seq<Hit>, key: Key)
    ensures Find(Unbounded(hs).stored, key) == WindowOf(OfKey(hs, key))
  {
    if hs != [] {
      var init := hs[..|hs| - 1];
      KeysAreIndependent(init, key);
      if hs[|hs| - 1].key == key {
        assert OfKey(hs, key)[..|OfKey(hs, key)| - 1] == OfKey(init, key);
      }
    }
  }

  // -- One key among others in the bounded map ---------------------------------------------------------

  /** The times at which the bounded limiter lets a hit of this key through, in a history of all keys. */
  function AllowedAt(hs: seq<Hit>, maxKeys: nat, key: Key): seq<real> {
    if hs == [] then []
    else
      var (init, h) := (hs[..|hs| - 1], hs[|hs| - 1]);
      var w := Counting(Find(Bounded(init, maxKeys).stored, key), h);
      AllowedAt(init, maxKeys, key) + if h.key == key && Answer(w, h).allowed then [h.now] else []
  }

  function CountingRun(w: Option<Window>, hs: seq<Hit>): Option<Window>
    decreases |hs|
  {
    if hs == [] then w else CountingRun(Some(Counting(w, hs[0])), hs[1..])
  }

  lemma {:induction false} CountingAppend(w: Option<Window>, hs: seq<Hit>, h: Hit)
    ensures CountingRun(w, hs + [h]) == Some(Counting(CountingRun(w, hs), h))
    ensures AllowedOf(w, hs + [h])
         == AllowedOf(w, hs) + if Answer(Counting(CountingRun(w, hs), h), h).allowed then [h.now] else []
    decreases |hs|
  {
    if hs == [] {
      assert [] + [h] == [h] && [h][1..] == [];
      assert CountingRun(Some(Counting(w, h)), []) == Some(Counting(w, h));
      assert AllowedOf(Some(Counting(w, h)), []) == [];
    } else {
      assert (hs + [h])[0] == hs[0] && (hs + [h])[1..] == hs[1..] + [h];
      CountingAppend(Some(Counting(w, hs[0])), hs[1..], h);
    }
  }

  lemma {:induction false} WindowIsRun(hs: seq<Hit>)
    ensures WindowOf(hs) == CountingRun(None, hs)
  {
    if hs != [] {
      var init, h := hs[..|hs| - 1], hs[|hs| - 1];
      WindowIsRun(init);
      CountingAppend(None, init, h);
      assert hs == init + [h];
    }
  }

  /** While a key is undisturbed, the bounded limiter answers its hits as if there were no others. */
  lemma {:induction false} AllowedOnItsOwn(hs: seq<Hit>, maxKeys: nat, key: Key)
    requires Undisturbed(hs, maxKeys, key)
    ensures AllowedAt(hs, maxKeys, key) == AllowedOf(None, OfKey(hs, key))
  {
    if hs != [] {
      var init, h := hs[..|hs| - 1], hs[|hs| - 1];
      AllowedOnItsOwn(init, maxKeys, key);
      if h.key == key {
        UndisturbedSame(init, maxKeys, key);
        SameCounting(init, maxKeys, h);
        KeysAreIndependent(init, key);
        WindowIsRun(OfKey(init, key));
        CountingAppend(None, OfKey(init, key), h);
      }
    }
  }

  /** In every history of all keys, a key that is not evicted inside its window, hit under one limit at clock
      readings that do not go back, has at most 2 * times - 1 hits let through in [start, start + seconds). */
  lemma AnyWindowHoldsTwice(hs: seq<Hit>, maxKeys: nat, key: Key, since: real, times: nat, seconds: real, start: real)
    requires Undisturbed(hs, maxKeys, key) && Steady(OfKey(hs, key), since, times, seconds)
    requires times >= 1 && seconds >= 0.0
    ensures |FixedWindow.Inside(AllowedAt(hs, maxKeys, key), start, seconds)| <= 2 * times - 1
  {
    AllowedOnItsOwn(hs, maxKeys, key);
    HitsHoldTwice(OfKey(hs, key), since, times, seconds, start);
  }
}
