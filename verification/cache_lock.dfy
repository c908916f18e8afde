/** Cache-aside on the real lock: `get_or_set` callers on one cache key whose lock block is a `redis_lock`, a
    Redis key with token and TTL. What the cache model says of its abstract lock holds of this one. */
module CacheLock {

  import opened Wrappers
  import Cached
  import Lock

  /** `cache.lock` is not used here: who gets into the lock block is decided by the Redis key alone. */
  datatype World = World(cache: Cached.World, key: Lock.World)

  datatype Event =
    | Cache(e: Cached.Event)                     // anything but the lock's own steps
    | Tick(to: real)
    | Try(id: nat, up: bool, applied: bool)      // one attempt at SET NX PX
    | GiveUp(id: nat)                            // the blocking timeout
    | Leave(id: nat, up: bool, applied: bool)    // the token-checked release
    | Abort(id: nat, up: bool, applied: bool)    // cancelled in the lock block, which still releases

  predicate IsLockStep(e: Cached.Event) { e.Acquire? || e.TimeOut? || e.Unlock? || e.LockLapses? }

  function ReplyOf(up: bool, applied: bool): Lock.Reply { if up then Lock.Fine else Lock.Failed(applied) }

  predicate IsOf(w: Cached.World, e: Cached.Event) {
    !(e.Evict? || e.SetByOther? || e.LockLapses?) && e.id in w.callers
  }

  /** `async with redis_lock(...)` as the call goes in and out of it. */
  function Follow(before: Cached.World, after: Cached.World, key: Lock.World, e: Cached.Event, ttl: real): Lock.World {
    if !IsOf(after, e) then key
    else if after.At(e.id, Cached.Locking) && !before.At(e.id, Cached.Locking) then
      Lock.Step(key, Lock.Begin(e.id, ttl, false))
    else if after.callers[e.id].phase.Unlocking?
        && !(e.id in before.callers && before.callers[e.id].phase.Unlocking?) then
      Lock.Step(key, Lock.BodyEnds(e.id, Lock.Returned))
    else key
  }

  function StepTry(w: World, id: nat, up: bool, applied: bool): World {
    if !w.cache.At(id, Cached.Locking) then w
    else
      var key := Lock.Step(w.key, Lock.Acquire(id, ReplyOf(up, applied)));
      if id !in key.clients then w
      else match key.clients[id].phase
        case Inside(_) => World(w.cache.Move(id, Cached.Second), key)
        case Broken => World(w.cache.Move(id, Cached.ComputeFree), key)
        case _ => World(w.cache, key)
  }

  function StepLeave(w: World, id: nat, up: bool, applied: bool): World {
    if !(id in w.cache.callers && w.cache.callers[id].phase.Unlocking?) then w
    else
      var key := Lock.Step(w.key, Lock.Release(id, ReplyOf(up, applied)));
      match w.cache.callers[id].phase.next
      case Return(result) => World(w.cache.Move(id, Cached.Done(result)), key)
      case FallThrough => World(w.cache.Move(id, Cached.ComputeFree), key)
  }

  predicate InBlock(c: Cached.World, id: nat) {
    id in c.callers && !c.callers[id].phase.Unlocking? && Cached.HoldsLock(c.callers[id].phase)
    && (c.callers[id].phase.Storing? ==> c.callers[id].phase.held)
  }

  function StepAbort(w: World, z: Cached.Serializer, id: nat, up: bool, applied: bool): World {
    if !InBlock(w.cache, id) then w
    else World(Cached.Step(w.cache, z, Cached.Cancel(id)), AbortKey(w.key, id, up, applied))
  }

  function AbortKey(key: Lock.World, id: nat, up: bool, applied: bool): Lock.World {
    Lock.Step(Lock.Step(key, Lock.BodyEnds(id, Lock.Cancelled)), Lock.Release(id, ReplyOf(up, applied)))
  }

  function Step(w: World, z: Cached.Serializer, ttl: real, e: Event): World {
    match e
    case Cache(ce) =>
      if IsLockStep(ce) then w
      else
        var cache := Cached.Step(w.cache, z, ce);
        World(cache, Follow(w.cache, cache, w.key, ce, ttl))
    case Tick(to) => World(w.cache, Lock.Step(w.key, Lock.Tick(to)))
    case Try(id, up, applied) => StepTry(w, id, up, applied)
    case GiveUp(id) =>
      if !w.cache.At(id, Cached.Locking) then w
      else World(w.cache.Move(id, Cached.ComputeFree), Lock.Step(w.key, Lock.GiveUp(id)))
    case Leave(id, up, applied) => StepLeave(w, id, up, applied)
    case Abort(id, up, applied) => StepAbort(w, z, id, up, applied)
  }

  function Run(w: World, z: Cached.Serializer, ttl: real, es: seq<Event>): World
    decreases |es|
  {
    if es == [] then w else Run(Step(w, z, ttl, es[0]), z, ttl, es[1..])
  }

  function Start(protect: bool, entry: Option<Cached.Raw>, now: real): World {
    World(Cached.Start(protect, entry), Lock.Start(now))
  }

  // -- The abstract lock it implements -----------------------------------------------------------------

  /** Whose the lock is: the token in the key, while its TTL lasts. */
  function HolderOf(key: Lock.World): Option<nat> {
    if key.cell.Held? && key.now < key.cell.expireAt then Some(key.cell.token) else None
  }

  function Abstract(w: World): Cached.World { w.cache.(lock := HolderOf(w.key)) }

  /** The steps of the cache model that one step amounts to. */
  function Mirror(w: World, e: Event): seq<Cached.Event> {
    match e
    case Cache(ce) => if IsLockStep(ce) then [] else [ce]
    case Tick(to) =>
      if HolderOf(w.key).Some? && HolderOf(Lock.Step(w.key, Lock.Tick(to))).None? then [Cached.LockLapses] else []
    case Try(id, up, applied) => [Cached.Acquire(id, up, applied)]
    case GiveUp(id) => [Cached.TimeOut(id)]
    case Leave(id, up, applied) => [Cached.Unlock(id, up || applied)]
    case Abort(id, up, applied) =>
      if !InBlock(w.cache, id) then []
      else if HolderOf(w.key).Some? && HolderOf(AbortKey(w.key, id, up, applied)).None?
      then [Cached.Cancel(id), Cached.LockLapses]
      else [Cached.Cancel(id)]
  }

  function MirrorAll(w: World, z: Cached.Serializer, ttl: real, es: seq<Event>): seq<Cached.Event>
    decreases |es|
  {
    if es == [] then [] else Mirror(w, es[0]) + MirrorAll(Step(w, z, ttl, es[0]), z, ttl, es[1..])
  }

  /** Where a call is in `get_or_set` and where it is in `redis_lock`. */
  predicate Matches(phase: Cached.Phase, clients: map<nat, Lock.Client>, id: nat) {
    match phase
    case First => id !in clients
    case Locking => id in clients && clients[id].phase.Waiting?
    case Second => id in clients && clients[id].phase.Inside?
    case ComputeHeld => id in clients && clients[id].phase.Inside?
    case Storing(_, held) => held ==> id in clients && clients[id].phase.Inside?
    case Unlocking(_) => id in clients && clients[id].phase.Leaving?
    case _ => true
  }

  predicate Coupled(w: World) {
    && (forall id | id in w.cache.callers :: Matches(w.cache.callers[id].phase, w.key.clients, id))
    && (forall id | id in w.key.clients :: id in w.cache.callers && w.key.clients[id].ttl > 0.0)
  }

  /** The cache's own steps neither see nor touch the lock. */
  lemma LockUnseen(c: Cached.World, z: Cached.Serializer, e: Cached.Event, lock: Option<nat>)
    requires !IsLockStep(e)
    ensures Cached.Step(c.(lock := lock), z, e) == Cached.Step(c, z, e).(lock := lock)
  {
  }

  lemma OthersStay(c: Cached.World, z: Cached.Serializer, e: Cached.Event, id: nat)
    requires !IsLockStep(e) && id in Cached.Step(c, z, e).callers && (e.Evict? || e.SetByOther? || id != e.id)
    ensures id in c.callers && Cached.Step(c, z, e).callers[id] == c.callers[id]
  {
  }

  lemma FollowKeepsHolder(before: Cached.World, after: Cached.World, key: Lock.World, e: Cached.Event, ttl: real)
    ensures var key1 := Follow(before, after, key, e, ttl);
            && HolderOf(key1) == HolderOf(key)
            && (forall id | id in key1.clients && id !in key.clients :: IsOf(after, e) && id == e.id)
            && (forall id | id in key.clients :: id in key1.clients && key1.clients[id].ttl == key.clients[id].ttl)
            && (forall id | id in key.clients && !(IsOf(after, e) && id == e.id) :: key1.clients[id] == key.clients[id])
  {
  }

  lemma OwnMatches(w: World, z: Cached.Serializer, ttl: real, e: Cached.Event)
    requires Coupled(w) && ttl > 0.0 && !IsLockStep(e) && IsOf(Cached.Step(w.cache, z, e), e)
    ensures var w1 := Step(w, z, ttl, Cache(e));
            && Matches(w1.cache.callers[e.id].phase, w1.key.clients, e.id)
            && (e.id in w1.key.clients ==> w1.key.clients[e.id].ttl > 0.0)
  {
    if e.id in w.cache.callers { assert Matches(w.cache.callers[e.id].phase, w.key.clients, e.id); }
  }

  lemma CacheCoupled(w: World, z: Cached.Serializer, ttl: real, e: Cached.Event)
    requires Coupled(w) && ttl > 0.0 && !IsLockStep(e)
    ensures Coupled(Step(w, z, ttl, Cache(e)))
  {
    var w1 := Step(w, z, ttl, Cache(e));
    FollowKeepsHolder(w.cache, w1.cache, w.key, e, ttl);
    if IsOf(w1.cache, e) { OwnMatches(w, z, ttl, e); }
    CallersKept(w.cache, z, e);
    forall id | id in w1.cache.callers ensures Matches(w1.cache.callers[id].phase, w1.key.clients, id) {
      if e.Evict? || e.SetByOther? || id != e.id {
        OthersStay(w.cache, z, e, id);
        assert Matches(w.cache.callers[id].phase, w.key.clients, id);
      }
    }
  }

  lemma CallersKept(c: Cached.World, z: Cached.Serializer, e: Cached.Event)
    ensures c.callers.Keys <= Cached.Step(c, z, e).callers.Keys
  {
  }

  lemma CacheRefines(w: World, z: Cached.Serializer, ttl: real, e: Cached.Event)
    requires Coupled(w) && ttl > 0.0 && !IsLockStep(e)
    ensures Coupled(Step(w, z, ttl, Cache(e)))
    ensures Abstract(Step(w, z, ttl, Cache(e))) == Cached.Step(Abstract(w), z, e)
  {
    CacheCoupled(w, z, ttl, e);
    LockUnseen(w.cache, z, e, HolderOf(w.key));
    FollowKeepsHolder(w.cache, Cached.Step(w.cache, z, e), w.key, e, ttl);
  }

  lemma TryCoupled(w: World, id: nat, up: bool, applied: bool)
    requires Coupled(w)
    ensures Coupled(StepTry(w, id, up, applied))
  {
    if w.cache.At(id, Cached.Locking) { assert Matches(w.cache.callers[id].phase, w.key.clients, id); }
  }

  lemma TryRefines(w: World, z: Cached.Serializer, id: nat, up: bool, applied: bool)
    requires Coupled(w)
    ensures Abstract(StepTry(w, id, up, applied)) == Cached.Step(Abstract(w), z, Cached.Acquire(id, up, applied))
  {
    if w.cache.At(id, Cached.Locking) { assert Matches(w.cache.callers[id].phase, w.key.clients, id); }
  }

  lemma LeaveCoupled(w: World, id: nat, up: bool, applied: bool)
    requires Coupled(w)
    ensures Coupled(StepLeave(w, id, up, applied))
  {
    if id in w.cache.callers { assert Matches(w.cache.callers[id].phase, w.key.clients, id); }
  }

  lemma LeaveRefines(w: World, z: Cached.Serializer, id: nat, up: bool, applied: bool)
    requires Coupled(w)
    ensures Abstract(StepLeave(w, id, up, applied)) == Cached.Step(Abstract(w), z, Cached.Unlock(id, up || applied))
  {
    if id in w.cache.callers { assert Matches(w.cache.callers[id].phase, w.key.clients, id); }
  }

  lemma AbortCoupled(w: World, z: Cached.Serializer, id: nat, up: bool, applied: bool)
    requires Coupled(w) && InBlock(w.cache, id)
    ensures Coupled(StepAbort(w, z, id, up, applied))
  {
    assert Matches(w.cache.callers[id].phase, w.key.clients, id);
  }

  lemma AbortHolder(key: Lock.World, id: nat, up: bool, applied: bool)
    ensures var key1 := AbortKey(key, id, up, applied); HolderOf(key1) == HolderOf(key) || HolderOf(key1) == None
  {
  }

  lemma AbortRefines(w: World, z: Cached.Serializer, ttl: real, id: nat, up: bool, applied: bool)
    requires Coupled(w) && InBlock(w.cache, id)
    ensures Abstract(Step(w, z, ttl, Abort(id, up, applied)))
         == Cached.Run(Abstract(w), z, Mirror(w, Abort(id, up, applied)))
  {
    var cancel := Cached.Cancel(id);
    LockUnseen(w.cache, z, cancel, HolderOf(w.key));
    AbortHolder(w.key, id, up, applied);
    Cached.RunOne(Abstract(w), z, cancel);
    Cached.RunOne(Cached.Step(Abstract(w), z, cancel), z, Cached.LockLapses);
    Cached.RunAppend(Abstract(w), z, [cancel], [Cached.LockLapses]);
    assert [cancel] + [Cached.LockLapses] == [cancel, Cached.LockLapses];
  }

  lemma StepRefines(w: World, z: Cached.Serializer, ttl: real, e: Event)
    requires Coupled(w) && ttl > 0.0
    ensures Coupled(Step(w, z, ttl, e))
    ensures Abstract(Step(w, z, ttl, e)) == Cached.Run(Abstract(w), z, Mirror(w, e))
  {
    if |Mirror(w, e)| == 1 { Cached.RunOne(Abstract(w), z, Mirror(w, e)[0]); }
    match e
    case Cache(ce) => if !IsLockStep(ce) { CacheRefines(w, z, ttl, ce); }
    case Try(id, up, applied) =>
      TryCoupled(w, id, up, applied);
      TryRefines(w, z, id, up, applied);
    case Leave(id, up, applied) =>
      LeaveCoupled(w, id, up, applied);
      LeaveRefines(w, z, id, up, applied);
    case GiveUp(id) =>
      if w.cache.At(id, Cached.Locking) { assert Matches(w.cache.callers[id].phase, w.key.clients, id); }
    case Tick(to) =>
    case Abort(id, up, applied) =>
      if InBlock(w.cache, id) {
        AbortCoupled(w, z, id, up, applied);
        AbortRefines(w, z, ttl, id, up, applied);
      }
  }

  lemma {:induction false} RunRefines(w: World, z: Cached.Serializer, ttl: real, es: seq<Event>)
    requires Coupled(w) && ttl > 0.0
    ensures Coupled(Run(w, z, ttl, es))
    ensures Abstract(Run(w, z, ttl, es)) == Cached.Run(Abstract(w), z, MirrorAll(w, z, ttl, es))
    decreases |es|
  {
    if es != [] {
      var w1 := Step(w, z, ttl, es[0]);
      StepRefines(w, z, ttl, es[0]);
      RunRefines(w1, z, ttl, es[1..]);
      Cached.RunAppend(Abstract(w), z, Mirror(w, es[0]), MirrorAll(w1, z, ttl, es[1..]));
    }
  }

  /** Every run on the Redis key is a run of the cache model, in which the lock goes away early only where the
      clock reaches the end of a holder's TTL or a cancelled call releases it. */
  lemma RealLockRefines(protect: bool, entry: Option<Cached.Raw>, z: Cached.Serializer, ttl: real, now: real,
                        es: seq<Event>)
    requires ttl > 0.0
    ensures var w := Start(protect, entry, now);
            Abstract(Run(w, z, ttl, es)) == Cached.Run(Cached.Start(protect, entry), z, MirrorAll(w, z, ttl, es))
  {
    RunRefines(Start(protect, entry, now), z, ttl, es);
  }

  // -- Stampede protection on the real lock ------------------------------------------------------------

  /** Redis stays up, nobody gives up, the clock never reaches the end of a holder's TTL, and the cache's own
      steps are smooth. */
  predicate Smooth(w: World, z: Cached.Serializer, e: Event) {
    match e
    case Cache(ce) => !IsLockStep(ce) && Cached.Smooth(z, ce)
    case Tick(to) => HolderOf(w.key).Some? ==> to < w.key.cell.expireAt
    case Try(_, up, _) => up
    case GiveUp(_) => false
    case Leave(_, up, _) => up
    case Abort(_, _, _) => false
  }

  predicate SmoothRun(w: World, z: Cached.Serializer, ttl: real, es: seq<Event>)
    decreases |es|
  {
    es == [] || (Smooth(w, z, es[0]) && SmoothRun(Step(w, z, ttl, es[0]), z, ttl, es[1..]))
  }

  lemma {:induction false} MirrorIsSmooth(w: World, z: Cached.Serializer, ttl: real, es: seq<Event>)
    requires SmoothRun(w, z, ttl, es)
    ensures Cached.AllSmooth(z, MirrorAll(w, z, ttl, es))
    decreases |es|
  {
    if es != [] {
      MirrorIsSmooth(Step(w, z, ttl, es[0]), z, ttl, es[1..]);
      assert forall i | 0 <= i < |Mirror(w, es[0])| :: Cached.Smooth(z, Mirror(w, es[0])[i]);
    }
  }

  /** With the Redis lock: as long as no holder's TTL runs out, at every point at most one factory run for all
      callers, every call that returned carries its value, and once all have, it ran exactly once. */
  lemma ComputesOnceOnLock(z: Cached.Serializer, ttl: real, now: real, es: seq<Event>)
    requires ttl > 0.0 && SmoothRun(Start(true, None, now), z, ttl, es)
    ensures var w := Run(Start(true, None, now), z, ttl, es).cache;
            && (forall a, b | a in Cached.Runners(w) && b in Cached.Runners(w) :: a == b)
            && (forall a | a in Cached.Runners(w) :: |w.callers[a].runs| == 1)
            && (forall id | id in w.callers && w.callers[id].phase.Done? ::
                  exists a :: a in Cached.Runners(w) && w.callers[a].runs == [w.callers[id].phase.result])
            && (w.callers != map[] && Cached.AllDone(w) ==> Cached.OnceForAll(w))
  {
    var w0 := Start(true, None, now);
    var w := Run(w0, z, ttl, es).cache;
    RealLockRefines(true, None, z, ttl, now, es);
    MirrorIsSmooth(w0, z, ttl, es);
    var steps := MirrorAll(w0, z, ttl, es);
    var w1 := Cached.Run(Cached.Start(true, None), z, steps);
    assert w1.callers == w.callers;
    Cached.ComputesOnce(z, steps);
    assert Cached.Runners(w1) == Cached.Runners(w);
    if w.callers != map[] && Cached.AllDone(w) {
      var winner := Cached.ProtectedRun(Cached.Start(true, None), z, steps, None);
      Cached.DoneIsOnce(w1, z, winner);
    }
  }
}
