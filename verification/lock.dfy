/** The distributed lock: one Redis key holding a token with a TTL, any number of `redis_lock` blocks
    contending for it, their auto-extend tasks, failing commands and dying processes. */
module Lock {

  /** One use of `redis_lock`. Every use draws its own token, so the token is the use. */
  type Id = nat

  datatype Cell = Free | Held(token: Id, expireAt: real)

  datatype Outcome = Returned | Raised | Cancelled

  datatype Phase =
    | Waiting
    | Inside(deadline: real)     // when the TTL asked for by the last acquire or extend runs out
    | Leaving(body: Outcome)     // the block is over; about to release
    | Left(outcome: Outcome)
    | Refused                    // LockAcquireError
    | Broken                     // acquire raised RedisError

  datatype Client = Client(ttl: real, extending: bool, phase: Phase)

  datatype World = World(now: real, cell: Cell, clients: map<Id, Client>)
  {
    /** The key is there and carries this token. */
    predicate Owns(id: Id) { cell.Held? && cell.token == id && now < cell.expireAt }

    predicate IsFree() { cell.Free? || cell.expireAt <= now }

    function Move(id: Id, phase: Phase): World
      requires id in clients
    {
      this.(clients := clients[id := clients[id].(phase := phase)])
    }
  }

  /** How a command ended for its caller; a failed or interrupted one may still have taken effect. */
  datatype Reply = Fine | Failed(applied: bool) | Interrupted(applied: bool)

  predicate Applies(reply: Reply) { reply.Fine? || reply.applied }

  datatype Event =
    | Begin(id: Id, ttl: real, autoExtend: bool)
    | Tick(to: real)
    | Acquire(id: Id, reply: Reply)
    | GiveUp(id: Id)
    | Extend(id: Id, reply: Reply)
    | BodyEnds(id: Id, body: Outcome)
    | Release(id: Id, reply: Reply)

  function StepAcquire(w: World, id: Id, reply: Reply): World {
    if id !in w.clients || !w.clients[id].phase.Waiting? then w
    else
      var deadline := w.now + w.clients[id].ttl;
      var won := w.IsFree();
      var w1 := if won && Applies(reply) then w.(cell := Held(id, deadline)) else w;
      if !reply.Fine? then w1.Move(id, Broken)
      else if won then w1.Move(id, Inside(deadline))
      else w1
  }

  /** One round of `_auto_extend_loop`: a lost lock or any error ends the loop. */
  function StepExtend(w: World, id: Id, reply: Reply): World {
    if id !in w.clients || !w.clients[id].phase.Inside? || !w.clients[id].extending then w
    else
      var deadline := w.now + w.clients[id].ttl;
      var mine := w.Owns(id);
      var w1 := if mine && Applies(reply) then w.(cell := Held(id, deadline)) else w;
      if reply.Fine? && mine then w1.Move(id, Inside(deadline))
      else w1.(clients := w1.clients[id := w1.clients[id].(extending := false)])
  }

  /** The `finally` block: a RedisError, LockError included, is swallowed. */
  function StepRelease(w: World, id: Id, reply: Reply): World {
    if id !in w.clients || !w.clients[id].phase.Leaving? then w
    else
      var w1 := if w.Owns(id) && Applies(reply) then w.(cell := Free) else w;
      w1.Move(id, Left(if reply.Interrupted? then Cancelled else w.clients[id].phase.body))
  }

  function Step(w: World, e: Event): World {
    match e
    case Begin(id, ttl, autoExtend) =>
      if id in w.clients || ttl <= 0.0 then w
      else w.(clients := w.clients[id := Client(ttl, autoExtend, Waiting)])
    case Tick(to) => if w.now <= to then w.(now := to) else w
    case Acquire(id, reply) => StepAcquire(w, id, reply)
    case GiveUp(id) => if id in w.clients && w.clients[id].phase.Waiting? then w.Move(id, Refused) else w
    case Extend(id, reply) => StepExtend(w, id, reply)
    case BodyEnds(id, body) => if id in w.clients && w.clients[id].phase.Inside? then w.Move(id, Leaving(body)) else w
    case Release(id, reply) => StepRelease(w, id, reply)
  }

  function Run(w: World, es: seq<Event>): World
    decreases |es|
  {
    if es == [] then w else Run(Step(w, es[0]), es[1..])
  }

  lemma {:induction false} RunAppend(w: World, a: seq<Event>, b: seq<Event>)
    ensures Run(w, a + b) == Run(Run(w, a), b)
    decreases |a|
  {
    if a == [] {
      assert a + b == b;
    } else {
      assert (a + b)[1..] == a[1..] + b;
      RunAppend(Step(w, a[0]), a[1..], b);
    }
  }

  lemma RunOne(w: World, e: Event)
    ensures Run(w, [e]) == Step(w, e)
  {
    assert Run(Step(w, e), []) == Step(w, e);
  }

  function Start(now: real): World { World(now, Free, map[]) }

  // -- Mutual exclusion ------------------------------------------------------------------------

  predicate Safe(w: World) {
    && (w.cell.Held? ==> w.cell.token in w.clients && w.cell.expireAt <= w.now + w.clients[w.cell.token].ttl)
    && (forall id | id in w.clients ::
          && w.clients[id].ttl > 0.0
          && (w.clients[id].phase.Inside? && w.now < w.clients[id].phase.deadline ==>
                w.Owns(id) && w.clients[id].phase.deadline <= w.cell.expireAt))
  }

  lemma SafeAcquire(w: World, id: Id, reply: Reply)
    requires Safe(w)
    ensures Safe(StepAcquire(w, id, reply))
  {
  }

  lemma SafeExtend(w: World, id: Id, reply: Reply)
    requires Safe(w)
    ensures Safe(StepExtend(w, id, reply))
  {
  }

  lemma SafeRelease(w: World, id: Id, reply: Reply)
    requires Safe(w)
    ensures Safe(StepRelease(w, id, reply))
  {
  }

  lemma SafeStep(w: World, e: Event)
    requires Safe(w)
    ensures Safe(Step(w, e))
  {
    match e
    case Acquire(id, reply) => SafeAcquire(w, id, reply);
    case Extend(id, reply) => SafeExtend(w, id, reply);
    case Release(id, reply) => SafeRelease(w, id, reply);
    case _ =>
  }

  lemma {:induction false} SafeRun(w: World, es: seq<Event>)
    requires Safe(w)
    ensures Safe(Run(w, es))
    decreases |es|
  {
    if es != [] {
      SafeStep(w, es[0]);
      SafeRun(Step(w, es[0]), es[1..]);
    }
  }

  /** In every run, two clients are both inside only if for one of them the TTL has run out since its
      last acquire or successful extend; the one for which it has not owns the key. */
  lemma MutualExclusion(now: real, es: seq<Event>, a: Id, b: Id)
    requires var w := Run(Start(now), es);
             a in w.clients && b in w.clients && w.clients[a].phase.Inside? && w.clients[b].phase.Inside?
    ensures var w := Run(Start(now), es);
            && (a == b || w.clients[a].phase.deadline <= w.now || w.clients[b].phase.deadline <= w.now)
            && (w.now < w.clients[a].phase.deadline ==> w.Owns(a))
  {
    SafeRun(Start(now), es);
  }

  /** Extend and release never touch a key stored under another token, whatever state they run in. */
  lemma TokenChecked(w: World, e: Event)
    requires e.Extend? || e.Release?
    ensures Step(w, e).cell != w.cell ==> w.Owns(e.id)
    ensures w.cell.Held? && w.cell.token != e.id ==> Step(w, e).cell == w.cell
  {
  }

  /** A wait that times out is refused with LockAcquireError, one whose command fails raises that failure, and
      nothing else ends a wait but getting in. */
  lemma WaitEndsExactly(w: World, id: Id, e: Event)
    requires id in w.clients && w.clients[id].phase.Waiting?
    ensures var phase := Step(w, e).clients[id].phase;
            && (phase == Refused <==> e == GiveUp(id))
            && (phase == Broken <==> e.Acquire? && e.id == id && !e.reply.Fine?)
            && (phase.Inside? <==> e == Acquire(id, Fine) && w.IsFree())
            && (phase.Refused? || phase.Broken? || phase.Inside? || phase.Waiting?)
  {
  }

  /** However the release fares, the client leaves with its block's outcome, Cancelled if interrupted. It stops
      owning the key exactly when the release gets through, and then the next waiting client gets in at once. */
  lemma ReleaseEndsExactly(w: World, id: Id, reply: Reply, other: Id)
    requires Safe(w) && id in w.clients && w.clients[id].phase.Leaving? && w.Owns(id)
    requires other in w.clients && w.clients[other].phase.Waiting?
    ensures var w1 := Step(w, Release(id, reply));
            && w1.clients[id].phase == Left(if reply.Interrupted? then Cancelled else w.clients[id].phase.body)
            && (w1.Owns(id) <==> !reply.Fine? && !reply.applied)
            && (Step(w1, Acquire(other, Fine)).Owns(other) <==> reply.Fine? || reply.applied)
  {
  }

  /** A client that has left and lost the key stays so in every run. */
  lemma {:induction false} GoneForGood(w: World, id: Id, es: seq<Event>)
    requires id in w.clients && w.clients[id].phase.Left? && !w.Owns(id)
    ensures id in Run(w, es).clients && Run(w, es).clients[id].phase == w.clients[id].phase && !Run(w, es).Owns(id)
    decreases |es|
  {
    if es != [] { GoneForGood(Step(w, es[0]), id, es[1..]); }
  }

  /** After one extend that failed, or came too late, the client asks for no more time: its deadline stays. */
  lemma {:induction false} FailedExtendIsLast(w: World, id: Id, reply: Reply, es: seq<Event>)
    requires InBlock(w, id) && w.clients[id].extending && (!reply.Fine? || !w.Owns(id))
    ensures var w1 := Run(Step(w, Extend(id, reply)), es);
            InBlock(w1, id) ==> w1.clients[id].phase == w.clients[id].phase
  {
    LoopIsOver(Step(w, Extend(id, reply)), id, es);
  }

  lemma {:induction false} LoopIsOver(w: World, id: Id, es: seq<Event>)
    requires id in w.clients && !w.clients[id].extending && !w.clients[id].phase.Waiting?
    ensures InBlock(Run(w, es), id) ==> InBlock(w, id) && Run(w, es).clients[id].phase == w.clients[id].phase
    decreases |es|
  {
    if es != [] { LoopIsOver(Step(w, es[0]), id, es[1..]); }
  }

  /** A holder that dies or never comes back blocks the others for at most its TTL: then the next
      waiting client gets in. */
  lemma DeadHolderExpires(now: real, es: seq<Event>, later: real, id: Id)
    requires var w := Run(Start(now), es);
             && id in w.clients && w.clients[id].phase.Waiting? && w.now <= later
             && (w.cell.Held? && w.cell.token in w.clients ==> w.now + w.clients[w.cell.token].ttl <= later)
    ensures var w := Run(Start(now), es);
            Step(Step(w, Tick(later)), Acquire(id, Fine)).Owns(id)
  {
    SafeRun(Start(now), es);
  }

  // -- Auto-extend ------------------------------------------------------------------------------

  /** The client's extends all succeed and no clock tick reaches a full TTL past the last of them,
      reading only the events. */
  predicate Punctual(es: seq<Event>, id: Id, ttl: real, now: real, last: real)
    decreases |es|
  {
    es == [] ||
    (match es[0]
     case Tick(to) => (now <= to ==> to < last + ttl) && Punctual(es[1..], id, ttl, if now <= to then to else now, last)
     case Extend(i, reply) =>
       if i == id then reply.Fine? && Punctual(es[1..], id, ttl, now, now)
       else Punctual(es[1..], id, ttl, now, last)
     case BodyEnds(i, _) => i == id || Punctual(es[1..], id, ttl, now, last)
     case _ => Punctual(es[1..], id, ttl, now, last))
  }

  predicate InBlock(w: World, id: Id) { id in w.clients && w.clients[id].phase.Inside? }

  lemma NotInsideStays(w: World, es: seq<Event>, id: Id)
    requires id in w.clients && !w.clients[id].phase.Inside? && !w.clients[id].phase.Waiting?
    ensures !InBlock(Run(w, es), id)
    decreases |es|
  {
    if es != [] { NotInsideStays(Step(w, es[0]), es[1..], id); }
  }

  /** A client extended in time owns the key for as long as it is in the block, in every interleaving
      with every other client. */
  lemma {:induction false} ExtendedNeverLapses(w: World, es: seq<Event>, id: Id, last: real)
    requires Safe(w) && id in w.clients && w.clients[id].extending
    requires w.clients[id].phase == Inside(last + w.clients[id].ttl) && w.now < last + w.clients[id].ttl
    requires Punctual(es, id, w.clients[id].ttl, w.now, last)
    ensures InBlock(Run(w, es), id) ==> Run(w, es).Owns(id)
    ensures forall other | other != id && InBlock(Run(w, es), id) && InBlock(Run(w, es), other) ::
              Run(w, es).clients[other].phase.deadline <= Run(w, es).now
    decreases |es|
  {
    SafeRun(w, es);
    if es != [] {
      var w1 := Step(w, es[0]);
      SafeStep(w, es[0]);
      if es[0].BodyEnds? && es[0].id == id {
        NotInsideStays(w1, es[1..], id);
      } else {
        ExtendedNeverLapses(w1, es[1..], id, if es[0].Extend? && es[0].id == id then w.now else last);
      }
    }
  }

  /** One acquire or extend call: how long until Redis applies it, and how long until its caller goes on. */
  datatype Call = Call(request: real, reply: real)

  /** Call 0 is the acquire, the others are the extends in turn. */
  type Calls = nat -> Call

  /** When Redis applies call `i`, if it applies call 0 at `first`: the loop sleeps half a TTL after every
      reply. */
  function AppliedAt(first: real, ttl: real, calls: Calls, i: nat): real {
    if i == 0 then first
    else AppliedAt(first, ttl, calls, i - 1) + calls(i - 1).reply + ttl / 2.0 + calls(i).request
  }

  /** The events of a run, from `now` on, in which the client's next extend is call `i`: each extend gets
      through at its time, the clock does not pass that time without it, until the client's block ends. */
  predicate Follows(es: seq<Event>, id: Id, ttl: real, now: real, first: real, calls: Calls, i: nat)
    decreases |es|
  {
    es == [] ||
    (match es[0]
     case Tick(to) =>
       && (now <= to ==> to <= AppliedAt(first, ttl, calls, i))
       && Follows(es[1..], id, ttl, if now <= to then to else now, first, calls, i)
     case Extend(j, reply) =>
       if j == id then
         reply.Fine? && now == AppliedAt(first, ttl, calls, i) && Follows(es[1..], id, ttl, now, first, calls, i + 1)
       else Follows(es[1..], id, ttl, now, first, calls, i)
     case BodyEnds(j, _) => j == id || Follows(es[1..], id, ttl, now, first, calls, i)
     case _ => Follows(es[1..], id, ttl, now, first, calls, i))
  }

  /** Each reply and the request after it together take less than half a TTL. */
  ghost predicate OnTime(ttl: real, calls: Calls) {
    forall i: nat :: calls(i).reply + calls(i + 1).request < ttl / 2.0
  }

  /** The client has just acquired the lock and extends it from now on. */
  predicate JustAcquired(w: World, id: Id) {
    && id in w.clients && w.clients[id].extending
    && w.clients[id].phase == Inside(w.now + w.clients[id].ttl)
    && w.cell == Held(id, w.now + w.clients[id].ttl)
  }

  /** A client that finds the key free holds it for its TTL. The extend schedule starts for it exactly if it asked
      for auto-extend; if not, its time never grows, in any run. */
  lemma AcquireStarts(w: World, id: Id, ttl: real, autoExtend: bool, es: seq<Event>)
    requires id !in w.clients && ttl > 0.0 && w.IsFree()
    ensures var w1 := Step(Step(w, Begin(id, ttl, autoExtend)), Acquire(id, Fine));
            && w1.Owns(id) && w1.cell == Held(id, w.now + ttl) && InBlock(w1, id)
            && w1.clients[id].phase == Inside(w.now + ttl)
            && (JustAcquired(w1, id) <==> autoExtend)
            && (!autoExtend && InBlock(Run(w1, es), id) ==> Run(w1, es).clients[id].phase == Inside(w.now + ttl))
  {
    var w1 := Step(Step(w, Begin(id, ttl, autoExtend)), Acquire(id, Fine));
    if !autoExtend { LoopIsOver(w1, id, es); }
  }

  /** In every run that follows the schedule, whatever all others do, the client owns the key while it is in
      the block. */
  ghost predicate KeepsLock(w: World, id: Id, calls: Calls)
    requires id in w.clients
  {
    forall es | Follows(es, id, w.clients[id].ttl, w.now, w.now, calls, 1) && InBlock(Run(w, es), id) ::
      Run(w, es).Owns(id)
  }

  lemma {:induction false} FollowsIsPunctual(es: seq<Event>, id: Id, ttl: real, now: real, first: real, calls: Calls,
                                             i: nat)
    requires i >= 1 && OnTime(ttl, calls) && Follows(es, id, ttl, now, first, calls, i)
    ensures Punctual(es, id, ttl, now, AppliedAt(first, ttl, calls, i - 1))
    decreases |es|
  {
    if es != [] && !(es[0].BodyEnds? && es[0].id == id) {
      assert calls(i - 1).reply + calls(i - 1 + 1).request < ttl / 2.0;
      var later := if es[0].Tick? && now <= es[0].to then es[0].to else now;
      FollowsIsPunctual(es[1..], id, ttl, later, first, calls, if es[0].Extend? && es[0].id == id then i + 1 else i);
    }
  }

  lemma OnTimeKeepsLock(w: World, id: Id, calls: Calls)
    requires Safe(w) && JustAcquired(w, id) && OnTime(w.clients[id].ttl, calls)
    ensures KeepsLock(w, id, calls)
  {
    var ttl := w.clients[id].ttl;
    forall es | Follows(es, id, ttl, w.now, w.now, calls, 1) && InBlock(Run(w, es), id) ensures Run(w, es).Owns(id) {
      FollowsIsPunctual(es, id, ttl, w.now, w.now, calls, 1);
      ExtendedNeverLapses(w, es, id, w.now);
    }
  }

  /** Extends `i` to `k`, each at its time. */
  function Extends(id: Id, first: real, ttl: real, calls: Calls, i: nat, k: nat): seq<Event>
    decreases k + 1 - i
  {
    if i > k then []
    else [Tick(AppliedAt(first, ttl, calls, i)), Extend(id, Fine)] + Extends(id, first, ttl, calls, i + 1, k)
  }

  /** The client last acquired or extended at `at`. */
  function HeldFrom(w: World, id: Id, at: real): World
    requires id in w.clients
  {
    World(at, Held(id, at + w.clients[id].ttl),
        w.clients[id := Client(w.clients[id].ttl, true, Inside(at + w.clients[id].ttl))])
  }

  /** From call `i` on, running `es` comes to the same as holding the lock since call `k` and running `rest`. */
  ghost predicate Leads(w: World, id: Id, first: real, calls: Calls, i: nat, es: seq<Event>, k: nat, rest: seq<Event>)
    requires i >= 1 && id in w.clients
  {
    var ttl := w.clients[id].ttl;
    var at, end := AppliedAt(first, ttl, calls, i - 1), AppliedAt(first, ttl, calls, k);
    && Run(HeldFrom(w, id, at), es) == Run(HeldFrom(w, id, end), rest)
    && (Follows(es, id, ttl, at, first, calls, i) <==> Follows(rest, id, ttl, end, first, calls, k + 1))
  }

  lemma LeadsOn(w: World, id: Id, first: real, calls: Calls, i: nat, es: seq<Event>, more: seq<Event>, k: nat,
                rest: seq<Event>)
    requires i >= 1 && id in w.clients
    requires Leads(w, id, first, calls, i, es, i, more) && Leads(w, id, first, calls, i + 1, more, k, rest)
    ensures Leads(w, id, first, calls, i, es, k, rest)
  {
  }

  lemma OneExtend(w: World, id: Id, ttl: real, first: real, calls: Calls, i: nat, rest: seq<Event>)
    requires i >= 1 && id in w.clients && ttl == w.clients[id].ttl && ttl > 0.0
    requires calls(i - 1).reply >= 0.0 && calls(i).request >= 0.0 && calls(i - 1).reply + calls(i).request < ttl / 2.0
    ensures Leads(w, id, first, calls, i, [Tick(AppliedAt(first, ttl, calls, i)), Extend(id, Fine)] + rest, i, rest)
  {
    var at, due := AppliedAt(first, ttl, calls, i - 1), AppliedAt(first, ttl, calls, i);
    var es := [Tick(due), Extend(id, Fine)] + rest;
    assert es[1..] == [Extend(id, Fine)] + rest && es[1..][1..] == rest;
    ExtendHolds(w, id, at, due);
    assert Follows(es, id, ttl, at, first, calls, i) <==> Follows(es[1..], id, ttl, due, first, calls, i);
  }

  /** An extend less than a TTL after the last one holds the lock from then. */
  lemma ExtendHolds(w: World, id: Id, at: real, due: real)
    requires id in w.clients && at < due < at + w.clients[id].ttl
    ensures Step(Step(HeldFrom(w, id, at), Tick(due)), Extend(id, Fine)) == HeldFrom(w, id, due)
  {
  }

  /** No call before call `k` is late. */
  ghost predicate Timely(ttl: real, calls: Calls, k: nat) {
    && (forall j: nat :: calls(j).request >= 0.0 && calls(j).reply >= 0.0)
    && (forall j: nat | j < k :: calls(j).reply + calls(j + 1).request < ttl / 2.0)
  }

  lemma TimelyCall(ttl: real, calls: Calls, k: nat, i: nat)
    requires Timely(ttl, calls, k) && 1 <= i <= k
    ensures calls(i - 1).reply >= 0.0 && calls(i).request >= 0.0 && calls(i - 1).reply + calls(i).request < ttl / 2.0
  {
    assert calls(i - 1).reply + calls(i - 1 + 1).request < ttl / 2.0;
  }

  lemma ExtendsSplit(id: Id, first: real, ttl: real, calls: Calls, i: nat, k: nat, rest: seq<Event>)
    requires i <= k
    ensures Extends(id, first, ttl, calls, i, k) + rest
         == [Tick(AppliedAt(first, ttl, calls, i)), Extend(id, Fine)]
             + (Extends(id, first, ttl, calls, i + 1, k) + rest)
  {
  }

  /** Extends `i` to `k` keep the lock. */
  ghost predicate Bridges(w: World, id: Id, first: real, calls: Calls, i: nat, k: nat, rest: seq<Event>)
    requires id in w.clients
  {
    i >= 1 && Leads(w, id, first, calls, i, Extends(id, first, w.clients[id].ttl, calls, i, k) + rest, k, rest)
  }

  lemma BridgesOneMore(w: World, id: Id, first: real, calls: Calls, i: nat, k: nat, rest: seq<Event>)
    requires id in w.clients && w.clients[id].ttl > 0.0 && 1 <= i <= k && Timely(w.clients[id].ttl, calls, k)
    requires Bridges(w, id, first, calls, i + 1, k, rest)
    ensures Bridges(w, id, first, calls, i, k, rest)
  {
    var ttl := w.clients[id].ttl;
    var more := Extends(id, first, ttl, calls, i + 1, k) + rest;
    ExtendsSplit(id, first, ttl, calls, i, k, rest);
    TimelyCall(ttl, calls, k, i);
    OneExtend(w, id, ttl, first, calls, i, more);
    LeadsOn(w, id, first, calls, i, Extends(id, first, ttl, calls, i, k) + rest, more, k, rest);
  }

  lemma BridgesNone(w: World, id: Id, first: real, calls: Calls, k: nat, rest: seq<Event>)
    requires id in w.clients
    ensures Bridges(w, id, first, calls, k + 1, k, rest)
  {
    assert Extends(id, first, w.clients[id].ttl, calls, k + 1, k) + rest == rest;
  }

  /** Extends that are on time so far keep the lock so far. */
  lemma {:induction false} ExtendsRun(w: World, id: Id, first: real, calls: Calls, i: nat, k: nat, rest: seq<Event>)
    requires 1 <= i <= k + 1 && id in w.clients && w.clients[id].ttl > 0.0 && Timely(w.clients[id].ttl, calls, k)
    ensures Bridges(w, id, first, calls, i, k, rest)
    decreases k + 1 - i
  {
    if i > k {
      BridgesNone(w, id, first, calls, k, rest);
    } else {
      ExtendsRun(w, id, first, calls, i + 1, k, rest);
      BridgesOneMore(w, id, first, calls, i, k, rest);
    }
  }

  lemma FreshAbove(ids: set<Id>) returns (id: Id)
    ensures forall x | x in ids :: x < id
    decreases |ids|
  {
    if ids == {} {
      id := 0;
    } else {
      var x :| x in ids;
      var rest := FreshAbove(ids - {x});
      id := if rest > x then rest else x + 1;
      assert forall y | y in ids :: y == x || y in ids - {x};
    }
  }

  /** The TTL runs out before call k + 1: a newcomer gets in. */
  lemma NewcomerEnters(w: World, id: Id, at: real, first: real, calls: Calls, k: nat, other: Id)
    requires id in w.clients && w.clients[id].ttl > 0.0 && other !in w.clients
        && at == AppliedAt(first, w.clients[id].ttl, calls, k)
    requires calls(k).reply + calls(k + 1).request >= w.clients[id].ttl / 2.0
    ensures var ttl := w.clients[id].ttl;
            var es := [Begin(other, ttl, false), Tick(at + ttl), Acquire(other, Fine)];
            var w1 := Run(HeldFrom(w, id, at), es);
            && Follows(es, id, ttl, at, first, calls, k + 1)
            && InBlock(w1, id) && InBlock(w1, other) && w1.Owns(other)
  {
    var ttl := w.clients[id].ttl;
    var w0 := HeldFrom(w, id, at);
    RunThree(w0, Begin(other, ttl, false), Tick(at + ttl), Acquire(other, Fine));
    assert at + ttl <= AppliedAt(first, ttl, calls, k + 1);
    FollowsThree(id, ttl, at, first, calls, k + 1, Begin(other, ttl, false), Tick(at + ttl), Acquire(other, Fine));
  }

  lemma RunThree(w: World, a: Event, b: Event, c: Event)
    ensures Run(w, [a, b, c]) == Step(Step(Step(w, a), b), c)
  {
    RunOne(w, a);
    RunAppend(w, [a], [b]);
    RunOne(Step(w, a), b);
    RunAppend(w, [a] + [b], [c]);
    RunOne(Step(Step(w, a), b), c);
    assert [a] + [b] + [c] == [a, b, c];
  }

  lemma FollowsThree(id: Id, ttl: real, now: real, first: real, calls: Calls, i: nat, a: Event, b: Event, c: Event)
    requires a.Begin? && c.Acquire? && b.Tick? && now <= b.to <= AppliedAt(first, ttl, calls, i)
    ensures Follows([a, b, c], id, ttl, now, first, calls, i)
  {
    assert [a, b, c][1..] == [b, c] && [b, c][1..] == [c];
    assert Follows([c][1..], id, ttl, b.to, first, calls, i);
    assert Follows([c], id, ttl, b.to, first, calls, i);
    assert Follows([b, c], id, ttl, now, first, calls, i);
  }

  /** Of a schedule with a late call take the first one: the extends before it get through, then the TTL
      runs out, and a second client is in the block, owning the key, while the first still is. */
  lemma LateLetsIn(w: World, id: Id, calls: Calls, k: nat) returns (es: seq<Event>, other: Id)
    requires JustAcquired(w, id) && w.clients[id].ttl > 0.0
    requires Timely(w.clients[id].ttl, calls, k)
    requires calls(k).reply + calls(k + 1).request >= w.clients[id].ttl / 2.0
    ensures Follows(es, id, w.clients[id].ttl, w.now, w.now, calls, 1) && other != id
    ensures InBlock(Run(w, es), id) && InBlock(Run(w, es), other) && Run(w, es).Owns(other)
  {
    var ttl := w.clients[id].ttl;
    var at := AppliedAt(w.now, ttl, calls, k);
    other := FreshAbove(w.clients.Keys);
    var entering := [Begin(other, ttl, false), Tick(at + ttl), Acquire(other, Fine)];
    es := Extends(id, w.now, ttl, calls, 1, k) + entering;
    assert HeldFrom(w, id, w.now) == w;
    ExtendsRun(w, id, w.now, calls, 1, k, entering);
    NewcomerEnters(w, id, at, w.now, calls, k, other);
  }

  lemma {:induction false} FirstLate(ttl: real, calls: Calls, late: nat) returns (k: nat)
    requires calls(late).reply + calls(late + 1).request >= ttl / 2.0
    ensures calls(k).reply + calls(k + 1).request >= ttl / 2.0
    ensures forall j: nat | j < k :: calls(j).reply + calls(j + 1).request < ttl / 2.0
  {
    k := 0;
    while calls(k).reply + calls(k + 1).request < ttl / 2.0
      invariant k <= late
      invariant forall j: nat | j < k :: calls(j).reply + calls(j + 1).request < ttl / 2.0
      decreases late - k
    {
      k := k + 1;
    }
  }

  /** Extending every half TTL keeps the lock, in all runs of that schedule with any other clients, exactly
      when each reply and the request after it together take less than half a TTL. */
  lemma ExtendScheduleIsExact(w: World, id: Id, calls: Calls)
    requires Safe(w) && JustAcquired(w, id)
    requires forall j: nat :: calls(j).request >= 0.0 && calls(j).reply >= 0.0
    ensures OnTime(w.clients[id].ttl, calls) <==> KeepsLock(w, id, calls)
  {
    var ttl := w.clients[id].ttl;
    if OnTime(ttl, calls) {
      OnTimeKeepsLock(w, id, calls);
    } else {
      var late: nat :| calls(late).reply + calls(late + 1).request >= ttl / 2.0;
      var k := FirstLate(ttl, calls, late);
      var es, other := LateLetsIn(w, id, calls, k);
      assert Run(w, es).cell.token == other;
    }
  }

  /** Calls that take under a quarter of the TTL each are enough. */
  lemma QuarterIsEnough(w: World, id: Id, calls: Calls)
    requires Safe(w) && JustAcquired(w, id)
    requires forall j: nat :: calls(j).request >= 0.0 && calls(j).reply >= 0.0
                              && calls(j).request + calls(j).reply < w.clients[id].ttl / 4.0
    ensures KeepsLock(w, id, calls)
  {
    forall i: nat ensures calls(i).reply + calls(i + 1).request < w.clients[id].ttl / 2.0 {
      assert calls(i).reply < w.clients[id].ttl / 4.0 && calls(i + 1).request < w.clients[id].ttl / 4.0;
    }
    OnTimeKeepsLock(w, id, calls);
  }

  /** Calls that take under half of it each are not: for every TTL there is a run of such calls in which a
      slow reply is followed by a slow request and two clients are in the block at once. */
  lemma HalfIsNotEnough(ttl: real) returns (calls: Calls, es: seq<Event>, other: Id)
    requires ttl > 0.0
    ensures forall j: nat ::
              calls(j).request >= 0.0 && calls(j).reply >= 0.0 && calls(j).request + calls(j).reply < ttl / 2.0
    ensures Follows(es, 0, ttl, 0.0, 0.0, calls, 1) && other != 0
    ensures var w := Run(Start(0.0), [Begin(0, ttl, true), Acquire(0, Fine)] + es);
            InBlock(w, 0) && InBlock(w, other) && w.Owns(other)
  {
    var slow := ttl * 0.4;
    calls := (i: nat) => if i == 0 then Call(0.0, slow) else Call(slow, 0.0);
    var begin := [Begin(0, ttl, true), Acquire(0, Fine)];
    var w := Run(Start(0.0), begin);
    RunOne(Start(0.0), begin[0]);
    RunOne(Step(Start(0.0), begin[0]), begin[1]);
    assert begin == [begin[0]] + [begin[1]];
    RunAppend(Start(0.0), [begin[0]], [begin[1]]);
    assert JustAcquired(w, 0);
    es, other := LateLetsIn(w, 0, calls, 0);
    RunAppend(Start(0.0), begin, es);
  }

  // -- The context manager, with everyone else running between its awaits -------------------------

  /** What may happen while this use waits for a command: anything but its own commands, and in the block
      also its extend task's. */
  predicate Outside(id: Id, e: Event) { e.Tick? || e.id != id }

  predicate DuringBody(id: Id, e: Event) { e.Tick? || e.id != id || e.Extend? }

  predicate AllOutside(id: Id, es: seq<Event>) { forall i | 0 <= i < |es| :: Outside(id, es[i]) }

  predicate AllDuringBody(id: Id, es: seq<Event>) { forall i | 0 <= i < |es| :: DuringBody(id, es[i]) }

  lemma {:induction false} OthersKeep(w: World, id: Id, es: seq<Event>)
    requires AllOutside(id, es) && id in w.clients
    ensures id in Run(w, es).clients && Run(w, es).clients[id] == w.clients[id]
    decreases |es|
  {
    if es != [] {
      assert Outside(id, es[0]);
      assert forall i | 0 <= i < |es| - 1 :: es[1..][i] == es[i + 1];
      OthersKeep(Step(w, es[0]), id, es[1..]);
    }
  }

  lemma {:induction false} BodyKeeps(w: World, id: Id, es: seq<Event>)
    requires AllDuringBody(id, es) && InBlock(w, id)
    ensures InBlock(Run(w, es), id)
    decreases |es|
  {
    if es != [] {
      assert DuringBody(id, es[0]);
      assert forall i | 0 <= i < |es| - 1 :: es[1..][i] == es[i + 1];
      BodyKeeps(Step(w, es[0]), id, es[1..]);
    }
  }

  /** One attempt to acquire and what others do before the next one. */
  datatype Poll = Poll(reply: Reply, others: seq<Event>)

  predicate IsWaiting(w: World, id: Id) { id in w.clients && w.clients[id].phase.Waiting? }

  /** The events of `lock.acquire()`: attempts until one wins or fails, or the time is up. */
  function AcquireTrace(w: World, id: Id, polls: seq<Poll>): seq<Event>
    decreases |polls|
  {
    if polls == [] then [GiveUp(id)]
    else
      var w1 := Step(w, Acquire(id, polls[0].reply));
      if IsWaiting(w1, id) then
        [Acquire(id, polls[0].reply)] + polls[0].others + AcquireTrace(Run(w1, polls[0].others), id, polls[1..])
      else [Acquire(id, polls[0].reply)]
  }

  class LockKey {
    var now: real
    var cell: Cell
    var clients: map<Id, Client>

    ghost function Snapshot(): World
      reads this
    {
      World(now, cell, clients)
    }

    constructor (now: real)
      ensures Snapshot() == Start(now)
    {
      this.now := now;
      cell, clients := Free, map[];
    }

    method Others(es: seq<Event>)
      modifies this
      ensures Snapshot() == Run(old(Snapshot()), es)
    {
      for i := 0 to |es|
        invariant Snapshot() == Run(old(Snapshot()), es[..i])
      {
        ghost var before := Snapshot();
        var w := Step(World(now, cell, clients), es[i]);
        now, cell, clients := w.now, w.cell, w.clients;
        RunAppend(old(Snapshot()), es[..i], [es[i]]);
        RunOne(before, es[i]);
        assert es[..i] + [es[i]] == es[..i + 1];
      }
      assert es[..|es|] == es;
    }

    /** `lock.acquire()`: SET NX PX with this use's token, polled until it succeeds, fails or times out. */
    method AcquireLock(id: Id, polls: seq<Poll>) returns (acquired: bool, ghost trace: seq<Event>)
      requires id in clients && clients[id].phase.Waiting? && clients[id].ttl > 0.0
      requires forall i | 0 <= i < |polls| :: AllOutside(id, polls[i].others)
      modifies this
      ensures trace == AcquireTrace(old(Snapshot()), id, polls) && Snapshot() == Run(old(Snapshot()), trace)
      ensures id in clients && clients[id].ttl == old(clients[id].ttl)
      ensures acquired ==> clients[id].phase == Inside(now + clients[id].ttl) && cell == Held(id, now + clients[id].ttl)
      ensures !acquired ==> trace != [] && clients[id].phase == if trace[|trace| - 1].GiveUp? then Refused else Broken
    {
      ghost var w0 := Snapshot();
      trace := [];
      for i := 0 to |polls|
        invariant Snapshot() == Run(w0, trace)
        invariant trace + AcquireTrace(Snapshot(), id, polls[i..]) == AcquireTrace(w0, id, polls)
        invariant id in clients && clients[id].phase.Waiting? && clients[id].ttl == old(clients[id].ttl)
      {
        assert polls[i..][1..] == polls[i + 1..];
        ghost var attempt := [Acquire(id, polls[i].reply)];
        RunOne(Snapshot(), attempt[0]);
        TryAcquire(id, polls[i].reply);
        RunAppend(w0, trace, attempt);
        if !clients[id].phase.Waiting? {
          return clients[id].phase.Inside?, trace + attempt;
        }
        ghost var tried := Snapshot();
        Others(polls[i].others);
        OthersKeep(tried, id, polls[i].others);
        RunAppend(w0, trace + attempt, polls[i].others);
        Regroup(trace, attempt, polls[i].others, AcquireTrace(Snapshot(), id, polls[i + 1..]));
        trace := trace + attempt + polls[i].others;
      }
      RunAppend(w0, trace, [GiveUp(id)]);
      RunOne(Snapshot(), GiveUp(id));
      trace := trace + [GiveUp(id)];
      clients := clients[id := clients[id].(phase := Refused)];
      return false, trace;
    }

    /** One attempt: it wins, fails, or leaves the client waiting. */
    method TryAcquire(id: Id, reply: Reply)
      requires id in clients && clients[id].phase.Waiting?
      modifies this
      ensures Snapshot() == Step(old(Snapshot()), Acquire(id, reply))
      ensures id in clients && clients[id].ttl == old(clients[id].ttl)
      ensures clients[id].phase.Waiting? || clients[id].phase.Broken?
              || (clients[id].phase == Inside(now + clients[id].ttl) && cell == Held(id, now + clients[id].ttl))
    {
      var deadline := now + clients[id].ttl;
      var won := cell.Free? || cell.expireAt <= now;
      if won && Applies(reply) { cell := Held(id, deadline); }
      if !reply.Fine? {
        clients := clients[id := clients[id].(phase := Broken)];
      } else if won {
        clients := clients[id := clients[id].(phase := Inside(deadline))];
      }
    }

    /** `async with redis_lock(...)` around a body: however the body ends, release is attempted once, the
        body's own outcome comes out unless the release itself is cancelled, and the key no longer
        carries this token unless the release command did not reach Redis. */
    method RedisLock(id: Id, polls: seq<Poll>, during: seq<Event>, body: Outcome, after: seq<Event>,
                     releaseReply: Reply)
      returns (entered: bool, ghost trace: seq<Event>)
      requires id in clients && clients[id].phase.Waiting? && clients[id].ttl > 0.0
      requires forall i | 0 <= i < |polls| :: AllOutside(id, polls[i].others)
      requires AllDuringBody(id, during) && AllOutside(id, after)
      modifies this
      ensures Snapshot() == Run(old(Snapshot()), trace)
      ensures trace == AcquireTrace(old(Snapshot()), id, polls)
                       + if entered then during + [BodyEnds(id, body)] + after + [Release(id, releaseReply)] else []
      ensures id in clients
      ensures !entered ==> clients[id].phase.Refused? || clients[id].phase.Broken?
      ensures entered ==> clients[id].phase == Left(if releaseReply.Interrupted? then Cancelled else body)
      ensures entered && Applies(releaseReply) ==> cell.Free? || cell.token != id || cell.expireAt <= now
    {
      ghost var w0 := Snapshot();
      entered, trace := AcquireLock(id, polls);
      if !entered { return; }
      ghost var left := HoldAndRelease(id, during, body, after, releaseReply);
      RunAppend(w0, trace, left);
      trace := trace + left;
    }

    /** The block, once the lock is held, and its `finally`. */
    method HoldAndRelease(id: Id, during: seq<Event>, body: Outcome, after: seq<Event>, releaseReply: Reply)
      returns (ghost trace: seq<Event>)
      requires id in clients && clients[id].phase.Inside?
      requires AllDuringBody(id, during) && AllOutside(id, after)
      modifies this
      ensures trace == during + [BodyEnds(id, body)] + after + [Release(id, releaseReply)]
      ensures Snapshot() == Run(old(Snapshot()), trace)
      ensures id in clients && clients[id].phase == Left(if releaseReply.Interrupted? then Cancelled else body)
      ensures Applies(releaseReply) ==> cell.Free? || cell.token != id || cell.expireAt <= now
    {
      ghost var w1 := Snapshot();
      Others(during);
      BodyKeeps(w1, id, during);
      ghost var w2 := Snapshot();
      clients := clients[id := clients[id].(phase := Leaving(body))];
      ghost var w3 := Snapshot();
      Others(after);
      OthersKeep(w3, id, after);
      ghost var w4 := Snapshot();
      if cell.Held? && cell.token == id && now < cell.expireAt && Applies(releaseReply) { cell := Free; }
      clients := clients[id := clients[id].(phase := Left(if releaseReply.Interrupted? then Cancelled else body))];
      assert Snapshot() == Step(w4, Release(id, releaseReply));
      RunOne(w2, BodyEnds(id, body));
      RunAppend(w1, during, [BodyEnds(id, body)]);
      RunAppend(w1, during + [BodyEnds(id, body)], after);
      RunOne(w4, Release(id, releaseReply));
      RunAppend(w1, during + [BodyEnds(id, body)] + after, [Release(id, releaseReply)]);
      trace := during + [BodyEnds(id, body)] + after + [Release(id, releaseReply)];
    }
  }

  lemma Regroup(a: seq<Event>, b: seq<Event>, c: seq<Event>, d: seq<Event>)
    ensures a + (b + c + d) == (a + b + c) + d
  {
  }
}
