/** Cache-aside with stampede protection: any number of `get_or_set` callers on one cache key, step by
    step against a store whose commands may fail and whose entry and lock may vanish. */
module Cached {

  import opened Wrappers

  /** One call of `get_or_set`; each draws its own lock token, so the call is the token. */
  type Id = nat

  /** A Python value; `PyNone` is the stored `None` that still counts as a hit. */
  datatype Value = PyNone | Val(n: int)

  type Raw = string

  /** `dumps` fails with TypeError or ValueError, `loads` with anything. */
  datatype Serializer = Serializer(dumps: Value -> Option<Raw>, loads: Raw -> Option<Value>)

  datatype Error = LockAcquireError | RedisError | OtherError | TaskCancelled

  /** What one run of the factory does. */
  type FactoryResult = Result<Value, Error>

  datatype Phase =
    | First                      // about to look up, without the lock
    | Locking                    // waiting for the lock
    | Second                     // holds the lock; about to look up again
    | ComputeHeld                // holds the lock; about to run the factory
    | ComputeFree                // about to run the factory without the lock
    | Storing(value: Value, held: bool)
    | Unlocking(next: Next)      // leaving the lock block
    | Done(result: FactoryResult)

  datatype Next = Return(result: FactoryResult) | FallThrough

  /** `runs` is every factory result this call has had: bookkeeping. */
  datatype Caller = Caller(phase: Phase, runs: seq<FactoryResult>)

  /** `stored` is every string this key has ever held: bookkeeping. */
  datatype World = World(
    protect: bool,               // stampede_protection
    entry: Option<Raw>,
    lock: Option<Id>,
    callers: map<Id, Caller>,
    stored: set<Raw>)
  {
    predicate At(id: Id, phase: Phase) { id in callers && callers[id].phase == phase }

    function Move(id: Id, phase: Phase): World
      requires id in callers
    {
      this.(callers := callers[id := callers[id].(phase := phase)])
    }
  }

  datatype Event =
    | Call(id: Id)
    | Lookup(id: Id, up: bool)
    | Acquire(id: Id, up: bool, applied: bool)
    | TimeOut(id: Id)
    | Factory(id: Id, result: FactoryResult)
    | Store(id: Id, up: bool, applied: bool)
    | Unlock(id: Id, applied: bool)
    | Cancel(id: Id)
    | Evict                      // expiry or delete
    | SetByOther(raw: Raw)       // another writer of the key
    | LockLapses

  /** `_lookup`: a failed read, a missing entry and an undecodable one are all misses. */
  function LookupResult(w: World, z: Serializer, up: bool): Option<Value> {
    if up && w.entry.Some? then z.loads(w.entry.value) else None
  }

  /** What `Cache.get` hands its caller. */
  datatype GetAnswer = Got(value: Value) | DecodeFailedSentinel

  function Get(w: World, z: Serializer, up: bool): GetAnswer {
    if !up || w.entry.None? then Got(PyNone)
    else match z.loads(w.entry.value)
      case Some(value) => Got(value)
      case None => DecodeFailedSentinel
  }

  /** `Cache.get` is documented to return the value or None on a miss. It does so exactly when the entry is
      not an undecodable one that could be read: then its caller gets the internal sentinel. */
  lemma GetMatchesItsDocumentation(w: World, z: Serializer, up: bool)
    ensures Get(w, z, up) == Got(if LookupResult(w, z, up).Some? then LookupResult(w, z, up).value else PyNone)
       <==> !(up && w.entry.Some? && z.loads(w.entry.value).None?)
  {
  }

  function StepLookup(w: World, z: Serializer, id: Id, up: bool): World {
    var found := LookupResult(w, z, up);
    if w.At(id, First) then
      w.Move(id, if found.Some? then Done(Ok(found.value)) else if w.protect then Locking else ComputeFree)
    else if w.At(id, Second) then
      w.Move(id, if found.Some? then Unlocking(Return(Ok(found.value))) else ComputeHeld)
    else w
  }

  function StepAcquire(w: World, id: Id, up: bool, applied: bool): World {
    if !w.At(id, Locking) then w
    else if !up then
      (if w.lock.None? && applied then w.(lock := Some(id)) else w).Move(id, ComputeFree)
    else if w.lock.None? then w.(lock := Some(id)).Move(id, Second)
    else w
  }

  /** The factory under the lock: its own LockAcquireError is taken for a lock timeout and it runs again. */
  function StepFactory(w: World, id: Id, result: FactoryResult): World {
    if id !in w.callers || !(w.callers[id].phase.ComputeHeld? || w.callers[id].phase.ComputeFree?) then w
    else
      var held := w.callers[id].phase.ComputeHeld?;
      var w1 := w.(callers := w.callers[id := w.callers[id].(runs := w.callers[id].runs + [result])]);
      match result
      case Ok(value) => w1.Move(id, Storing(value, held))
      case Err(e) =>
        w1.Move(id,
          if !held then Done(Err(e))
          else if e.LockAcquireError? then Unlocking(FallThrough)
          else Unlocking(Return(Err(e))))
  }

  /** `Cache.set`: a value that does not serialize and a store that is down are both ignored. */
  function StepStore(w: World, z: Serializer, id: Id, up: bool, applied: bool): World {
    if id !in w.callers || !w.callers[id].phase.Storing? then w
    else
      var value := w.callers[id].phase.value;
      var w1 := w.Move(id, if w.callers[id].phase.held then Unlocking(Return(Ok(value))) else Done(Ok(value)));
      match z.dumps(value)
      case None => w1
      case Some(raw) => if up || applied then Put(w1, raw) else w1
  }

  function Put(w: World, raw: Raw): World { w.(entry := Some(raw), stored := w.stored + {raw}) }

  /** Token-checked release; the block's own outcome goes on whatever it does. */
  function StepUnlock(w: World, id: Id, applied: bool): World {
    if id !in w.callers || !w.callers[id].phase.Unlocking? then w
    else
      var w1 := if w.lock == Some(id) && applied then w.(lock := None) else w;
      match w.callers[id].phase.next
      case Return(result) => w1.Move(id, Done(result))
      case FallThrough => w1.Move(id, ComputeFree)
  }

  function Step(w: World, z: Serializer, e: Event): World {
    match e
    case Call(id) => if id in w.callers then w else w.(callers := w.callers[id := Caller(First, [])])
    case Lookup(id, up) => StepLookup(w, z, id, up)
    case Acquire(id, up, applied) => StepAcquire(w, id, up, applied)
    case TimeOut(id) => if w.At(id, Locking) then w.Move(id, ComputeFree) else w
    case Factory(id, result) => StepFactory(w, id, result)
    case Store(id, up, applied) => StepStore(w, z, id, up, applied)
    case Unlock(id, applied) => StepUnlock(w, id, applied)
    case Cancel(id) => if id in w.callers && !w.callers[id].phase.Done? then w.Move(id, Done(Err(TaskCancelled))) else w
    case Evict => w.(entry := None)
    case SetByOther(raw) => Put(w, raw)
    case LockLapses => w.(lock := None)
  }

  function Run(w: World, z: Serializer, es: seq<Event>): World
    decreases |es|
  {
    if es == [] then w else Run(Step(w, z, es[0]), z, es[1..])
  }

  lemma {:induction false} RunAppend(w: World, z: Serializer, a: seq<Event>, b: seq<Event>)
    ensures Run(w, z, a + b) == Run(Run(w, z, a), z, b)
    decreases |a|
  {
    if a == [] {
      assert a + b == b;
    } else {
      assert (a + b)[1..] == a[1..] + b;
      RunAppend(Step(w, z, a[0]), z, a[1..], b);
    }
  }

  lemma RunOne(w: World, z: Serializer, e: Event)
    ensures Run(w, z, [e]) == Step(w, z, e)
  {
    assert Run(Step(w, z, e), z, []) == Step(w, z, e);
  }

  function Start(protect: bool, entry: Option<Raw>): World {
    World(protect, entry, None, map[], if entry.Some? then {entry.value} else {})
  }

  // -- Agreement, in every run -----------------------------------------------------------------

  /** A returned value is this call's own factory's result or decodes a string the key once held. */
  predicate Sourced(w: World, z: Serializer, id: Id, value: Value)
    requires id in w.callers
  {
    Ok(value) in w.callers[id].runs || exists raw :: raw in w.stored && z.loads(raw) == Some(value)
  }

  predicate ResultSourced(w: World, z: Serializer, id: Id, result: FactoryResult)
    requires id in w.callers
  {
    result.Ok? ==> Sourced(w, z, id, result.value)
  }

  /** What the last run of the factory gave, or a value if it never ran. */
  predicate IsOwn(runs: seq<FactoryResult>, result: FactoryResult) {
    if runs == [] then result.Ok? else result == runs[|runs| - 1]
  }

  predicate CallerSound(w: World, z: Serializer, id: Id)
    requires id in w.callers
  {
    var c := w.callers[id];
    && (c.phase.First? || c.phase.Locking? || c.phase.Second? || c.phase.ComputeHeld? ==> c.runs == [])
    && (c.phase.ComputeFree? ==> c.runs == [] || c.runs == [Err(LockAcquireError)])
    && (c.phase.Storing? ==>
          c.runs != [] && c.runs[|c.runs| - 1] == Ok(c.phase.value) && (c.phase.held ==> |c.runs| == 1))
    && (c.phase.Unlocking? && c.phase.next.FallThrough? ==> c.runs == [Err(LockAcquireError)])
    && (c.phase.Unlocking? && c.phase.next.Return? ==>
          |c.runs| <= 1 && ResultSourced(w, z, id, c.phase.next.result) && IsOwn(c.runs, c.phase.next.result))
    && (c.phase.Done? ==>
          ResultSourced(w, z, id, c.phase.result)
          && (c.phase.result == Err(TaskCancelled) || IsOwn(c.runs, c.phase.result)))
    && |c.runs| <= 2
    && (|c.runs| == 2 ==> c.runs[0] == Err(LockAcquireError))
  }

  predicate Sound(w: World, z: Serializer) {
    && (w.entry.Some? ==> w.entry.value in w.stored)
    && (forall id | id in w.callers :: CallerSound(w, z, id))
  }

  lemma CallerStays(w: World, w1: World, z: Serializer, id: Id)
    requires id in w.callers && CallerSound(w, z, id)
    requires id in w1.callers && w1.callers[id] == w.callers[id] && w.stored <= w1.stored
    ensures CallerSound(w1, z, id)
  {
  }

  lemma LookupSound(w: World, z: Serializer, id: Id, up: bool)
    requires Sound(w, z) && id in w.callers
    ensures CallerSound(StepLookup(w, z, id, up), z, id)
  {
    assert CallerSound(w, z, id);
  }

  lemma LastRun(runs: seq<FactoryResult>, result: FactoryResult)
    ensures var more := runs + [result];
            && |more| == |runs| + 1 && more[|more| - 1] == result
            && (runs == [] ==> more == [result]) && (runs != [] ==> more[0] == runs[0])
  {
  }

  predicate Computing(w: World, id: Id) {
    id in w.callers && (w.callers[id].phase.ComputeHeld? || w.callers[id].phase.ComputeFree?)
  }

  lemma FactoryReturns(w: World, z: Serializer, id: Id, value: Value)
    requires Computing(w, id) && CallerSound(w, z, id)
    ensures CallerSound(StepFactory(w, id, Ok(value)), z, id)
  {
    LastRun(w.callers[id].runs, Ok(value));
  }

  lemma FactoryRaises(w: World, z: Serializer, id: Id, e: Error)
    requires Computing(w, id) && CallerSound(w, z, id)
    ensures CallerSound(StepFactory(w, id, Err(e)), z, id)
  {
    LastRun(w.callers[id].runs, Err(e));
  }

  lemma FactorySound(w: World, z: Serializer, id: Id, result: FactoryResult)
    requires Sound(w, z) && id in w.callers
    ensures CallerSound(StepFactory(w, id, result), z, id)
  {
    assert CallerSound(w, z, id);
    if Computing(w, id) {
      match result
      case Ok(value) => FactoryReturns(w, z, id, value);
      case Err(e) => FactoryRaises(w, z, id, e);
    } else {
      assert StepFactory(w, id, result) == w;
    }
  }

  lemma StoreSound(w: World, z: Serializer, id: Id, up: bool, applied: bool)
    requires Sound(w, z) && id in w.callers
    ensures CallerSound(StepStore(w, z, id, up, applied), z, id)
  {
    assert CallerSound(w, z, id);
    var w1 := StepStore(w, z, id, up, applied);
    assert w1.callers[id].runs == w.callers[id].runs;
  }

  lemma OwnStepSound(w: World, z: Serializer, e: Event, id: Id)
    requires Sound(w, z)
    requires e.Lookup? || e.Acquire? || e.TimeOut? || e.Factory? || e.Store? || e.Unlock? || e.Cancel? || e.Call?
    requires e.id == id && id in Step(w, z, e).callers
    ensures CallerSound(Step(w, z, e), z, id)
  {
    if id in w.callers {
      assert CallerSound(w, z, id);
      match e {
        case Lookup(_, up) => LookupSound(w, z, id, up);
        case Factory(_, result) => FactorySound(w, z, id, result);
        case Store(_, up, applied) => StoreSound(w, z, id, up, applied);
        case _ =>
      }
    }
  }

  lemma SoundStep(w: World, z: Serializer, e: Event)
    requires Sound(w, z)
    ensures Sound(Step(w, z, e), z)
  {
    var w1 := Step(w, z, e);
    forall id | id in w1.callers ensures CallerSound(w1, z, id) {
      if e.Evict? || e.SetByOther? || e.LockLapses? || e.id != id {
        CallerStays(w, w1, z, id);
      } else {
        OwnStepSound(w, z, e, id);
      }
    }
  }

  lemma {:induction false} SoundRun(w: World, z: Serializer, es: seq<Event>)
    requires Sound(w, z)
    ensures Sound(Run(w, z, es), z)
    decreases |es|
  {
    if es != [] {
      SoundStep(w, z, es[0]);
      SoundRun(Step(w, z, es[0]), z, es[1..]);
    }
  }

  /** In every run with failures, lapses, evictions and other writers: what a call returns is its own
      factory's result or the decoding of a string earlier stored under the key; its factory runs at most
      twice, and a second time only when the first run itself raised LockAcquireError. */
  lemma Agreement(protect: bool, entry: Option<Raw>, z: Serializer, es: seq<Event>, id: Id)
    requires id in Run(Start(protect, entry), z, es).callers
    ensures var w := Run(Start(protect, entry), z, es);
            var c := w.callers[id];
            && (c.phase.Done? && c.phase.result.Ok? ==>
                  || Ok(c.phase.result.value) in c.runs
                  || exists raw :: raw in w.stored && z.loads(raw) == Some(c.phase.result.value))
            && |c.runs| <= 2
            && (|c.runs| == 2 ==> c.runs[0] == Err(LockAcquireError))
  {
    SoundRun(Start(protect, entry), z, es);
    assert CallerSound(Run(Start(protect, entry), z, es), z, id);
  }

  /** In every run: a call that is not cancelled ends as its last run of the factory did, or, if that never
      ran, with a value decoded from a string the key once held. So neither Redis nor the lock nor the
      serializer ever fails a call. */
  lemma OnlyTheFactoryFails(protect: bool, entry: Option<Raw>, z: Serializer, es: seq<Event>, id: Id)
    requires var w := Run(Start(protect, entry), z, es);
             id in w.callers && w.callers[id].phase.Done? && w.callers[id].phase.result != Err(TaskCancelled)
    ensures var w := Run(Start(protect, entry), z, es);
            var c := w.callers[id];
            if c.runs != [] then c.phase.result == c.runs[|c.runs| - 1]
            else exists raw, value :: raw in w.stored && z.loads(raw) == Some(value) && c.phase.result == Ok(value)
  {
    SoundRun(Start(protect, entry), z, es);
    var w := Run(Start(protect, entry), z, es);
    assert CallerSound(w, z, id);
    if w.callers[id].runs == [] {
      var raw :| raw in w.stored && z.loads(raw) == Some(w.callers[id].phase.result.value);
    }
  }

  /** A first look-up: if the read gets through and the entry decodes, the call returns that value without
      running the factory, protected or not; if not, it waits for the lock exactly if it is protected, and
      computes at once otherwise. */
  lemma FirstLookupDecides(w: World, z: Serializer, id: Id, up: bool)
    requires w.At(id, First)
    ensures var w1 := Step(w, z, Lookup(id, up));
            var hit := up && w.entry.Some? && z.loads(w.entry.value).Some?;
            && w1.callers[id].runs == w.callers[id].runs && w1.entry == w.entry && w1.lock == w.lock
            && (hit ==> w1.At(id, Done(Ok(z.loads(w.entry.value).value))))
            && (w1.At(id, Locking) <==> !hit && w.protect)
            && (w1.At(id, ComputeFree) <==> !hit && !w.protect)
  {
  }

  /** A wait for the lock ends in the block exactly when an acquire gets through and finds the lock free, and in
      an unprotected computation exactly when it times out or the acquire fails. */
  lemma WaitDecides(w: World, z: Serializer, id: Id, e: Event)
    requires w.At(id, Locking) && e != Cancel(id)
    ensures var w1 := Step(w, z, e);
            var mine := e.Acquire? && e.id == id;
            && (w1.At(id, Second) <==> mine && e.up && w.lock.None?)
            && (w1.At(id, ComputeFree) <==> e == TimeOut(id) || (mine && !e.up))
            && (w1.At(id, Second) || w1.At(id, ComputeFree) || w1.At(id, Locking))
            && (mine ==> w1.lock == if w.lock.None? && (e.up || e.applied) then Some(id) else w.lock)
  {
  }

  /** What the factory returns is kept, under the lock or not: once its store gets through, the next look-up
      returns it, if it reads back, without another run. A factory that raises leaves the entry as it was. */
  lemma ComputedIsKept(w: World, z: Serializer, id: Id, result: FactoryResult, up: bool, applied: bool, next: Id)
    requires (w.At(id, ComputeHeld) || w.At(id, ComputeFree)) && w.At(next, First)
    ensures var w1 := Step(Step(w, z, Factory(id, result)), z, Store(id, up, applied));
            var written := result.Ok? && z.dumps(result.value).Some? && (up || applied);
            && w1.callers[id].runs == w.callers[id].runs + [result]
            && w1.entry == (if written then z.dumps(result.value) else w.entry)
            && (written && z.loads(z.dumps(result.value).value) == Some(result.value) ==>
                  Step(w1, z, Lookup(next, true)).At(next, Done(Ok(result.value))))
  {
  }

  /** Leaving the block frees the lock exactly if it is still this call's and the release takes effect, and no
      other's lock ever; whichever it is, the call ends with its block's outcome or goes on to compute freely. */
  lemma LeavingDecides(w: World, z: Serializer, id: Id, outcome: Next, applied: bool)
    requires w.At(id, Unlocking(outcome))
    ensures var w1 := Step(w, z, Unlock(id, applied));
            && w1.At(id, if outcome.FallThrough? then ComputeFree else Done(outcome.result))
            && w1.callers[id].runs == w.callers[id].runs && w1.entry == w.entry
            && w1.lock == if w.lock == Some(id) && applied then None else w.lock
  {
  }

  // -- Stampede protection -----------------------------------------------------------------------

  /** Redis stays up, the lock does not lapse, nobody times out or is cancelled, the entry is left alone
      and every factory run returns a value that serializes and reads back. */
  predicate Smooth(z: Serializer, e: Event) {
    match e
    case Call(_) => true
    case Lookup(_, up) => up
    case Acquire(_, up, _) => up
    case TimeOut(_) => false
    case Factory(_, result) => result.Ok? && RoundTrips(z, result.value)
    case Store(_, up, _) => up
    case Unlock(_, applied) => applied
    case Cancel(_) => false
    case Evict => false
    case SetByOther(_) => false
    case LockLapses => false
  }

  predicate RoundTrips(z: Serializer, value: Value) {
    z.dumps(value).Some? && z.loads(z.dumps(value).value) == Some(value)
  }

  predicate AllSmooth(z: Serializer, es: seq<Event>) { forall i | 0 <= i < |es| :: Smooth(z, es[i]) }

  predicate HoldsLock(phase: Phase) { phase.Second? || phase.ComputeHeld? || phase.Storing? || phase.Unlocking? }

  function Runners(w: World): set<Id> { set id | id in w.callers && w.callers[id].runs != [] }

  /** The one factory run there has been. */
  datatype Winner = Winner(id: Id, value: Value)

  /** How one caller stands to the winner; `stored` says that the winner's value is in the entry. */
  predicate Fits(lock: Option<Id>, stored: bool, winner: Option<Winner>, id: Id, c: Caller) {
    && (HoldsLock(c.phase) ==> lock == Some(id))
    && c.runs == (if winner.Some? && winner.value.id == id then [Ok(winner.value.value)] else [])
    && match c.phase
       case First => c.runs == []
       case Locking => c.runs == []
       case Second => c.runs == []
       case ComputeHeld => winner.None?
       case ComputeFree => false
       case Storing(value, held) => c.runs == [Ok(value)] && held && !stored
       case Unlocking(next) => stored && winner.Some? && next == Return(Ok(winner.value.value))
       case Done(result) => stored && winner.Some? && result == Ok(winner.value.value)
  }

  predicate Protected(w: World, z: Serializer, winner: Option<Winner>) {
    && w.protect
    && (forall id | id in w.callers :: Fits(w.lock, w.entry.Some?, winner, id, w.callers[id]))
    && (w.lock.Some? ==> w.lock.value in w.callers && HoldsLock(w.callers[w.lock.value].phase))
    && (winner.None? ==> w.entry.None?)
    && (winner.Some? ==>
          && winner.value.id in w.callers && RoundTrips(z, winner.value.value)
          && (w.entry.Some? ==> z.loads(w.entry.value) == Some(winner.value.value))
          && (w.entry.None? ==> w.callers[winner.value.id].phase.Storing?))
  }

  function NextWinner(w: World, e: Event, winner: Option<Winner>): Option<Winner> {
    if e.Factory? && e.result.Ok? && w.At(e.id, ComputeHeld) then Some(Winner(e.id, e.result.value)) else winner
  }

  lemma ProtectedOwn(w: World, z: Serializer, e: Event, winner: Option<Winner>)
    requires Protected(w, z, winner) && Smooth(z, e) && e.id in Step(w, z, e).callers
    ensures var w1 := Step(w, z, e);
            Fits(w1.lock, w1.entry.Some?, NextWinner(w, e, winner), e.id, w1.callers[e.id])
  {
    if e.id in w.callers {
      assert Fits(w.lock, w.entry.Some?, winner, e.id, w.callers[e.id]);
    }
  }

  /** While a caller is past the lock, no other is, and none of the others can see a difference. */
  lemma ProtectedOther(w: World, z: Serializer, e: Event, winner: Option<Winner>, id: Id)
    requires Protected(w, z, winner) && Smooth(z, e) && id in w.callers && id != e.id
    ensures var w1 := Step(w, z, e);
            && id in w1.callers && w1.callers[id] == w.callers[id]
            && Fits(w1.lock, w1.entry.Some?, NextWinner(w, e, winner), id, w.callers[id])
  {
    assert Fits(w.lock, w.entry.Some?, winner, id, w.callers[id]);
    if e.id in w.callers {
      assert Fits(w.lock, w.entry.Some?, winner, e.id, w.callers[e.id]);
    }
  }

  lemma ProtectedStep(w: World, z: Serializer, e: Event, winner: Option<Winner>)
    requires Protected(w, z, winner) && Smooth(z, e)
    ensures Protected(Step(w, z, e), z, NextWinner(w, e, winner))
  {
    var w1 := Step(w, z, e);
    forall id | id in w1.callers ensures Fits(w1.lock, w1.entry.Some?, NextWinner(w, e, winner), id, w1.callers[id]) {
      if id == e.id {
        ProtectedOwn(w, z, e, winner);
      } else {
        ProtectedOther(w, z, e, winner, id);
      }
    }
    if e.id in w.callers {
      assert Fits(w.lock, w.entry.Some?, winner, e.id, w.callers[e.id]);
    }
  }

  lemma {:induction false} ProtectedRun(w: World, z: Serializer, es: seq<Event>, winner: Option<Winner>)
    returns (last: Option<Winner>)
    requires Protected(w, z, winner) && AllSmooth(z, es)
    ensures Protected(Run(w, z, es), z, last)
    decreases |es|
  {
    last := winner;
    if es != [] {
      assert Smooth(z, es[0]);
      ProtectedStep(w, z, es[0], winner);
      assert forall i | 0 <= i < |es| - 1 :: es[1..][i] == es[i + 1];
      last := ProtectedRun(Step(w, z, es[0]), z, es[1..], NextWinner(w, es[0], winner));
    }
  }

  /** Any number of concurrent callers on a missing key in a smooth run: the factory has run at most once,
      for one caller and once for it; and as soon as any call has returned it has run exactly once and
      every returned call carries that one run's value. */
  lemma ComputesOnce(z: Serializer, es: seq<Event>)
    requires AllSmooth(z, es)
    ensures var w := Run(Start(true, None), z, es);
            && (forall a, b | a in Runners(w) && b in Runners(w) :: a == b)
            && (forall a | a in Runners(w) :: |w.callers[a].runs| == 1)
            && (forall id | id in w.callers && w.callers[id].phase.Done? ::
                  exists a :: a in Runners(w) && w.callers[a].runs == [w.callers[id].phase.result])
  {
    var winner := ProtectedRun(Start(true, None), z, es, None);
    var w := Run(Start(true, None), z, es);
    assert forall id | id in w.callers :: Fits(w.lock, w.entry.Some?, winner, id, w.callers[id]);
    forall id | id in w.callers && w.callers[id].phase.Done?
      ensures exists a :: a in Runners(w) && w.callers[a].runs == [w.callers[id].phase.result]
    {
      assert winner.value.id in Runners(w);
    }
  }

  /** While a call is unfinished some caller's next step is possible. */
  lemma SomeoneMoves(w: World, z: Serializer, winner: Option<Winner>, id: Id, value: Value) returns (e: Event)
    requires Protected(w, z, winner) && RoundTrips(z, value) && id in w.callers && !w.callers[id].phase.Done?
    ensures Smooth(z, e) && !e.Call? && Step(w, z, e) != w
  {
    var mover := if w.callers[id].phase.Locking? && w.lock.Some? then w.lock.value else id;
    assert Fits(w.lock, w.entry.Some?, winner, mover, w.callers[mover]);
    var look := Lookup(mover, true);
    e := match w.callers[mover].phase
      case Locking => Acquire(mover, true, true)
      case ComputeHeld => Factory(mover, Ok(value))
      case Storing(_, _) => Store(mover, true, true)
      case Unlocking(_) => Unlock(mover, true)
      case _ => look;
    var w1 := Step(w, z, e);
    assert w1.callers[mover].phase != w.callers[mover].phase;
  }

  /** How many steps at most a call is away from its end. */
  function Rank(phase: Phase): nat {
    match phase
    case First => 6
    case Locking => 5
    case Second => 4
    case ComputeHeld => 3
    case ComputeFree => 3
    case Storing(_, _) => 2
    case Unlocking(_) => 1
    case Done(_) => 0
  }

  ghost function RankSum(ids: set<Id>, callers: map<Id, Caller>): nat
    requires ids <= callers.Keys
  {
    if ids == {} then 0
    else
      var x :| x in ids;
      Rank(callers[x].phase) + RankSum(ids - {x}, callers)
  }

  /** The steps all calls together have left. */
  ghost function Left(w: World): nat { RankSum(w.callers.Keys, w.callers) }

  lemma {:induction false} RankSumSplit(ids: set<Id>, callers: map<Id, Caller>, x: Id)
    requires ids <= callers.Keys && x in ids
    ensures RankSum(ids, callers) == Rank(callers[x].phase) + RankSum(ids - {x}, callers)
    decreases |ids|
  {
    var y :| y in ids && RankSum(ids, callers) == Rank(callers[y].phase) + RankSum(ids - {y}, callers);
    if x != y {
      RankSumSplit(ids - {y}, callers, x);
      RankSumSplit(ids - {x}, callers, y);
      assert ids - {x} - {y} == ids - {y} - {x};
    }
  }

  lemma {:induction false} RankSumSame(ids: set<Id>, callers: map<Id, Caller>, callers1: map<Id, Caller>)
    requires ids <= callers.Keys && ids <= callers1.Keys && forall id | id in ids :: callers1[id] == callers[id]
    ensures RankSum(ids, callers1) == RankSum(ids, callers)
    decreases |ids|
  {
    if ids != {} {
      var x :| x in ids;
      RankSumSame(ids - {x}, callers, callers1);
      RankSumSplit(ids, callers, x);
      RankSumSplit(ids, callers1, x);
    }
  }

  lemma OwnRankFalls(w: World, z: Serializer, e: Event, winner: Option<Winner>)
    requires Protected(w, z, winner) && Smooth(z, e) && !e.Call? && Step(w, z, e) != w
    ensures e.id in w.callers && Step(w, z, e).callers.Keys == w.callers.Keys
    ensures Rank(Step(w, z, e).callers[e.id].phase) < Rank(w.callers[e.id].phase)
    ensures forall id | id in w.callers && id != e.id :: Step(w, z, e).callers[id] == w.callers[id]
  {
    if e.id in w.callers {
      assert Fits(w.lock, w.entry.Some?, winner, e.id, w.callers[e.id]);
    }
  }

  /** Every smooth step of a call that has begun, if it changes anything, brings the end nearer. */
  lemma LeftFalls(w: World, z: Serializer, e: Event, winner: Option<Winner>)
    requires Protected(w, z, winner) && Smooth(z, e) && !e.Call? && Step(w, z, e) != w
    ensures Left(Step(w, z, e)) < Left(w)
  {
    var w1 := Step(w, z, e);
    OwnRankFalls(w, z, e, winner);
    RankSumSplit(w.callers.Keys, w.callers, e.id);
    RankSumSplit(w1.callers.Keys, w1.callers, e.id);
    RankSumSame(w.callers.Keys - {e.id}, w.callers, w1.callers);
  }

  predicate CallFree(es: seq<Event>) { forall i | 0 <= i < |es| :: !es[i].Call? }

  /** How many steps of a run change anything. */
  function Effective(w: World, z: Serializer, es: seq<Event>): nat
    decreases |es|
  {
    if es == [] then 0
    else (if Step(w, z, es[0]) != w then 1 else 0) + Effective(Step(w, z, es[0]), z, es[1..])
  }

  lemma {:induction false} EffectiveIsBounded(w: World, z: Serializer, es: seq<Event>, winner: Option<Winner>)
    requires Protected(w, z, winner) && AllSmooth(z, es) && CallFree(es)
    ensures Effective(w, z, es) + Left(Run(w, z, es)) <= Left(w)
    decreases |es|
  {
    if es != [] {
      assert Smooth(z, es[0]);
      if Step(w, z, es[0]) != w { LeftFalls(w, z, es[0], winner); }
      ProtectedStep(w, z, es[0], winner);
      assert forall i | 0 <= i < |es| - 1 :: es[1..][i] == es[i + 1];
      EffectiveIsBounded(Step(w, z, es[0]), z, es[1..], NextWinner(w, es[0], winner));
    }
  }

  predicate AllDone(w: World) { forall id | id in w.callers :: w.callers[id].phase.Done? }

  lemma NextTowardsEnd(w: World, z: Serializer, winner: Option<Winner>, value: Value) returns (e: Event)
    requires Protected(w, z, winner) && RoundTrips(z, value) && !AllDone(w)
    ensures Smooth(z, e) && !e.Call? && Left(Step(w, z, e)) < Left(w)
    ensures Step(w, z, e).callers.Keys == w.callers.Keys
    ensures Protected(Step(w, z, e), z, NextWinner(w, e, winner))
  {
    var id :| id in w.callers && !w.callers[id].phase.Done?;
    e := SomeoneMoves(w, z, winner, id, value);
    LeftFalls(w, z, e, winner);
    OwnRankFalls(w, z, e, winner);
    ProtectedStep(w, z, e, winner);
  }

  lemma FirstThenRest(w: World, z: Serializer, e: Event, rest: seq<Event>)
    requires Smooth(z, e) && !e.Call? && AllSmooth(z, rest) && CallFree(rest)
    ensures AllSmooth(z, [e] + rest) && CallFree([e] + rest) && Run(w, z, [e] + rest) == Run(Step(w, z, e), z, rest)
  {
    assert ([e] + rest)[1..] == rest;
  }

  lemma {:induction false} RunToEnd(w: World, z: Serializer, winner: Option<Winner>, value: Value)
    returns (es: seq<Event>)
    requires Protected(w, z, winner) && RoundTrips(z, value)
    ensures AllSmooth(z, es) && CallFree(es) && AllDone(Run(w, z, es)) && Run(w, z, es).callers.Keys == w.callers.Keys
    decreases Left(w)
  {
    es := [];
    if !AllDone(w) {
      var e := NextTowardsEnd(w, z, winner, value);
      var rest := RunToEnd(Step(w, z, e), z, NextWinner(w, e, winner), value);
      FirstThenRest(w, z, e, rest);
      es := [e] + rest;
    }
  }

  /** The factory ran once, for one caller, and every caller returned what it gave. */
  ghost predicate OnceForAll(w: World) {
    exists a: Id, value: Value :: Runners(w) == {a} && w.callers[a].runs == [Ok(value)]
      && forall id | id in w.callers :: w.callers[id].phase == Done(Ok(value))
  }

  lemma DoneIsOnce(w: World, z: Serializer, winner: Option<Winner>)
    requires Protected(w, z, winner) && AllDone(w) && w.callers != map[]
    ensures OnceForAll(w)
  {
    assert forall id | id in w.callers :: Fits(w.lock, w.entry.Some?, winner, id, w.callers[id]);
    assert (forall id :: id !in w.callers) ==> w.callers == map[];
    var someone :| someone in w.callers;
    assert w.callers[someone].phase.Done?;
    assert winner.Some?;
    assert Runners(w) == {winner.value.id};
  }

  /** Stampede protection in full. From every state a smooth run of any number of callers reaches: the calls
      begun so far can be run to their end; no run of theirs takes more steps than they have left; one that
      takes them until nothing can move has them all returned; and whenever they all have, the factory
      has run exactly once and every caller returned its value. */
  lemma EveryCallReturnsTheOneValue(z: Serializer, es: seq<Event>, more: seq<Event>, value: Value)
    requires AllSmooth(z, es) && AllSmooth(z, more) && CallFree(more) && RoundTrips(z, value)
    requires Run(Start(true, None), z, es).callers != map[]
    ensures var w := Run(Start(true, None), z, es);
            && (exists end :: AllSmooth(z, end) && CallFree(end) && OnceForAll(Run(w, z, end)))
            && Effective(w, z, more) <= Left(w)
            && (AllDone(Run(w, z, more)) <==> OnceForAll(Run(w, z, more)))
            && (AllDone(Run(w, z, more)) <==>
                  forall e | Smooth(z, e) && !e.Call? :: Step(Run(w, z, more), z, e) == Run(w, z, more))
  {
    var w := Run(Start(true, None), z, es);
    var winner := ProtectedRun(Start(true, None), z, es, None);
    var end := RunToEnd(w, z, winner, value);
    var winner1 := ProtectedRun(w, z, end, winner);
    DoneIsOnce(Run(w, z, end), z, winner1);
    EffectiveIsBounded(w, z, more, winner);
    var winner2 := ProtectedRun(w, z, more, winner);
    CallersStay(w, z, more);
    EndIsQuiet(Run(w, z, more), z, winner2, value);
    if AllDone(Run(w, z, more)) { DoneIsOnce(Run(w, z, more), z, winner2); }
  }

  lemma EndIsQuiet(w: World, z: Serializer, winner: Option<Winner>, value: Value)
    requires Protected(w, z, winner) && RoundTrips(z, value)
    ensures AllDone(w) <==> forall e | Smooth(z, e) && !e.Call? :: Step(w, z, e) == w
  {
    if AllDone(w) {
      forall e | Smooth(z, e) && !e.Call? ensures Step(w, z, e) == w {
        if Step(w, z, e) != w { OwnRankFalls(w, z, e, winner); }
      }
    } else {
      var id :| id in w.callers && !w.callers[id].phase.Done?;
      var e := SomeoneMoves(w, z, winner, id, value);
    }
  }

  lemma {:induction false} CallersStay(w: World, z: Serializer, es: seq<Event>)
    ensures w.callers.Keys <= Run(w, z, es).callers.Keys
    decreases |es|
  {
    if es != [] {
      assert w.callers.Keys <= Step(w, z, es[0]).callers.Keys;
      CallersStay(Step(w, z, es[0]), z, es[1..]);
    }
  }

  // -- A failing factory under the lock ------------------------------------------------------------

  /** A factory that fails under the lock fails the call with its own error after that one run, unless the
      error is LockAcquireError: that one is taken for a lock timeout and the factory runs again. */
  lemma HeldFailure(w: World, z: Serializer, id: Id, e: Error, again: FactoryResult, applied: bool)
    requires w.At(id, ComputeHeld) && w.callers[id].runs == []
    ensures var w1 := Step(Step(w, z, Factory(id, Err(e))), z, Unlock(id, applied));
            var w2 := Step(w1, z, Factory(id, again));
            && (w1.At(id, Done(Err(e))) <==> e != LockAcquireError)
            && (|w2.callers[id].runs| == 2 <==> e == LockAcquireError)
            && (e == LockAcquireError ==> w2.callers[id].runs == [Err(e), again])
  {
  }

  // -- get_or_set itself, with everyone else running between its awaits ---------------------------

  predicate Foreign(id: Id, e: Event) { e.Evict? || e.SetByOther? || e.LockLapses? || e.id != id }

  predicate AllForeign(id: Id, es: seq<Event>) { forall i | 0 <= i < |es| :: Foreign(id, es[i]) }

  lemma {:induction false} ForeignKeeps(w: World, z: Serializer, id: Id, es: seq<Event>)
    requires AllForeign(id, es) && id in w.callers
    ensures id in Run(w, z, es).callers && Run(w, z, es).callers[id] == w.callers[id]
    decreases |es|
  {
    if es != [] {
      assert Foreign(id, es[0]);
      assert id in Step(w, z, es[0]).callers && Step(w, z, es[0]).callers[id] == w.callers[id];
      assert forall i | 0 <= i < |es| - 1 :: es[1..][i] == es[i + 1];
      ForeignKeeps(Step(w, z, es[0]), z, id, es[1..]);
    }
  }

  /** What the world does to one call: `gap` is what others do before a command of this call, the flags
      whether the command gets through. */
  datatype Gap = Gap(others: seq<Event>, up: bool, applied: bool)

  // The events of the parts of one call, as the state and what happens to it decide them.

  function ComputeTrace(id: Id, result: FactoryResult, gap: Gap): seq<Event> {
    if result.Err? then [Factory(id, result)]
    else [Factory(id, result)] + gap.others + [Store(id, gap.up, gap.applied)]
  }

  /** Attempts at the lock until one ends the wait; running out of them is the timeout. */
  function EnterTrace(w: World, z: Serializer, id: Id, gaps: seq<Gap>): seq<Event>
    decreases |gaps|
  {
    if gaps == [] then [TimeOut(id)]
    else
      var head := gaps[0].others + [Acquire(id, gaps[0].up, gaps[0].applied)];
      var w1 := Run(w, z, head);
      if w1.At(id, Locking) then head + EnterTrace(w1, z, id, gaps[1..]) else head
  }

  function LookTrace(id: Id, look: Gap): seq<Event> { look.others + [Lookup(id, look.up)] }

  function LeaveTrace(id: Id, unlock: Gap): seq<Event> { unlock.others + [Unlock(id, unlock.applied)] }

  /** In the lock block: the second look-up, the computation only if that misses, the release. */
  function UnderTrace(w: World, z: Serializer, id: Id, look: Gap, result: FactoryResult, store: Gap,
                      unlock: Gap): seq<Event> {
    LookTrace(id, look)
      + (if Run(w, z, LookTrace(id, look)).At(id, ComputeHeld) then ComputeTrace(id, result, store) else [])
      + LeaveTrace(id, unlock)
  }

  /** After a miss with protection: the lock, its block, and a computation without it where that failed. */
  function LockedTrace(w: World, z: Serializer, id: Id, attempts: seq<Gap>, look: Gap, first: FactoryResult, store: Gap,
                       unlock: Gap, second: FactoryResult, storeFree: Gap): seq<Event>
  {
    var enter := EnterTrace(w, z, id, attempts);
    var w1 := Run(w, z, enter);
    var under := if w1.At(id, Second) then UnderTrace(w1, z, id, look, first, store, unlock) else [];
    var w2 := Run(w1, z, under);
    enter + under + (if w2.At(id, ComputeFree) then ComputeTrace(id, second, storeFree) else [])
  }

  /** One whole call. */
  function CallTrace(w: World, z: Serializer, id: Id, look: Gap, attempts: seq<Gap>, lookAgain: Gap,
                     first: FactoryResult,
                     store: Gap, unlock: Gap, second: FactoryResult, storeFree: Gap): seq<Event>
  {
    var head := [Call(id)] + look.others + [Lookup(id, look.up)];
    var w1 := Run(w, z, head);
    head
      + if w1.At(id, Locking) then LockedTrace(w1, z, id, attempts, lookAgain, first, store, unlock, second, storeFree)
        else if w1.At(id, ComputeFree) then ComputeTrace(id, second, storeFree)
        else []
  }

  class CacheKey {
    const z: Serializer
    const protect: bool
    var entry: Option<Raw>
    var lock: Option<Id>
    var callers: map<Id, Caller>
    var stored: set<Raw>

    ghost function Snapshot(): World
      reads this
    {
      World(protect, entry, lock, callers, stored)
    }

    constructor (z: Serializer, protect: bool, entry: Option<Raw>)
      ensures this.z == z && this.protect == protect && Snapshot() == Start(protect, entry)
    {
      this.z, this.protect, this.entry := z, protect, entry;
      lock, callers := None, map[];
      stored := if entry.Some? then {entry.value} else {};
    }

    method Others(id: Id, es: seq<Event>)
      requires AllForeign(id, es) && id in callers
      modifies this
      ensures Snapshot() == Run(old(Snapshot()), z, es)
      ensures id in callers && callers[id] == old(callers[id])
    {
      ForeignKeeps(Snapshot(), z, id, es);
      for i := 0 to |es|
        invariant Snapshot() == Run(old(Snapshot()), z, es[..i])
      {
        ghost var before := Snapshot();
        var w := Step(World(protect, entry, lock, callers, stored), z, es[i]);
        entry, lock, callers, stored := w.entry, w.lock, w.callers, w.stored;
        ProtectStays(before, z, es[i]);
        RunAppend(old(Snapshot()), z, es[..i], [es[i]]);
        RunOne(before, z, es[i]);
        assert es[..i] + [es[i]] == es[..i + 1];
      }
      assert es[..|es|] == es;
    }

    method SetPhase(id: Id, phase: Phase)
      requires id in callers
      modifies this`callers
      ensures Snapshot() == old(Snapshot()).Move(id, phase)
    {
      callers := callers[id := Caller(phase, callers[id].runs)];
    }

    /** `_lookup`. */
    method ReadEntry(up: bool) returns (found: Option<Value>)
      ensures found == LookupResult(Snapshot(), z, up)
    {
      if !up || entry.None? { return None; }
      found := z.loads(entry.value);
    }

    /** `_compute_and_store`: the factory, then `set`; raises what the factory raises. */
    method ComputeAndStore(id: Id, result: FactoryResult, gap: Gap) returns (ghost trace: seq<Event>)
      requires id in callers && (callers[id].phase.ComputeHeld? || callers[id].phase.ComputeFree?)
      requires AllForeign(id, gap.others)
      modifies this
      ensures trace == ComputeTrace(id, result, gap) && Snapshot() == Run(old(Snapshot()), z, trace)
      ensures id in callers && callers[id].runs == old(callers[id].runs) + [result]
      ensures old(callers[id].phase.ComputeFree?) ==> callers[id].phase == Done(result)
      ensures old(callers[id].phase.ComputeHeld?) ==>
                callers[id].phase == Unlocking(if result == Err(LockAcquireError) then FallThrough else Return(result))
    {
      ghost var w0 := Snapshot();
      RunFactory(id, result);
      if result.Err? {
        trace := [Factory(id, result)];
        RunOne(w0, z, Factory(id, result));
        return;
      }
      StoreValue(id, gap);
      trace := [Factory(id, result)] + gap.others + [Store(id, gap.up, gap.applied)];
      ThreeParts(w0, z, Factory(id, result), gap.others, Store(id, gap.up, gap.applied));
    }

    method RunFactory(id: Id, result: FactoryResult)
      requires id in callers && (callers[id].phase.ComputeHeld? || callers[id].phase.ComputeFree?)
      modifies this`callers
      ensures Snapshot() == Step(old(Snapshot()), z, Factory(id, result))
      ensures id in callers && callers[id].runs == old(callers[id].runs) + [result]
      ensures var held := old(callers[id].phase.ComputeHeld?);
              callers[id].phase == if result.Ok? then Storing(result.value, held)
                                   else if !held then Done(result)
                                   else if result.error.LockAcquireError? then Unlocking(FallThrough)
                                   else Unlocking(Return(result))
    {
      var held := callers[id].phase.ComputeHeld?;
      callers := callers[id := Caller(callers[id].phase, callers[id].runs + [result])];
      SetPhase(id, if result.Ok? then Storing(result.value, held)
                   else if !held then Done(result)
                   else if result.error.LockAcquireError? then Unlocking(FallThrough)
                   else Unlocking(Return(result)));
    }

    /** `set`, after whatever others do meanwhile. */
    method StoreValue(id: Id, gap: Gap)
      requires id in callers && callers[id].phase.Storing? && AllForeign(id, gap.others)
      modifies this
      ensures Snapshot() == Step(Run(old(Snapshot()), z, gap.others), z, Store(id, gap.up, gap.applied))
      ensures id in callers && callers[id].runs == old(callers[id].runs)
      ensures var result := Ok(old(callers[id].phase.value));
              callers[id].phase == if old(callers[id].phase.held) then Unlocking(Return(result)) else Done(result)
    {
      Others(id, gap.others);
      var value, held := callers[id].phase.value, callers[id].phase.held;
      var raw := z.dumps(value);
      if raw.Some? && (gap.up || gap.applied) {
        entry := raw;
        stored := stored + {raw.value};
      }
      SetPhase(id, if held then Unlocking(Return(Ok(value))) else Done(Ok(value)));
    }

    /** Entering the lock block: `gaps[i]` comes before attempt `i`; running out of them is the timeout. */
    method EnterLock(id: Id, gaps: seq<Gap>) returns (ghost trace: seq<Event>)
      requires id in callers && callers[id].phase == Locking
      requires forall i | 0 <= i < |gaps| :: AllForeign(id, gaps[i].others)
      modifies this
      ensures trace == EnterTrace(old(Snapshot()), z, id, gaps) && Snapshot() == Run(old(Snapshot()), z, trace)
      ensures id in callers && callers[id].runs == old(callers[id].runs)
      ensures callers[id].phase == Second || callers[id].phase == ComputeFree
    {
      ghost var w0 := Snapshot();
      trace := [];
      for i := 0 to |gaps|
        invariant Snapshot() == Run(w0, z, trace)
        invariant trace + EnterTrace(Snapshot(), z, id, gaps[i..]) == EnterTrace(w0, z, id, gaps)
        invariant id in callers && callers[id].phase == Locking && callers[id].runs == old(callers[id].runs)
      {
        ghost var before := Snapshot();
        ghost var head := gaps[i].others + [Acquire(id, gaps[i].up, gaps[i].applied)];
        assert gaps[i..][1..] == gaps[i + 1..];
        TryLock(id, gaps[i]);
        RunAppend(w0, z, trace, head);
        if callers[id].phase != Locking {
          return trace + head;
        }
        Regroup(trace, head, EnterTrace(Snapshot(), z, id, gaps[i + 1..]));
        trace := trace + head;
      }
      RunAppend(w0, z, trace, [TimeOut(id)]);
      RunOne(Snapshot(), z, TimeOut(id));
      trace := trace + [TimeOut(id)];
      SetPhase(id, ComputeFree);
    }

    /** One attempt: it wins, finds the store down, or waits on. */
    method TryLock(id: Id, gap: Gap)
      requires id in callers && callers[id].phase == Locking && AllForeign(id, gap.others)
      modifies this
      ensures Snapshot() == Run(old(Snapshot()), z, gap.others + [Acquire(id, gap.up, gap.applied)])
      ensures id in callers && callers[id].runs == old(callers[id].runs)
      ensures callers[id].phase == Locking || callers[id].phase == Second || callers[id].phase == ComputeFree
    {
      ghost var w0 := Snapshot();
      Others(id, gap.others);
      ghost var attempt := Acquire(id, gap.up, gap.applied);
      RunAppend(w0, z, gap.others, [attempt]);
      RunOne(Snapshot(), z, attempt);
      var free := lock.None?;
      if free && (gap.up || gap.applied) { lock := Some(id); }
      if !gap.up {
        SetPhase(id, ComputeFree);
      } else if free {
        SetPhase(id, Second);
      }
    }

    /** The lock block: look up again, compute and store on a miss, release. */
    method UnderLock(id: Id, look: Gap, result: FactoryResult, store: Gap, unlock: Gap)
      returns (ghost trace: seq<Event>)
      requires id in callers && callers[id].phase == Second && callers[id].runs == []
      requires AllForeign(id, look.others) && AllForeign(id, store.others) && AllForeign(id, unlock.others)
      modifies this
      ensures trace == UnderTrace(old(Snapshot()), z, id, look, result, store, unlock)
      ensures Snapshot() == Run(old(Snapshot()), z, trace)
      ensures id in callers && (callers[id].phase.Done? || callers[id].phase == ComputeFree)
      ensures callers[id].phase == ComputeFree ==> callers[id].runs == [Err(LockAcquireError)]
      ensures |callers[id].runs| <= 1
    {
      ghost var w0 := Snapshot();
      LookAgain(id, look);
      trace := LookTrace(id, look);
      if callers[id].phase == ComputeHeld {
        ghost var computing := ComputeAndStore(id, result, store);
        RunAppend(w0, z, trace, computing);
        trace := trace + computing;
      } else {
        assert trace + [] == trace;
      }
      LeaveLock(id, unlock);
      RunAppend(w0, z, trace, LeaveTrace(id, unlock));
      trace := trace + LeaveTrace(id, unlock);
    }

    method LookAgain(id: Id, look: Gap)
      requires id in callers && callers[id].phase == Second && AllForeign(id, look.others)
      modifies this
      ensures Snapshot() == Run(old(Snapshot()), z, LookTrace(id, look))
      ensures id in callers && callers[id].runs == old(callers[id].runs)
      ensures callers[id].phase == ComputeHeld
              || (callers[id].phase.Unlocking? && callers[id].phase.next.Return? && callers[id].phase.next.result.Ok?)
    {
      ghost var w0 := Snapshot();
      Others(id, look.others);
      RunOne(Snapshot(), z, Lookup(id, look.up));
      RunAppend(w0, z, look.others, [Lookup(id, look.up)]);
      var found := ReadEntry(look.up);
      SetPhase(id, if found.Some? then Unlocking(Return(Ok(found.value))) else ComputeHeld);
    }

    /** Leaving the lock block: the release, which may fail silently. */
    method LeaveLock(id: Id, unlock: Gap)
      requires id in callers && callers[id].phase.Unlocking? && AllForeign(id, unlock.others)
      modifies this
      ensures Snapshot() == Run(old(Snapshot()), z, LeaveTrace(id, unlock))
      ensures id in callers && callers[id].runs == old(callers[id].runs)
      ensures var next := old(callers[id].phase.next);
              callers[id].phase == if next.Return? then Done(next.result) else ComputeFree
    {
      ghost var w0 := Snapshot();
      Others(id, unlock.others);
      RunOne(Snapshot(), z, Unlock(id, unlock.applied));
      RunAppend(w0, z, unlock.others, [Unlock(id, unlock.applied)]);
      var next := callers[id].phase.next;
      if lock == Some(id) && unlock.applied { lock := None; }
      SetPhase(id, if next.Return? then Done(next.result) else ComputeFree);
    }

    /** What a protected call does after its first look-up missed. */
    method ComputeLocked(id: Id, attempts: seq<Gap>, lookAgain: Gap, first: FactoryResult, store: Gap, unlock: Gap,
                         second: FactoryResult, storeFree: Gap)
      returns (ghost trace: seq<Event>)
      requires id in callers && callers[id] == Caller(Locking, [])
      requires forall i | 0 <= i < |attempts| :: AllForeign(id, attempts[i].others)
      requires AllForeign(id, lookAgain.others) && AllForeign(id, store.others)
      requires AllForeign(id, unlock.others) && AllForeign(id, storeFree.others)
      modifies this
      ensures trace == LockedTrace(old(Snapshot()), z, id, attempts, lookAgain, first, store, unlock, second, storeFree)
      ensures Snapshot() == Run(old(Snapshot()), z, trace)
      ensures id in callers && callers[id].phase.Done?
      ensures |callers[id].runs| <= 2 && (|callers[id].runs| == 2 ==> callers[id].runs[0] == Err(LockAcquireError))
    {
      ghost var w0 := Snapshot();
      trace := EnterLock(id, attempts);
      ghost var under := [];
      if callers[id].phase == Second {
        under := UnderLock(id, lookAgain, first, store, unlock);
      }
      RunAppend(w0, z, trace, under);
      trace := trace + under;
      if callers[id].phase == ComputeFree {
        ghost var free := ComputeAndStore(id, second, storeFree);
        RunAppend(w0, z, trace, free);
        trace := trace + free;
      } else {
        assert trace + [] == trace;
      }
    }

    /** `get_or_set`. The factory's first and second run, should there be any, give `first` and `second`; a
        run without the lock is always the second. */
    method GetOrSet(id: Id, look: Gap, attempts: seq<Gap>, lookAgain: Gap, first: FactoryResult, store: Gap,
                    unlock: Gap, second: FactoryResult, storeFree: Gap)
      returns (result: FactoryResult, ghost trace: seq<Event>)
      requires id !in callers && AllForeign(id, look.others) && AllForeign(id, lookAgain.others)
      requires forall i | 0 <= i < |attempts| :: AllForeign(id, attempts[i].others)
      requires AllForeign(id, store.others) && AllForeign(id, unlock.others) && AllForeign(id, storeFree.others)
      modifies this
      ensures trace == CallTrace(old(Snapshot()), z, id, look, attempts, lookAgain, first, store, unlock, second,
          storeFree)
      ensures Snapshot() == Run(old(Snapshot()), z, trace)
      ensures id in callers && callers[id].phase == Done(result)
      ensures var entry := Run(Step(old(Snapshot()), z, Call(id)), z, look.others).entry;
              look.up && entry.Some? && z.loads(entry.value).Some? ==>
                result == Ok(z.loads(entry.value).value) && callers[id].runs == []
      ensures |callers[id].runs| <= 2 && (|callers[id].runs| == 2 ==> callers[id].runs[0] == Err(LockAcquireError))
    {
      ghost var w0 := Snapshot();
      LookFirst(id, look);
      trace := [Call(id)] + look.others + [Lookup(id, look.up)];
      ghost var more := [];
      if callers[id].phase == Locking {
        more := ComputeLocked(id, attempts, lookAgain, first, store, unlock, second, storeFree);
      } else if callers[id].phase == ComputeFree {
        more := ComputeAndStore(id, second, storeFree);
      }
      RunAppend(w0, z, trace, more);
      trace := trace + more;
      result := callers[id].phase.result;
    }

    method LookFirst(id: Id, look: Gap)
      requires id !in callers && AllForeign(id, look.others)
      modifies this
      ensures Snapshot() == Run(old(Snapshot()), z, [Call(id)] + look.others + [Lookup(id, look.up)])
      ensures id in callers && callers[id].runs == []
      ensures var entry := Run(Step(old(Snapshot()), z, Call(id)), z, look.others).entry;
              callers[id].phase == if look.up && entry.Some? && z.loads(entry.value).Some?
                                   then Done(Ok(z.loads(entry.value).value))
                                   else if protect then Locking else ComputeFree
    {
      ghost var w0 := Snapshot();
      callers := callers[id := Caller(First, [])];
      Others(id, look.others);
      ghost var w2 := Snapshot();
      var found := ReadEntry(look.up);
      SetPhase(id, if found.Some? then Done(Ok(found.value)) else if protect then Locking else ComputeFree);
      ThreeParts(w0, z, Call(id), look.others, Lookup(id, look.up));
    }
  }

  lemma Regroup(a: seq<Event>, b: seq<Event>, c: seq<Event>)
    ensures a + (b + c) == (a + b) + c
  {
  }

  lemma ThreeParts(w: World, z: Serializer, a: Event, others: seq<Event>, b: Event)
    ensures Run(w, z, [a] + others + [b]) == Step(Run(Step(w, z, a), z, others), z, b)
  {
    var w2 := Run(Step(w, z, a), z, others);
    RunOne(w, z, a);
    RunAppend(w, z, [a], others);
    RunOne(w2, z, b);
    RunAppend(w, z, [a] + others, [b]);
  }

  lemma ProtectStays(w: World, z: Serializer, e: Event)
    ensures Step(w, z, e).protect == w.protect
  {
  }
}
