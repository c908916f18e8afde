/** The Idempotency-Key protocol on one Redis key: any number of requests whose single Redis commands
    and handler runs interleave freely, with failing commands, cancellation and record expiry. */
module Idempotency {

  import opened Responses
  import opened Wrappers

  type Id = nat
  type Fingerprint = nat

  datatype Config = Config(failOpen: bool, maxStored: nat)

  datatype Record =
    | InFlight(fingerprint: Fingerprint)
    | Done(fingerprint: Fingerprint, status: int, headers: seq<Header>, body: string)

  datatype Answer =
    | Ran                        // the handler's own response went out
    | HandlerRaised
    | Cancelled
    | Unavailable                // 503: the store failed and fail_open is off
    | OtherBody                  // 409: the key was used with a different body
    | StillRunning               // 409: the first request has not finished
    | Replayed(response: Response)

  /** Where a request is; each phase names the await it stands at. */
  datatype Phase =
    | Arrived                    // about to SET NX
    | LostSet                    // SET NX found a record; about to GET it
    | Running                    // the handler runs and its response is being recorded
    | PassThrough                // fail_open: the handler runs and nothing is recorded
    | Releasing(outcome: Answer)    // about to DEL
    | Saving(record: Record)     // about to SET the done record
    | Finished(answer: Answer)

  datatype Request = Request(fingerprint: Fingerprint, phase: Phase)

  /** A handler run that returned, with what it sent. */
  datatype Completion = Completion(fingerprint: Fingerprint, response: Response)

  /** `writer` (who last wrote the record) and `completed` are bookkeeping the program does not have. */
  datatype World = World(
    config: Config,
    record: Option<Record>,
    writer: Id,
    requests: map<Id, Request>,
    completed: seq<Completion>)
  {
    predicate Is(id: Id, phase: Phase) { id in requests && requests[id].phase == phase }

    function Move(id: Id, phase: Phase): World
      requires id in requests
    {
      this.(requests := requests[id := requests[id].(phase := phase)])
    }

    function Write(id: Id, r: Record): World { this.(record := Some(r), writer := id) }
  }

  function Empty(config: Config): World { World(config, None, 0, map[], []) }

  /** How a command ended for its caller; a failed one may still have taken effect. */
  datatype Reply = Fine | Failed(applied: bool)

  predicate Applies(reply: Reply) { reply.Fine? || reply.applied }

  datatype Event =
    | Arrive(id: Id, fingerprint: Fingerprint)
    | SetNx(id: Id, reply: Reply)
    | Get(id: Id, reply: Reply)
    | HandlerReturns(id: Id, messages: seq<Message>)
    | HandlerRaises(id: Id)
    | Delete(id: Id, reply: Reply)
    | Store(id: Id, reply: Reply)
    | Cancel(id: Id)
    | Expire

  // -- One step -------------------------------------------------------------------------

  /** The RedisError branch of `__call__`. */
  function StoreDown(w: World, id: Id): World
    requires id in w.requests
  {
    w.Move(id, if w.config.failOpen then PassThrough else Finished(Unavailable))
  }

  function StepSetNx(w: World, id: Id, reply: Reply): World {
    if !w.Is(id, Arrived) then w
    else
      var won := w.record.None?;
      var w1 := if won && Applies(reply) then w.Write(id, InFlight(w.requests[id].fingerprint)) else w;
      if reply.Failed? then StoreDown(w1, id)
      else w1.Move(id, if won then Running else LostSet)
  }

  /** `_handle_existing`. */
  function AnswerFrom(record: Record, fingerprint: Fingerprint): Answer {
    if record.fingerprint != fingerprint then OtherBody
    else if record.InFlight? then StillRunning
    else match Latin1Encode(record.body)
      case Some(body) => Replayed(Replay(record.status, record.headers, body))
      case None => HandlerRaised
  }

  function StepGet(w: World, id: Id, reply: Reply): World {
    if !w.Is(id, LostSet) then w
    else if reply.Failed? then StoreDown(w, id)
    else match w.record
      case None => w.Move(id, Running)
      case Some(r) => w.Move(id, Finished(AnswerFrom(r, w.requests[id].fingerprint)))
  }

  function DoneRecord(fingerprint: Fingerprint, r: Responses.Recording): Record {
    Done(fingerprint, r.status, r.headers, Latin1Decode(Joined(r.chunks)))
  }

  function StepReturns(w: World, id: Id, messages: seq<Message>): World {
    if w.Is(id, PassThrough) then Note(w, id, messages).Move(id, Finished(Ran))
    else if !w.Is(id, Running) then w
    else
      var r := Recorded(messages, w.config.maxStored);
      Note(w, id, messages).Move(id,
        if r.status >= 500 || r.tooLarge then Releasing(Ran)
        else Saving(DoneRecord(w.requests[id].fingerprint, r)))
  }

  function Note(w: World, id: Id, messages: seq<Message>): World
    requires id in w.requests
  {
    w.(completed := w.completed + [Completion(w.requests[id].fingerprint, Sent(messages))])
  }

  function Step(w: World, e: Event): World {
    match e
    case Arrive(id, fp) => if id in w.requests then w else w.(requests := w.requests[id := Request(fp, Arrived)])
    case SetNx(id, reply) => StepSetNx(w, id, reply)
    case Get(id, reply) => StepGet(w, id, reply)
    case HandlerReturns(id, messages) => StepReturns(w, id, messages)
    case HandlerRaises(id) =>
      if w.Is(id, Running) then w.Move(id, Releasing(HandlerRaised))
      else if w.Is(id, PassThrough) then w.Move(id, Finished(HandlerRaised))
      else w
    case Delete(id, reply) =>
      if id !in w.requests || !w.requests[id].phase.Releasing? then w
      else
        var w1 := w.Move(id, Finished(w.requests[id].phase.outcome));
        if Applies(reply) then w1.(record := None) else w1
    case Store(id, reply) =>
      if id !in w.requests || !w.requests[id].phase.Saving? then w
      else
        var w1 := w.Move(id, Finished(Ran));
        if Applies(reply) then w1.Write(id, w.requests[id].phase.record) else w1
    case Cancel(id) =>
      if id in w.requests && !w.requests[id].phase.Finished? then w.Move(id, Finished(Cancelled)) else w
    case Expire => w.(record := None)
  }

  function Run(w: World, es: seq<Event>): World
    decreases |es|
  {
    if es == [] then w else Run(Step(w, es[0]), es[1..])
  }

  lemma RunOne(w: World, e: Event)
    ensures Run(w, [e]) == Step(w, e)
  {
    assert Run(Step(w, e), []) == Step(w, e);
  }

  lemma {:induction false} RunAppend(w: World, a: seq<Event>, b: seq<Event>)
    ensures Run(w, a + b) == Run(Run(w, a), b)
    decreases |a|
  {
    if a == [] {
      assert a + b == b;
    } else {
      assert (a + b)[1..] == a[1..] + b;
      RunAppend(Step(w, a[0]), a[1..], b);
    }
  }

  // -- At most one handler, as long as the record does not go away under a user of it --------

  function Handlers(w: World): set<Id> {
    set id | id in w.requests && (w.requests[id].phase.Running? || w.requests[id].phase.PassThrough?)
  }

  predicate SomeoneLost(w: World) { exists id :: id in w.requests && w.requests[id].phase.LostSet? }

  /** The request still owns the reservation. */
  predicate Active(phase: Phase) { phase.Running? || phase.Releasing? || phase.Saving? }

  predicate SomeoneActive(w: World) { exists id :: id in w.requests && Active(w.requests[id].phase) }

  predicate Releases(w: World, e: Event) {
    e.Delete? && e.id in w.requests && w.requests[e.id].phase.Releasing? && Applies(e.reply)
  }

  /** Not the race: the record does not expire while a request holds it or is between SET NX and GET,
      and no release lands between a loser's SET NX and its GET. */
  predicate Calm(w: World, e: Event) {
    && (e.Expire? ==> !SomeoneLost(w) && !SomeoneActive(w))
    && (Releases(w, e) ==> !SomeoneLost(w))
  }

  predicate CalmRun(w: World, es: seq<Event>)
    decreases |es|
  {
    es == [] || (Calm(w, es[0]) && CalmRun(Step(w, es[0]), es[1..]))
  }

  predicate Exclusive(w: World) {
    && (forall id | id in w.requests ::
          && !w.requests[id].phase.PassThrough?
          && (Active(w.requests[id].phase) ==>
                w.writer == id && w.record == Some(InFlight(w.requests[id].fingerprint)))
          && (w.requests[id].phase.Saving? ==> w.requests[id].phase.record.Done?)
          && (w.requests[id].phase.LostSet? ==> w.record.Some?))
  }

  lemma ExclusiveStep(w: World, e: Event)
    requires !w.config.failOpen && Exclusive(w) && Calm(w, e)
    ensures Exclusive(Step(w, e)) && !Step(w, e).config.failOpen
  {
  }

  lemma {:induction false} ExclusiveRun(w: World, es: seq<Event>)
    requires !w.config.failOpen && Exclusive(w) && CalmRun(w, es)
    ensures Exclusive(Run(w, es)) && !Run(w, es).config.failOpen
    decreases |es|
  {
    if es != [] {
      ExclusiveStep(w, es[0]);
      ExclusiveRun(Step(w, es[0]), es[1..]);
    }
  }

  /** At most one handler is in flight, and the record then is its own marker. */
  predicate Guarantee(w: World) {
    && (forall a, b | a in Handlers(w) && b in Handlers(w) :: a == b)
    && (forall id | id in Handlers(w) ::
          w.writer == id && w.record == Some(InFlight(w.requests[id].fingerprint)))
  }

  /** Every calm run keeps the guarantee. */
  lemma AtMostOneHandler(config: Config, es: seq<Event>)
    requires !config.failOpen && CalmRun(Empty(config), es)
    ensures Guarantee(Run(Empty(config), es))
  {
    ExclusiveRun(Empty(config), es);
  }

  predicate NoExpiry(es: seq<Event>) { forall i | 0 <= i < |es| :: !es[i].Expire? }

  lemma {:induction false} DoneStays(w: World, es: seq<Event>)
    requires !w.config.failOpen && Exclusive(w) && CalmRun(w, es) && NoExpiry(es)
    requires w.record.Some? && w.record.value.Done?
    ensures Run(w, es).record == w.record && Handlers(Run(w, es)) == {}
    ensures Run(w, es).completed == w.completed
    decreases |es|
  {
    if es != [] {
      ExclusiveStep(w, es[0]);
      DoneStays(Step(w, es[0]), es[1..]);
    }
  }

  /** Once a done record is stored it is final until it expires: however the run goes on, no handler
      runs for the key again and no further run completes. */
  lemma DoneIsFinal(config: Config, es: seq<Event>, later: seq<Event>)
    requires !config.failOpen && CalmRun(Empty(config), es + later) && NoExpiry(later)
    requires var r := Run(Empty(config), es).record; r.Some? && r.value.Done?
    ensures Run(Empty(config), es + later).record == Run(Empty(config), es).record
    ensures Run(Empty(config), es + later).completed == Run(Empty(config), es).completed
    ensures Handlers(Run(Empty(config), es + later)) == {}
  {
    CalmSplit(Empty(config), es, later);
    ExclusiveRun(Empty(config), es);
    RunAppend(Empty(config), es, later);
    DoneStays(Run(Empty(config), es), later);
  }

  lemma {:induction false} CalmSplit(w: World, a: seq<Event>, b: seq<Event>)
    ensures CalmRun(w, a + b) <==> CalmRun(w, a) && CalmRun(Run(w, a), b)
    decreases |a|
  {
    if a == [] {
      assert a + b == b;
    } else {
      assert (a + b)[1..] == a[1..] + b && (a + b)[0] == a[0];
      CalmSplit(Step(w, a[0]), a[1..], b);
    }
  }

  // -- What is recorded, and that it is replayed ------------------------------------------------

  /** The response may be played back: no server error, and whole. */
  predicate Recordable(messages: seq<Message>, maxStored: nat) {
    Sent(messages).status < 500 && |Sent(messages).body| <= maxStored
  }

  /** The record of what a handler sent. */
  function RecordOf(fingerprint: Fingerprint, messages: seq<Message>): Record {
    Done(fingerprint, Sent(messages).status, Sent(messages).headers, Latin1Decode(Sent(messages).body))
  }

  /** A running request whose handler returns goes on to SET the whole response exactly when that may be
      played back, and to DEL the reservation otherwise. */
  lemma RecordsExactly(w: World, id: Id, messages: seq<Message>)
    requires w.Is(id, Running)
    ensures var w1 := Step(w, HandlerReturns(id, messages));
            && (w1.Is(id, Saving(RecordOf(w.requests[id].fingerprint, messages)))
                <==> Recordable(messages, w.config.maxStored))
            && (w1.Is(id, Releasing(Ran)) <==> !Recordable(messages, w.config.maxStored))
  {
    RecordedIsSent(messages, w.config.maxStored);
  }

  /** No command of SET NX or GET fails and nobody is cancelled. */
  predicate GetsThrough(e: Event) {
    match e
    case SetNx(_, reply) => reply.Fine?
    case Get(_, reply) => reply.Fine?
    case Cancel(_) => false
    case _ => true
  }

  predicate AllGetThrough(es: seq<Event>) { forall i | 0 <= i < |es| :: GetsThrough(es[i]) }

  /** Where a request may be that came after the record was stored, and what it is answered. */
  predicate Served(record: Record, q: Request)
    requires record.Done?
  {
    || q.phase.Arrived? || q.phase.LostSet?
    || q.phase == Finished(if q.fingerprint == record.fingerprint then ReplayOf(record) else OtherBody)
  }

  function ReplayOf(record: Record): Answer
    requires record.Done?
  {
    match Latin1Encode(record.body)
    case Some(body) => Replayed(Replay(record.status, record.headers, body))
    case None => HandlerRaised
  }

  predicate AllServed(w: World, record: Record, before: set<Id>)
    requires record.Done?
  {
    forall id | id in w.requests && id !in before :: Served(record, w.requests[id])
  }

  lemma ServedStep(w: World, e: Event, record: Record, before: set<Id>)
    requires record.Done? && w.record == Some(record) && AllServed(w, record, before) && GetsThrough(e)
    ensures AllServed(Step(w, e), record, before)
  {
    forall id | id in Step(w, e).requests && id !in before ensures Served(record, Step(w, e).requests[id]) {
      if id in w.requests { assert Served(record, w.requests[id]); }
    }
  }

  lemma {:induction false} ServedRun(w: World, es: seq<Event>, record: Record, before: set<Id>)
    requires !w.config.failOpen && Exclusive(w) && CalmRun(w, es) && NoExpiry(es) && AllGetThrough(es)
    requires record.Done? && w.record == Some(record) && AllServed(w, record, before)
    ensures AllServed(Run(w, es), record, before)
    decreases |es|
  {
    if es != [] {
      assert GetsThrough(es[0]) && !es[0].Expire?;
      ExclusiveStep(w, es[0]);
      DoneStays(w, [es[0]]);
      RunOne(w, es[0]);
      ServedStep(w, es[0], record, before);
      assert forall i | 0 <= i < |es| - 1 :: es[1..][i] == es[i + 1];
      ServedRun(Step(w, es[0]), es[1..], record, before);
    }
  }

  /** After the handler's return and what others do meanwhile, an applied SET leaves the whole response. */
  lemma StoreLeaves(w: World, id: Id, messages: seq<Message>, between: seq<Event>, reply: Reply)
    requires w.Is(id, Running) && Recordable(messages, w.config.maxStored) && AllForeign(id, between) && Applies(reply)
    ensures Run(w, [HandlerReturns(id, messages)] + between + [Store(id, reply)]).record
         == Some(RecordOf(w.requests[id].fingerprint, messages))
  {
    var w1 := Step(w, HandlerReturns(id, messages));
    RecordsExactly(w, id, messages);
    ForeignKeeps(w1, id, between);
    RunOne(w, HandlerReturns(id, messages));
    RunAppend(w, [HandlerReturns(id, messages)], between);
    RunOne(Run(w1, between), Store(id, reply));
    RunAppend(w, [HandlerReturns(id, messages)] + between, [Store(id, reply)]);
  }

  /** The promise of the key, over runs: once a handler has returned a response that may be played back and
      its SET is applied, in a run without races and until the record expires, every request that comes
      after and whose commands get through is answered, when it is, with that status and body if it has the
      same fingerprint, and with "different body" if not; none of them runs the handler. */
  lemma RecordedIsReplayed(config: Config, es: seq<Event>, id: Id, messages: seq<Message>, between: seq<Event>,
                           reply: Reply, later: seq<Event>, other: Id)
    requires !config.failOpen && Run(Empty(config), es).Is(id, Running) && Recordable(messages, config.maxStored)
    requires AllForeign(id, between) && Applies(reply) && NoExpiry(later) && AllGetThrough(later)
    requires CalmRun(Empty(config), es + ([HandlerReturns(id, messages)] + between + [Store(id, reply)]) + later)
    requires var stored := Run(Empty(config), es + ([HandlerReturns(id, messages)] + between + [Store(id, reply)]));
             other !in stored.requests && other in Run(stored, later).requests
    ensures var stored := Run(Empty(config), es + ([HandlerReturns(id, messages)] + between + [Store(id, reply)]));
            var q := Run(stored, later).requests[other];
            var sent := Sent(messages);
            && (q.phase.Arrived? || q.phase.LostSet? || q.phase.Finished?)
            && (q.phase.Finished? ==>
                  q.phase.answer == if q.fingerprint == Run(Empty(config), es).requests[id].fingerprint
                                    then Replayed(Replay(sent.status, sent.headers, sent.body)) else OtherBody)
  {
    var w := Run(Empty(config), es);
    var run := [HandlerReturns(id, messages)] + between + [Store(id, reply)];
    var stored := Run(Empty(config), es + run);
    ConfigStays(Empty(config), es);
    StoreLeaves(w, id, messages, between, reply);
    RunAppend(Empty(config), es, run);
    CalmSplit(Empty(config), es + run, later);
    ExclusiveRun(Empty(config), es + run);
    var record := RecordOf(w.requests[id].fingerprint, messages);
    Latin1RoundTrip(Sent(messages).body);
    ServedRun(stored, later, record, stored.requests.Keys);
    assert Served(record, Run(stored, later).requests[other]);
  }

  lemma {:induction false} ConfigStays(w: World, es: seq<Event>)
    ensures Run(w, es).config == w.config
    decreases |es|
  {
    if es != [] {
      ConfigKept(w, es[0]);
      ConfigStays(Step(w, es[0]), es[1..]);
    }
  }

  // -- The excluded steps are exactly the ones that break it --------------------------------

  ghost predicate StaysGuaranteed(w: World) {
    forall es: seq<Event> | CalmRun(w, es) :: Guarantee(Run(w, es))
  }

  lemma SomeFreshId(m: map<Id, Request>) returns (id: Id)
    ensures id !in m
  {
    id := FreshAbove(m.Keys);
  }

  lemma {:induction false} FreshAbove(ids: set<Id>) returns (id: Id)
    ensures forall x | x in ids :: x < id
    decreases |ids|
  {
    if ids == {} {
      id := 0;
    } else {
      var x :| x in ids;
      var rest := FreshAbove(ids - {x});
      id := if rest > x then rest else x + 1;
      assert forall y | y in ids :: y == x || y in ids - {x};
    }
  }

  lemma RunThree(w: World, a: Event, b: Event, c: Event)
    ensures Run(w, [a, b, c]) == Step(Step(Step(w, a), b), c)
    ensures CalmRun(w, [a, b, c]) <==> Calm(w, a) && Calm(Step(w, a), b) && Calm(Step(Step(w, a), b), c)
  {
    assert [a, b, c][1..] == [b, c] && [b, c][1..] == [c] && [c][1..] == [];
    assert Run(Step(Step(w, a), b), [c]) == Run(Step(Step(Step(w, a), b), c), []);
    assert CalmRun(Step(Step(Step(w, a), b), c), []);
    assert CalmRun(Step(Step(w, a), b), [c]) <==> Calm(Step(Step(w, a), b), c);
    assert CalmRun(Step(w, a), [b, c]) <==> Calm(Step(w, a), b) && CalmRun(Step(Step(w, a), b), [c]);
  }

  /** After a step that is not calm, three ordinary steps give two handlers, or a handler whose record is
      not its own marker. */
  lemma RaceBreaksIt(w: World, e: Event) returns (es: seq<Event>)
    requires !w.config.failOpen && Exclusive(w) && !Calm(w, e)
    ensures |es| == 3 && CalmRun(Step(w, e), es) && !Guarantee(Run(Step(w, e), es))
  {
    var w1 := Step(w, e);
    assert w1.record.None?;
    if SomeoneLost(w) {
      var l :| l in w.requests && w.requests[l].phase.LostSet?;
      assert w1.requests[l] == w.requests[l];
      es := LoserRace(w1, l);
    } else {
      var a :| a in w.requests && Active(w.requests[a].phase);
      assert w1.requests == w.requests;
      es := HolderRace(w1, a);
    }
  }

  /** The loser's GET finds nothing and it runs unreserved; a newcomer wins the free key and runs as well. */
  lemma LoserRace(w: World, l: Id) returns (es: seq<Event>)
    requires w.record.None? && l in w.requests && w.requests[l].phase.LostSet?
    ensures |es| == 3 && CalmRun(w, es)
    ensures exists a, b :: a != b && a in Handlers(Run(w, es)) && b in Handlers(Run(w, es))
  {
    var newcomer := SomeFreshId(w.requests);
    es := [Get(l, Fine), Arrive(newcomer, 0), SetNx(newcomer, Fine)];
    RunThree(w, es[0], es[1], es[2]);
    assert l in Handlers(Run(w, es)) && newcomer in Handlers(Run(w, es));
  }

  /** A newcomer wins the free key while the holder goes on: a second handler, if the holder's still runs,
      and otherwise the holder's SET or DEL takes the newcomer's marker away. */
  lemma HolderRace(w: World, a: Id) returns (es: seq<Event>)
    requires w.record.None? && a in w.requests && Active(w.requests[a].phase) && !SomeoneLost(w)
    requires w.requests[a].phase.Saving? ==> w.requests[a].phase.record.Done?
    ensures |es| == 3 && CalmRun(w, es) && !Guarantee(Run(w, es))
  {
    var newcomer := SomeFreshId(w.requests);
    var last := if w.requests[a].phase.Saving? then Store(a, Fine)
                else if w.requests[a].phase.Releasing? then Delete(a, Fine)
                else Arrive(newcomer, 0);
    es := [Arrive(newcomer, 0), SetNx(newcomer, Fine), last];
    RunThree(w, es[0], es[1], es[2]);
    var w2 := Step(Step(w, es[0]), es[1]);
    assert w2.Is(newcomer, Running) && w2.requests[a] == w.requests[a];
    assert newcomer in Handlers(Step(w2, last));
    assert w.requests[a].phase.Running? ==> a in Handlers(Step(w2, last));
  }

  lemma ExclusiveGuarantees(w: World)
    requires Exclusive(w)
    ensures Guarantee(w)
  {
  }

  /** Exactly the calm steps keep the guarantee: after any other one some ordinary continuation has two
      handlers, or a handler whose record is not its own marker. */
  lemma CalmIsExact(w: World, e: Event)
    requires !w.config.failOpen && Exclusive(w)
    ensures Calm(w, e) <==> StaysGuaranteed(Step(w, e))
  {
    if Calm(w, e) {
      ExclusiveStep(w, e);
      forall es: seq<Event> | CalmRun(Step(w, e), es) ensures Guarantee(Run(Step(w, e), es)) {
        ExclusiveRun(Step(w, e), es);
        ExclusiveGuarantees(Run(Step(w, e), es));
      }
    } else {
      var es := RaceBreaksIt(w, e);
    }
  }

  // -- What a replay may contain, in every run ---------------------------------------------

  predicate Justified(w: World, fingerprint: Fingerprint, answer: Response) {
    exists i :: 0 <= i < |w.completed|
      && w.completed[i].fingerprint == fingerprint
      && IsReplayOf(w.completed[i].response, w.config.maxStored, answer)
  }

  predicate IsReplayOf(run: Response, maxStored: nat, answer: Response) {
    && run.status < 500 && |run.body| <= maxStored
    && answer == Replay(run.status, run.headers, run.body)
  }

  predicate RecordJustified(w: World, r: Record) {
    r.Done? ==> Latin1Encode(r.body).Some?
                && Justified(w, r.fingerprint, Replay(r.status, r.headers, Latin1Encode(r.body).value))
  }

  predicate Honest(w: World) {
    && (w.record.Some? ==> RecordJustified(w, w.record.value))
    && (forall id | id in w.requests :: RequestHonest(w, w.requests[id]))
  }

  predicate RequestHonest(w: World, q: Request) {
    && (q.phase.Saving? ==> q.phase.record.Done? && q.phase.record.fingerprint == q.fingerprint
                            && RecordJustified(w, q.phase.record))
    && (q.phase.Finished? && q.phase.answer.Replayed? ==> Justified(w, q.fingerprint, q.phase.answer.response))
    && (q.phase.Releasing? ==> !q.phase.outcome.Replayed?)
  }

  lemma JustifiedStays(w: World, w1: World, fingerprint: Fingerprint, answer: Response)
    requires w1.config == w.config && w.completed <= w1.completed && Justified(w, fingerprint, answer)
    ensures Justified(w1, fingerprint, answer)
  {
    var i :| 0 <= i < |w.completed| && w.completed[i].fingerprint == fingerprint
      && IsReplayOf(w.completed[i].response, w.config.maxStored, answer);
    assert w1.completed[i] == w.completed[i];
  }

  lemma HonestGrows(w: World, w1: World)
    requires Honest(w) && w1.config == w.config && w1.record == w.record && w1.requests == w.requests
    requires w.completed <= w1.completed
    ensures Honest(w1)
  {
    forall fp, answer | Justified(w, fp, answer) ensures Justified(w1, fp, answer) {
      JustifiedStays(w, w1, fp, answer);
    }
  }

  lemma HonestReturns(w: World, id: Id, messages: seq<Message>)
    requires Honest(w)
    ensures Honest(StepReturns(w, id, messages))
  {
    if w.Is(id, Running) || w.Is(id, PassThrough) {
      var noted := Note(w, id, messages);
      HonestGrows(w, noted);
      var r := Recorded(messages, w.config.maxStored);
      RecordedIsSent(messages, w.config.maxStored);
      if w.Is(id, Running) && r.status < 500 && !r.tooLarge {
        Latin1RoundTrip(Joined(r.chunks));
        var last := noted.completed[|w.completed|];
        assert last == Completion(w.requests[id].fingerprint, Sent(messages));
        assert RecordJustified(noted, DoneRecord(w.requests[id].fingerprint, r));
      }
    }
  }

  lemma HonestSame(w: World, w1: World, q: Request)
    requires RequestHonest(w, q) && w1.config == w.config && w1.completed == w.completed
    ensures RequestHonest(w1, q)
  {
    forall fp, answer | Justified(w, fp, answer) ensures Justified(w1, fp, answer) {
      JustifiedStays(w, w1, fp, answer);
    }
  }

  lemma RecordSame(w: World, w1: World, r: Record)
    requires RecordJustified(w, r) && w1.config == w.config && w1.completed == w.completed
    ensures RecordJustified(w1, r)
  {
    if r.Done? {
      JustifiedStays(w, w1, r.fingerprint, Replay(r.status, r.headers, Latin1Encode(r.body).value));
    }
  }

  lemma ProgressKeeps(w: World, e: Event)
    requires !e.HandlerReturns?
    ensures Step(w, e).config == w.config && Step(w, e).completed == w.completed
    ensures forall id | id in Step(w, e).requests && (e.Expire? || id != e.id) ::
              id in w.requests && Step(w, e).requests[id] == w.requests[id]
  {
  }

  /** What a request's own step makes of it is honest by what was known before. */
  lemma OwnHonest(w: World, e: Event)
    requires Honest(w) && !e.HandlerReturns? && !e.Expire? && e.id in Step(w, e).requests
    ensures RequestHonest(w, Step(w, e).requests[e.id])
  {
    if e.id in w.requests { assert RequestHonest(w, w.requests[e.id]); }
  }

  lemma RecordHonest(w: World, e: Event)
    requires Honest(w) && !e.HandlerReturns? && Step(w, e).record.Some?
    ensures RecordJustified(w, Step(w, e).record.value)
  {
    if !e.Expire? && e.id in w.requests { assert RequestHonest(w, w.requests[e.id]); }
  }

  lemma HonestStep(w: World, e: Event)
    requires Honest(w)
    ensures Honest(Step(w, e))
  {
    if e.HandlerReturns? {
      HonestReturns(w, e.id, e.messages);
    } else {
      var w1 := Step(w, e);
      ProgressKeeps(w, e);
      if w1.record.Some? {
        RecordHonest(w, e);
        RecordSame(w, w1, w1.record.value);
      }
      forall id | id in w1.requests ensures RequestHonest(w1, w1.requests[id]) {
        if !e.Expire? && id == e.id { OwnHonest(w, e); }
        HonestSame(w, w1, w1.requests[id]);
      }
    }
  }

  lemma {:induction false} HonestRun(w: World, es: seq<Event>)
    requires Honest(w)
    ensures Honest(Run(w, es)) && Run(w, es).config == w.config
    decreases |es|
  {
    if es != [] {
      HonestStep(w, es[0]);
      HonestRun(Step(w, es[0]), es[1..]);
    }
  }

  /** Every replay, in every run with expiry, races, failures and fail_open: it is the replay of some
      completed run of this key whose request had the same fingerprint, whose status is below 500 and
      whose whole body fits the limit. So a 5xx or a truncated response is never replayed. */
  lemma ReplaysAreHonest(config: Config, es: seq<Event>, id: Id)
    requires var w := Run(Empty(config), es);
             id in w.requests && w.requests[id].phase.Finished? && w.requests[id].phase.answer.Replayed?
    ensures var w := Run(Empty(config), es);
            exists i :: 0 <= i < |w.completed|
              && w.completed[i].fingerprint == w.requests[id].fingerprint
              && w.completed[i].response.status < 500
              && |w.completed[i].response.body| <= config.maxStored
              && w.requests[id].phase.answer.response
                 == Replay(w.completed[i].response.status, w.completed[i].response.headers,
                     w.completed[i].response.body)
  {
    HonestRun(Empty(config), es);
    var w := Run(Empty(config), es);
    var answer := w.requests[id].phase.answer.response;
    var i :| 0 <= i < |w.completed| && w.completed[i].fingerprint == w.requests[id].fingerprint
      && IsReplayOf(w.completed[i].response, w.config.maxStored, answer);
  }

  // -- What a conflict answer may mean -----------------------------------------------------

  predicate Explained(w: World) {
    && (w.record.Some? ==>
          && w.writer in w.requests
          && w.requests[w.writer].fingerprint == w.record.value.fingerprint
          && !w.requests[w.writer].phase.Arrived? && !w.requests[w.writer].phase.LostSet?)
    && (forall id | id in w.requests :: ConflictExplained(w, id))
  }

  predicate ConflictExplained(w: World, id: Id)
    requires id in w.requests
  {
    var q := w.requests[id];
    && (q.phase.Saving? ==> q.phase.record.fingerprint == q.fingerprint)
    && (q.phase.Releasing? ==> !q.phase.outcome.OtherBody? && !q.phase.outcome.StillRunning?)
    && (q.phase.Finished? && q.phase.answer.OtherBody? ==>
          exists other :: other in w.requests && w.requests[other].fingerprint != q.fingerprint)
    && (q.phase.Finished? && q.phase.answer.StillRunning? ==>
          exists other :: other in w.requests && other != id && w.requests[other].fingerprint == q.fingerprint)
  }

  lemma FingerprintsStay(w: World, e: Event)
    ensures forall id | id in w.requests ::
              id in Step(w, e).requests && Step(w, e).requests[id].fingerprint == w.requests[id].fingerprint
  {
  }

  lemma ConflictStays(w: World, w1: World, id: Id)
    requires id in w.requests && ConflictExplained(w, id)
    requires forall x | x in w.requests :: x in w1.requests && w1.requests[x].fingerprint == w.requests[x].fingerprint
    requires w1.requests[id] == w.requests[id]
    ensures ConflictExplained(w1, id)
  {
  }

  lemma ConflictOwnStep(w: World, e: Event)
    requires Explained(w) && !e.Expire? && e.id in Step(w, e).requests
    ensures ConflictExplained(Step(w, e), e.id)
  {
    FingerprintsStay(w, e);
    if e.id in w.requests {
      assert ConflictExplained(w, e.id);
      if e.Get? && w.Is(e.id, LostSet) && w.record.Some? {
        assert w.writer in Step(w, e).requests && w.writer != e.id;
      } else if Step(w, e).requests[e.id] == w.requests[e.id] {
        ConflictStays(w, Step(w, e), e.id);
      }
    }
  }

  lemma RecordExplainedStep(w: World, e: Event)
    requires Explained(w)
    ensures var w1 := Step(w, e);
            w1.record.Some? ==>
              && w1.writer in w1.requests
              && w1.requests[w1.writer].fingerprint == w1.record.value.fingerprint
              && !w1.requests[w1.writer].phase.Arrived? && !w1.requests[w1.writer].phase.LostSet?
  {
    if !e.Expire? && e.id in w.requests { assert ConflictExplained(w, e.id); }
  }

  lemma ExplainedStep(w: World, e: Event)
    requires Explained(w)
    ensures Explained(Step(w, e))
  {
    RecordExplainedStep(w, e);
    FingerprintsStay(w, e);
    forall id | id in Step(w, e).requests ensures ConflictExplained(Step(w, e), id) {
      if !e.Expire? && e.id == id {
        ConflictOwnStep(w, e);
      } else {
        ConflictStays(w, Step(w, e), id);
      }
    }
  }

  lemma {:induction false} ExplainedRun(w: World, es: seq<Event>)
    requires Explained(w)
    ensures Explained(Run(w, es))
    decreases |es|
  {
    if es != [] {
      ExplainedStep(w, es[0]);
      ExplainedRun(Step(w, es[0]), es[1..]);
    }
  }

  /** A 409 always has another request behind it, in any run: "different body" means that some request used
      the key with another fingerprint, "still in progress" that another one used it with the same. Whether
      that one is in progress is the next question. */
  lemma ConflictsAreReal(config: Config, es: seq<Event>, id: Id)
    requires id in Run(Empty(config), es).requests && Run(Empty(config), es).requests[id].phase.Finished?
    ensures var w := Run(Empty(config), es);
            var answer := w.requests[id].phase.answer;
            && (answer.OtherBody? ==>
                  exists other :: other in w.requests && w.requests[other].fingerprint != w.requests[id].fingerprint)
            && (answer.StillRunning? ==>
                  exists other :: other in w.requests && other != id
                    && w.requests[other].fingerprint == w.requests[id].fingerprint)
  {
    ExplainedRun(Empty(config), es);
    assert ConflictExplained(Run(Empty(config), es), id);
  }

  // -- Whether anyone is in progress when a request is told so -------------------------------

  /** The record is an in-flight marker and the request that wrote it is no longer at work on it. */
  predicate Orphaned(w: World) {
    && w.record.Some? && w.record.value.InFlight?
    && !(w.writer in w.requests && Active(w.requests[w.writer].phase))
  }

  predicate InPhaseOf(w: World, id: Id, e: Event) {
    id in w.requests && (if e.Delete? then w.requests[id].phase.Releasing? else w.requests[id].phase.Saving?)
  }

  /** The ways to leave a marker behind: the request whose marker it is is cancelled, which `except Exception`
      does not see, or its one DEL or SET gets lost, or the SET NX takes effect and its reply gets lost. */
  predicate LeavesMarker(w: World, e: Event) {
    match e
    case Cancel(id) =>
      w.record.Some? && w.record.value.InFlight? && id == w.writer
    case Delete(id, reply) =>
      w.record.Some? && w.record.value.InFlight? && id == w.writer && InPhaseOf(w, id, e) && !Applies(reply)
    case Store(id, reply) =>
      w.record.Some? && w.record.value.InFlight? && id == w.writer && InPhaseOf(w, id, e) && !Applies(reply)
    case SetNx(id, reply) => w.record.None? && w.Is(id, Arrived) && reply == Failed(true)
    case _ => false
  }

  /** Done records are only ever saved by requests at that phase. */
  predicate SavesDone(w: World) {
    forall id | id in w.requests && w.requests[id].phase.Saving? :: w.requests[id].phase.record.Done?
  }

  /** Exactly those steps leave a marker behind, in every run with races, expiry and fail_open. */
  lemma OrphanIsExact(w: World, e: Event)
    requires !Orphaned(w) && SavesDone(w)
    ensures Orphaned(Step(w, e)) <==> LeavesMarker(w, e)
    ensures SavesDone(Step(w, e))
  {
  }

  /** Nobody is cancelled and the replies of SET NX, DEL and SET arrive; a GET may fail. */
  predicate Reliable(e: Event) {
    match e
    case SetNx(_, reply) => reply.Fine?
    case Delete(_, reply) => reply.Fine?
    case Store(_, reply) => reply.Fine?
    case Cancel(_) => false
    case _ => true
  }

  predicate AllReliable(es: seq<Event>) { forall i | 0 <= i < |es| :: Reliable(es[i]) }

  lemma {:induction false} ReliableRun(w: World, es: seq<Event>)
    requires !Orphaned(w) && SavesDone(w) && AllReliable(es)
    ensures !Orphaned(Run(w, es)) && SavesDone(Run(w, es))
    decreases |es|
  {
    if es != [] {
      assert Reliable(es[0]);
      OrphanIsExact(w, es[0]);
      assert forall i | 0 <= i < |es| - 1 :: es[1..][i] == es[i + 1];
      ReliableRun(Step(w, es[0]), es[1..]);
    }
  }

  /** In every run of that kind, races and expiry included: a request that is told "still in progress" is told
      so while another request with the same body is at work on the key. */
  lemma InProgressIsReal(config: Config, es: seq<Event>, id: Id) returns (other: Id)
    requires AllReliable(es) && Run(Empty(config), es).Is(id, LostSet)
    requires Step(Run(Empty(config), es), Get(id, Fine)).Is(id, Finished(StillRunning))
    ensures var w := Run(Empty(config), es);
            && other != id && other in w.requests && Active(w.requests[other].phase)
            && w.requests[other].fingerprint == w.requests[id].fingerprint
  {
    ReliableRun(Empty(config), es);
    ExplainedRun(Empty(config), es);
    other := Run(Empty(config), es).writer;
  }

  /** A marker left behind with nobody at work stays until it expires, whatever requests come and go. */
  lemma {:induction false} OrphanStays(w: World, es: seq<Event>)
    requires Orphaned(w) && !SomeoneActive(w) && NoExpiry(es)
    ensures Run(w, es).record == w.record && Orphaned(Run(w, es)) && !SomeoneActive(Run(w, es))
    decreases |es|
  {
    if es != [] {
      OrphanStep(w, es[0]);
      OrphanStays(Step(w, es[0]), es[1..]);
    }
  }

  lemma OrphanStep(w: World, e: Event)
    requires Orphaned(w) && !SomeoneActive(w) && !e.Expire?
    ensures Step(w, e).record == w.record && Step(w, e).writer == w.writer && !SomeoneActive(Step(w, e))
    ensures Orphaned(Step(w, e))
  {
    assert forall id | id in w.requests :: !Active(w.requests[id].phase);
    assert forall id | id in Step(w, e).requests :: !Active(Step(w, e).requests[id].phase);
  }

  /** And every request that comes meanwhile with that body is told "still in progress". */
  lemma OrphanAnswers(w: World, es: seq<Event>, id: Id)
    requires Orphaned(w) && !SomeoneActive(w) && NoExpiry(es) && id !in Run(w, es).requests
    ensures var w1 := Run(w, es);
            var asked := Run(w1, [Arrive(id, w.record.value.fingerprint), SetNx(id, Fine), Get(id, Fine)]);
            asked.Is(id, Finished(StillRunning)) && !SomeoneActive(asked)
  {
    OrphanStays(w, es);
    var w1 := Run(w, es);
    var asking := [Arrive(id, w.record.value.fingerprint), SetNx(id, Fine), Get(id, Fine)];
    RunThree(w1, asking[0], asking[1], asking[2]);
    OrphanStays(w1, asking);
  }

  /** How one request on an unused key leaves its marker behind, one run for each cause. */
  datatype Cause = Cancelling | LosingDelete | LosingSet | LosingReply

  function Abandons(fingerprint: Fingerprint, cause: Cause): seq<Event> {
    match cause
    case Cancelling => [Arrive(0, fingerprint), SetNx(0, Fine), Cancel(0)]
    case LosingDelete => [Arrive(0, fingerprint), SetNx(0, Fine), HandlerRaises(0), Delete(0, Failed(false))]
    case LosingSet => [Arrive(0, fingerprint), SetNx(0, Fine), HandlerReturns(0, []), Store(0, Failed(false))]
    case LosingReply => [Arrive(0, fingerprint), SetNx(0, Failed(true))]
  }

  lemma RunTwo(w: World, a: Event, b: Event)
    ensures Run(w, [a, b]) == Step(Step(w, a), b)
  {
    RunOne(w, a);
    RunOne(Step(w, a), b);
    RunAppend(w, [a], [b]);
    assert [a] + [b] == [a, b];
  }

  lemma RunFour(w: World, a: Event, b: Event, c: Event, d: Event)
    ensures Run(w, [a, b, c, d]) == Step(Step(Step(Step(w, a), b), c), d)
  {
    RunTwo(w, a, b);
    RunTwo(Step(Step(w, a), b), c, d);
    RunAppend(w, [a, b], [c, d]);
    assert [a, b] + [c, d] == [a, b, c, d];
  }

  lemma AbandonsOrphans(config: Config, fingerprint: Fingerprint, cause: Cause)
    ensures var w := Run(Empty(config), Abandons(fingerprint, cause));
            Orphaned(w) && !SomeoneActive(w) && w.record.value.fingerprint == fingerprint
  {
    var es := Abandons(fingerprint, cause);
    var w := Empty(config);
    match cause {
      case Cancelling => RunThree(w, es[0], es[1], es[2]);
      case LosingDelete => RunFour(w, es[0], es[1], es[2], es[3]);
      case LosingSet => RunFour(w, es[0], es[1], es[2], es[3]);
      case LosingReply => RunTwo(w, es[0], es[1]);
    }
  }

  /** Each cause has its run, after which nobody is at work on the key, and all requests that come with that
      body before the marker expires are told that one is still in progress. */
  lemma NobodyInProgress(config: Config, fingerprint: Fingerprint, cause: Cause, es: seq<Event>, id: Id)
    requires NoExpiry(es) && id !in Run(Run(Empty(config), Abandons(fingerprint, cause)), es).requests
    ensures var w := Run(Run(Empty(config), Abandons(fingerprint, cause)), es);
            var asked := Run(w, [Arrive(id, fingerprint), SetNx(id, Fine), Get(id, Fine)]);
            asked.Is(id, Finished(StillRunning)) && !SomeoneActive(asked)
  {
    AbandonsOrphans(config, fingerprint, cause);
    OrphanAnswers(Run(Empty(config), Abandons(fingerprint, cause)), es, id);
  }

  // -- The middleware's own code, with the rest of the world running between its awaits --------

  predicate Foreign(id: Id, e: Event) { e.Expire? || e.id != id }

  predicate AllForeign(id: Id, es: seq<Event>) { forall i | 0 <= i < |es| :: Foreign(id, es[i]) }

  lemma {:induction false} ForeignKeeps(w: World, id: Id, es: seq<Event>)
    requires AllForeign(id, es) && id in w.requests
    ensures id in Run(w, es).requests && Run(w, es).requests[id] == w.requests[id]
    decreases |es|
  {
    if es != [] {
      assert Foreign(id, es[0]);
      assert id in Step(w, es[0]).requests && Step(w, es[0]).requests[id] == w.requests[id];
      assert forall i | 0 <= i < |es| - 1 :: es[1..][i] == es[i + 1];
      ForeignKeeps(Step(w, es[0]), id, es[1..]);
    }
  }

  lemma ConfigKept(w: World, e: Event)
    ensures Step(w, e).config == w.config
  {
  }

  lemma ThreeParts(w: World, a: Event, others: seq<Event>, b: Event, c: Event)
    ensures Run(w, [a] + others + [b, c]) == Step(Step(Run(Step(w, a), others), b), c)
  {
    var w2 := Run(Step(w, a), others);
    RunOne(w, a);
    RunAppend(w, [a], others);
    RunOne(w2, b);
    RunOne(Step(w2, b), c);
    RunAppend(w2, [b], [c]);
    assert [b] + [c] == [b, c];
    RunAppend(w, [a] + others, [b, c]);
  }

  datatype Outcome = Returns(messages: seq<Message>) | Raises | TaskCancelled

  function OutcomeEvent(id: Id, outcome: Outcome): Event {
    match outcome
    case Returns(messages) => HandlerReturns(id, messages)
    case Raises => HandlerRaises(id)
    case TaskCancelled => Cancel(id)
  }

  // -- What one request is answered and what it leaves behind, read off what happens to it -------------

  /** The handler's own outcome, as the client sees it. */
  function Own(outcome: Outcome): Answer {
    match outcome
    case Returns(_) => Ran
    case Raises => HandlerRaised
    case TaskCancelled => Cancelled
  }

  function ClaimTrace(id: Id, setReply: Reply, between: seq<Event>, getReply: Reply): seq<Event> {
    [SetNx(id, setReply)] + between + [Get(id, getReply)]
  }

  function RunTrace(id: Id, outcome: Outcome, after: seq<Event>, reply: Reply): seq<Event> {
    [OutcomeEvent(id, outcome)] + after + [Delete(id, reply), Store(id, reply)]
  }

  lemma ClaimRuns(w: World, id: Id, setReply: Reply, between: seq<Event>, getReply: Reply)
    ensures Run(w, ClaimTrace(id, setReply, between, getReply))
         == Step(Run(Step(w, SetNx(id, setReply)), between), Get(id, getReply))
  {
    var w1 := Step(w, SetNx(id, setReply));
    RunOne(w, SetNx(id, setReply));
    RunAppend(w, [SetNx(id, setReply)], between);
    RunOne(Run(w1, between), Get(id, getReply));
    RunAppend(w, [SetNx(id, setReply)] + between, [Get(id, getReply)]);
  }

  /** How `_claim` ends. The store's failure lets the request pass with `fail_open` and refuses it without;
      a free key is taken; a lost one is answered from the record found then, or run if that is gone. */
  lemma ClaimEnds(w: World, id: Id, setReply: Reply, between: seq<Event>, getReply: Reply)
    requires w.Is(id, Arrived) && AllForeign(id, between)
    ensures var found := Run(Step(w, SetNx(id, setReply)), between).record;
            var w1 := Run(w, ClaimTrace(id, setReply, between, getReply));
            var fp := w.requests[id].fingerprint;
            var failed := setReply.Failed? || (w.record.Some? && getReply.Failed?);
            && id in w1.requests && w1.requests[id].fingerprint == fp
            && (w1.Is(id, PassThrough) <==> failed && w.config.failOpen)
            && (w1.Is(id, Finished(Unavailable)) <==> failed && !w.config.failOpen)
            && (w1.Is(id, Running) <==> !failed && (w.record.None? || found.None?))
            && (!failed && w.record.Some? && found.Some? ==>
                  w1.Is(id, Finished(if found.value.fingerprint != fp then OtherBody
                                     else if found.value.InFlight? then StillRunning
                                     else ReplayOf(found.value))))
  {
    ClaimRuns(w, id, setReply, between, getReply);
    ForeignKeeps(Step(w, SetNx(id, setReply)), id, between);
    ConfigStays(Step(w, SetNx(id, setReply)), between);
  }

  /** What a run of the handler ends in and leaves: its own outcome; the whole response in the record if that
      may be played back, no record if not, both if the one command takes effect; a cancelled run, and one
      that passes by the record, leave the record alone. */
  lemma RunLeaves(w: World, id: Id, outcome: Outcome, after: seq<Event>, reply: Reply)
    requires (w.Is(id, Running) || w.Is(id, PassThrough)) && AllForeign(id, after)
    ensures var before := Run(Step(w, OutcomeEvent(id, outcome)), after).record;
            var w1 := Run(w, RunTrace(id, outcome, after, reply));
            && w1.Is(id, Finished(Own(outcome)))
            && w1.record == if w.Is(id, PassThrough) || outcome.TaskCancelled? || !Applies(reply) then before
                            else if outcome.Returns? && Recordable(outcome.messages, w.config.maxStored)
                            then Some(RecordOf(w.requests[id].fingerprint, outcome.messages))
                            else None
  {
    var w1 := Step(w, OutcomeEvent(id, outcome));
    ThreeParts(w, OutcomeEvent(id, outcome), after, Delete(id, reply), Store(id, reply));
    ForeignKeeps(w1, id, after);
    DueIsDone(Run(w1, after), id, reply);
    if outcome.Returns? && w.Is(id, Running) { RecordsExactly(w, id, outcome.messages); }
  }

  /** Of DEL and SET the one that is due ends the request and, if it takes effect, changes the record. */
  lemma DueIsDone(w: World, id: Id, reply: Reply)
    requires id in w.requests
    requires var phase := w.requests[id].phase; phase.Releasing? || phase.Saving? || phase.Finished?
    ensures var phase := w.requests[id].phase;
            var w1 := Step(Step(w, Delete(id, reply)), Store(id, reply));
            && w1.Is(id, Finished(if phase.Releasing? then phase.outcome else if phase.Saving? then Ran
                                  else phase.answer))
            && w1.record == if phase.Finished? || !Applies(reply) then w.record
                            else if phase.Releasing? then None else Some(phase.record)
  {
  }

  class IdempotencyMiddleware {
    const config: Config
    var record: Option<Record>
    var writer: Id
    var requests: map<Id, Request>
    var completed: seq<Completion>

    ghost function Snapshot(): World
      reads this
    {
      World(config, record, writer, requests, completed)
    }

    constructor (config: Config)
      ensures this.config == config && Snapshot() == Empty(config)
    {
      this.config := config;
      record, writer, requests, completed := None, 0, map[], [];
    }

    /** The steps of everyone else during one await. */
    method Others(es: seq<Event>)
      modifies this
      ensures Snapshot() == Run(old(Snapshot()), es)
    {
      for i := 0 to |es|
        invariant Snapshot() == Run(old(Snapshot()), es[..i])
      {
        ghost var before := Snapshot();
        assert before.config == config;
        var w := Step(World(config, record, writer, requests, completed), es[i]);
        record, writer, requests, completed := w.record, w.writer, w.requests, w.completed;
        RunAppend(old(Snapshot()), es[..i], [es[i]]);
        RunOne(before, es[i]);
        assert es[..i] + [es[i]] == es[..i + 1];
        ConfigKept(before, es[i]);
      }
      assert es[..|es|] == es;
    }

    method SetPhase(id: Id, phase: Phase)
      requires id in requests
      modifies this`requests
      ensures Snapshot() == old(Snapshot()).Move(id, phase)
    {
      requests := requests[id := Request(requests[id].fingerprint, phase)];
    }

    /** `_claim`, with what `__call__` does with its result. */
    method Claim(id: Id, setReply: Reply, others: seq<Event>, getReply: Reply)
      requires id in requests && requests[id].phase == Arrived && AllForeign(id, others)
      modifies this
      ensures Snapshot() == Run(old(Snapshot()), [SetNx(id, setReply)] + others + [Get(id, getReply)])
      ensures id in requests && requests[id].fingerprint == old(requests[id].fingerprint)
      ensures requests[id].phase.Running? || requests[id].phase.PassThrough? || requests[id].phase.Finished?
    {
      ghost var w0 := Snapshot();
      var won := record.None?;
      if won && Applies(setReply) {
        record, writer := Some(InFlight(requests[id].fingerprint)), id;
      }
      if setReply.Failed? {
        SetPhase(id, if config.failOpen then PassThrough else Finished(Unavailable));
      } else {
        SetPhase(id, if won then Running else LostSet);
      }
      ghost var w1 := Snapshot();
      assert w1 == Step(w0, SetNx(id, setReply));
      Others(others);
      ghost var w2 := Snapshot();
      ForeignKeeps(w1, id, others);
      if requests[id].phase == LostSet {
        if getReply.Failed? {
          SetPhase(id, if config.failOpen then PassThrough else Finished(Unavailable));
        } else if record.None? {
          SetPhase(id, Running);
        } else {
          SetPhase(id, Finished(AnswerFrom(record.value, requests[id].fingerprint)));
        }
      }
      assert Snapshot() == Step(w2, Get(id, getReply));
      RunOne(w0, SetNx(id, setReply));
      RunAppend(w0, [SetNx(id, setReply)], others);
      RunOne(w2, Get(id, getReply));
      RunAppend(w0, [SetNx(id, setReply)] + others, [Get(id, getReply)]);
    }

    /** `_run_and_record`: the response goes through `send_wrapper`, then one DEL or SET. */
    method RunAndRecord(id: Id, outcome: Outcome, others: seq<Event>, reply: Reply)
      requires id in requests && requests[id].phase == Running && AllForeign(id, others)
      modifies this
      ensures Snapshot() == Run(old(Snapshot()),
                [OutcomeEvent(id, outcome)] + others + [Delete(id, reply), Store(id, reply)])
      ensures id in requests && requests[id].phase == Finished(Own(outcome))
    {
      ghost var w0 := Snapshot();
      RunLeaves(w0, id, outcome, others, reply);
      Record(id, outcome);
      ghost var w1 := Snapshot();
      Others(others);
      ForeignKeeps(w1, id, others);
      Finish(id, reply);
      ThreeParts(w0, OutcomeEvent(id, outcome), others, Delete(id, reply), Store(id, reply));
    }

    /** The handler's end, and what is due then. */
    method Record(id: Id, outcome: Outcome)
      requires id in requests && requests[id].phase == Running
      modifies this
      ensures Snapshot() == Step(old(Snapshot()), OutcomeEvent(id, outcome))
      ensures id in requests
      ensures requests[id].phase.Releasing? || requests[id].phase.Saving? || requests[id].phase.Finished?
    {
      match outcome {
      case Returns(messages) =>
        var recorder := new ResponseRecorder(config.maxStored);
        recorder.SendAll(messages);
        RecordedIsSent(messages, config.maxStored);
        completed := completed + [Completion(requests[id].fingerprint, Sent(messages))];
        if recorder.status >= 500 || recorder.tooLarge {
          SetPhase(id, Releasing(Ran));
        } else {
          var body := Latin1Decode(Joined(recorder.chunks));
          SetPhase(id, Saving(Done(requests[id].fingerprint, recorder.status, recorder.headers, body)));
        }
      case Raises =>
        SetPhase(id, Releasing(HandlerRaised));
      case TaskCancelled =>
        SetPhase(id, Finished(Cancelled));
      }
    }

    /** The one DEL or SET that is due, if any. */
    method Finish(id: Id, reply: Reply)
      requires id in requests
      requires requests[id].phase.Releasing? || requests[id].phase.Saving? || requests[id].phase.Finished?
      modifies this
      ensures Snapshot() == Step(Step(old(Snapshot()), Delete(id, reply)), Store(id, reply))
      ensures id in requests && requests[id].phase.Finished?
    {
      var phase := requests[id].phase;
      if phase.Releasing? {
        if Applies(reply) { record := None; }
        SetPhase(id, Finished(phase.outcome));
      } else if phase.Saving? {
        if Applies(reply) { record, writer := Some(phase.record), id; }
        SetPhase(id, Finished(Ran));
      }
    }

    /** The branches of `__call__` that record nothing: a pass-through run, or an answer already given. */
    method PassOrReturn(id: Id, outcome: Outcome, others: seq<Event>, reply: Reply)
      requires id in requests && (requests[id].phase.PassThrough? || requests[id].phase.Finished?)
      requires AllForeign(id, others)
      modifies this
      ensures Snapshot() == Run(old(Snapshot()),
                [OutcomeEvent(id, outcome)] + others + [Delete(id, reply), Store(id, reply)])
      ensures id in requests && requests[id].phase.Finished?
    {
      ghost var w0 := Snapshot();
      if requests[id].phase == PassThrough {
        if outcome.Returns? {
          completed := completed + [Completion(requests[id].fingerprint, Sent(outcome.messages))];
        }
        SetPhase(id, Finished(if outcome.Returns? then Ran else if outcome.Raises? then HandlerRaised else Cancelled));
      }
      ghost var w1 := Snapshot();
      assert w1 == Step(w0, OutcomeEvent(id, outcome));
      Others(others);
      ForeignKeeps(w1, id, others);
      ghost var w2 := Snapshot();
      assert w2 == Step(w2, Delete(id, reply)) == Step(w2, Store(id, reply));
      ThreeParts(w0, OutcomeEvent(id, outcome), others, Delete(id, reply), Store(id, reply));
    }

    /** `__call__` for a request that carries a key: claim, then answer, run or pass through. `during` is
        what everyone else does while the handler runs, `after` while the result is stored. */
    method Call(id: Id, fingerprint: Fingerprint, setReply: Reply, between: seq<Event>, getReply: Reply,
                during: seq<Event>, outcome: Outcome, after: seq<Event>, reply: Reply)
      requires id !in requests && AllForeign(id, between) && AllForeign(id, during) && AllForeign(id, after)
      modifies this
      ensures Snapshot() == Run(Run(Run(Step(old(Snapshot()), Arrive(id, fingerprint)),
                                        [SetNx(id, setReply)] + between + [Get(id, getReply)]),
                                    during),
                                [OutcomeEvent(id, outcome)] + after + [Delete(id, reply), Store(id, reply)])
      ensures id in requests && requests[id].phase.Finished?
    {
      requests := requests[id := Request(fingerprint, Arrived)];
      Claim(id, setReply, between, getReply);
      ghost var claimed := Snapshot();
      Others(during);
      ForeignKeeps(claimed, id, during);
      if requests[id].phase == Running {
        RunAndRecord(id, outcome, after, reply);
      } else {
        PassOrReturn(id, outcome, after, reply);
      }
    }
  }
}
