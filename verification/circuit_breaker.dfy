/** The circuit breaker: closed, open, half-open, with any number of overlapping calls whose reports may come
    in late, in whatever state the breaker is by then. Readings of the monotonic clock are arguments. */
module CircuitBreaker {

  datatype CircuitState = Closed | Open | HalfOpen

  datatype Config = Config(failureThreshold: int, recoveryTimeout: real, halfOpenMaxCalls: int)

  datatype Breaker = Breaker(state: CircuitState, failureCount: nat, openedAt: real, halfOpenCalls: nat)

  const INITIAL := Breaker(Closed, 0, 0.0, 0)

  // -- The breaker ---------------------------------------------------------------------------------

  /** `_transition`. */
  function Transition(b: Breaker, state: CircuitState, now: real): Breaker {
    if state == b.state then b
    else match state
      case Open => b.(state := Open, openedAt := now, halfOpenCalls := 0)
      case HalfOpen => b.(state := HalfOpen, halfOpenCalls := 0)
      case Closed => b.(state := Closed, failureCount := 0, halfOpenCalls := 0)
  }

  /** Reading `state`. */
  function Observe(c: Config, b: Breaker, now: real): Breaker {
    if b.state == Open && now - b.openedAt >= c.recoveryTimeout then Transition(b, HalfOpen, now) else b
  }

  /** `before_call`, and whether the call is admitted. */
  function BeforeCall(c: Config, b: Breaker, now: real): (Breaker, bool) {
    var seen := Observe(c, b, now);
    match seen.state
    case Closed => (seen, true)
    case Open => (seen, false)
    case HalfOpen =>
      if seen.halfOpenCalls >= c.halfOpenMaxCalls then (seen, false)
      else (seen.(halfOpenCalls := seen.halfOpenCalls + 1), true)
  }

  function OnSuccess(b: Breaker): Breaker {
    if b.state == HalfOpen then Transition(b, Closed, 0.0) else b.(failureCount := 0)
  }

  function OnFailure(c: Config, b: Breaker, now: real): Breaker {
    if b.state == HalfOpen then Transition(b, Open, now)
    else
      var counted := b.(failureCount := b.failureCount + 1);
      if counted.failureCount >= c.failureThreshold then Transition(counted, Open, now) else counted
  }

  /** How a call ends. Cancelled is any BaseException that is no Exception. */
  datatype Outcome = Returned | Raised | Cancelled

  /** What `call` reports: nothing for a cancelled one. */
  function CallReports(c: Config, b: Breaker, outcome: Outcome, now: real): Breaker {
    match outcome
    case Returned => OnSuccess(b)
    case Raised => OnFailure(c, b, now)
    case Cancelled => b
  }

  /** What `__aexit__` reports. */
  function BlockReports(c: Config, b: Breaker, outcome: Outcome, now: real): Breaker {
    if outcome == Returned then OnSuccess(b) else OnFailure(c, b, now)
  }

  /** What other tasks do to the breaker while a call is awaited. */
  datatype Move = See(now: real) | Before(now: real) | Success | Failure(now: real) | Resetting

  function Apply(c: Config, b: Breaker, move: Move): Breaker {
    match move
    case See(now) => Observe(c, b, now)
    case Before(now) => BeforeCall(c, b, now).0
    case Success => OnSuccess(b)
    case Failure(now) => OnFailure(c, b, now)
    case Resetting => Transition(b, Closed, 0.0)
  }

  function ApplyAll(c: Config, b: Breaker, moves: seq<Move>): Breaker {
    if moves == [] then b else Apply(c, ApplyAll(c, b, moves[..|moves| - 1]), moves[|moves| - 1])
  }

  class AsyncCircuitBreaker {
    const config: Config
    var circuit: CircuitState
    var failureCount: nat
    var openedAt: real
    var halfOpenCalls: nat

    function Contents(): Breaker
      reads this
    {
      Breaker(circuit, failureCount, openedAt, halfOpenCalls)
    }

    constructor (config: Config)
      ensures this.config == config && Contents() == INITIAL
    {
      this.config := config;
      circuit, failureCount, openedAt, halfOpenCalls := Closed, 0, 0.0, 0;
    }

    method ChangeTo(state: CircuitState, now: real)
      modifies this
      ensures Contents() == Transition(old(Contents()), state, now)
    {
      if state == circuit { return; }
      circuit := state;
      if state == Open {
        openedAt := now;
        halfOpenCalls := 0;
      } else if state == HalfOpen {
        halfOpenCalls := 0;
      } else {
        failureCount := 0;
        halfOpenCalls := 0;
      }
    }

    method State(now: real) returns (state: CircuitState)
      modifies this
      ensures Contents() == Observe(config, old(Contents()), now) && state == circuit
    {
      if circuit == Open && now - openedAt >= config.recoveryTimeout {
        ChangeTo(HalfOpen, now);
      }
      state := circuit;
    }

    method Admit(now: real) returns (admitted: bool)
      modifies this
      ensures (Contents(), admitted) == BeforeCall(config, old(Contents()), now)
    {
      var state := State(now);
      if state == Open { return false; }
      if state == HalfOpen {
        if halfOpenCalls >= config.halfOpenMaxCalls { return false; }
        halfOpenCalls := halfOpenCalls + 1;
      }
      admitted := true;
    }

    method Succeed()
      modifies this
      ensures Contents() == OnSuccess(old(Contents()))
    {
      if circuit == HalfOpen {
        ChangeTo(Closed, 0.0);
      } else {
        failureCount := 0;
      }
    }

    method Fail(now: real)
      modifies this
      ensures Contents() == OnFailure(config, old(Contents()), now)
    {
      if circuit == HalfOpen {
        ChangeTo(Open, now);
        return;
      }
      failureCount := failureCount + 1;
      if failureCount >= config.failureThreshold {
        ChangeTo(Open, now);
      }
    }

    method Reset()
      modifies this
      ensures Contents() == Transition(old(Contents()), Closed, 0.0)
    {
      ChangeTo(Closed, 0.0);
    }

    /** Other tasks' moves, one after the other. */
    method Others(moves: seq<Move>)
      modifies this
      ensures Contents() == ApplyAll(config, old(Contents()), moves)
    {
      for i := 0 to |moves|
        invariant Contents() == ApplyAll(config, old(Contents()), moves[..i])
      {
        assert moves[..i + 1][..i] == moves[..i];
        match moves[i] {
          case See(now) => var _ := State(now);
          case Before(now) => var _ := Admit(now);
          case Success => Succeed();
          case Failure(now) => Fail(now);
          case Resetting => Reset();
        }
      }
      assert moves[..|moves|] == moves;
    }

    /** `call`: admitted or not, then `meanwhile` passes, then the outcome is reported at `later`. */
    method Call(now: real, meanwhile: seq<Move>, outcome: Outcome, later: real) returns (admitted: bool)
      modifies this
      ensures admitted == BeforeCall(config, old(Contents()), now).1
      ensures var entered := BeforeCall(config, old(Contents()), now).0;
              Contents() == if admitted then CallReports(config, ApplyAll(config, entered, meanwhile), outcome, later)
                            else entered
    {
      admitted := Admit(now);
      if admitted {
        Others(meanwhile);
        if outcome == Raised {
          Fail(later);
        } else if outcome == Returned {
          Succeed();
        }
      }
    }

    /** `async with breaker`. */
    method Block(now: real, meanwhile: seq<Move>, outcome: Outcome, later: real) returns (admitted: bool)
      modifies this
      ensures admitted == BeforeCall(config, old(Contents()), now).1
      ensures var entered := BeforeCall(config, old(Contents()), now).0;
              Contents() == if admitted then BlockReports(config, ApplyAll(config, entered, meanwhile), outcome, later)
                            else entered
    {
      admitted := Admit(now);
      if admitted {
        Others(meanwhile);
        if outcome == Returned {
          Succeed();
        } else {
          Fail(later);
        }
      }
    }
  }

  // -- Runs: overlapping calls, numbered as they are admitted ---------------------------------------

  datatype World = World(config: Config, breaker: Breaker, inFlight: set<nat>, admitted: nat)

  datatype Event =
    | Look(now: real)                           // someone reads `state`
    | Enter(now: real)                          // a new call asks to be admitted
    | Report(id: nat, outcome: Outcome, now: real)  // an admitted call ends inside `call`
    | Leave(id: nat, outcome: Outcome, now: real)   // an admitted call ends inside `async with`
    | Reset

  function Start(config: Config): World { World(config, INITIAL, {}, 0) }

  function Step(w: World, e: Event): World {
    match e
    case Look(now) => w.(breaker := Observe(w.config, w.breaker, now))
    case Enter(now) =>
      var (b, admitted) := BeforeCall(w.config, w.breaker, now);
      if admitted then w.(breaker := b, inFlight := w.inFlight + {w.admitted}, admitted := w.admitted + 1)
      else w.(breaker := b)
    case Report(id, outcome, now) =>
      if id !in w.inFlight then w
      else w.(breaker := CallReports(w.config, w.breaker, outcome, now), inFlight := w.inFlight - {id})
    case Leave(id, outcome, now) =>
      if id !in w.inFlight then w
      else w.(breaker := BlockReports(w.config, w.breaker, outcome, now), inFlight := w.inFlight - {id})
    case Reset => w.(breaker := Transition(w.breaker, Closed, 0.0))
  }

  function Run(w: World, es: seq<Event>): World {
    if es == [] then w else Step(Run(w, es[..|es| - 1]), es[|es| - 1])
  }

  // What a run's events say, without looking at the counters.

  predicate Succeeds(w: World, e: Event) {
    (e.Report? || e.Leave?) && e.id in w.inFlight && e.outcome == Returned
  }

  predicate Fails(w: World, e: Event) {
    || (e.Report? && e.id in w.inFlight && e.outcome == Raised)
    || (e.Leave? && e.id in w.inFlight && e.outcome != Returned)
  }

  /** The failures reported to a closed breaker since the last success, or since it last became closed. */
  function Streak(w: World, es: seq<Event>): nat {
    if es == [] then 0
    else
      var earlier, e := es[..|es| - 1], es[|es| - 1];
      var before := Run(w, earlier);
      if before.breaker.state != Closed || Succeeds(before, e) then 0
      else if Fails(before, e) then Streak(w, earlier) + 1
      else Streak(w, earlier)
  }

  /** How many calls had been admitted when the breaker entered its present state. */
  function Since(w: World, es: seq<Event>): nat {
    if es == [] then w.admitted
    else
      var earlier := es[..|es| - 1];
      var before := Run(w, earlier);
      if Run(w, es).breaker.state != before.breaker.state then before.admitted else Since(w, earlier)
  }

  function AtLeastOne(threshold: int): nat { if threshold < 1 then 1 else threshold }

  // -- Opening -------------------------------------------------------------------------------------------

  lemma StepState(w: World, e: Event)
    ensures Step(w, e).config == w.config
    ensures Succeeds(w, e) ==> Step(w, e).breaker == OnSuccess(w.breaker)
    ensures Fails(w, e) ==> Step(w, e).breaker == OnFailure(w.config, w.breaker, e.now)
    ensures w.breaker.state == Closed && !Succeeds(w, e) && !Fails(w, e) ==> Step(w, e).breaker == w.breaker
  {
  }

  lemma {:induction false} StreakIsCounted(c: Config, es: seq<Event>)
    ensures var w := Run(Start(c), es);
            w.config == c &&
            (w.breaker.state == Closed ==>
                w.breaker.failureCount == Streak(Start(c), es) < AtLeastOne(c.failureThreshold))
    decreases |es|
  {
    if es != [] {
      var before := Run(Start(c), es[..|es| - 1]);
      StreakIsCounted(c, es[..|es| - 1]);
      StepState(before, es[|es| - 1]);
    }
  }

  /** In every run a closed breaker opens at exactly one kind of event: the report of the failure that is the
      `failure_threshold`-th (at least the first) since the last success or since it closed. */
  lemma OpensAtThreshold(c: Config, es: seq<Event>, e: Event)
    requires Run(Start(c), es).breaker.state == Closed
    ensures var w := Run(Start(c), es);
            && Step(w, e).breaker.state != HalfOpen
            && (Step(w, e).breaker.state == Open <==>
                Fails(w, e) && Streak(Start(c), es) + 1 == AtLeastOne(c.failureThreshold))
  {
    StreakIsCounted(c, es);
    StepState(Run(Start(c), es), e);
  }

  // -- While open ----------------------------------------------------------------------------------------

  /** Nothing happens at or past `until`, and nobody resets the breaker. */
  predicate AllBefore(es: seq<Event>, until: real) {
    forall i | 0 <= i < |es| :: !es[i].Reset? && es[i].now < until
  }

  lemma {:induction false} OpenRun(w: World, es: seq<Event>)
    requires w.breaker.state == Open && AllBefore(es, w.breaker.openedAt + w.config.recoveryTimeout)
    ensures var w1 := Run(w, es);
            w1.breaker.state == Open && w1.breaker.openedAt == w.breaker.openedAt && w1.admitted == w.admitted
            && w1.config == w.config
    decreases |es|
  {
    if es != [] {
      OpenRun(w, es[..|es| - 1]);
    }
  }

  /** From the report that opens the breaker, whatever reports follow late: no call is admitted for
      `recovery_timeout`, and the first one asking after that is, if probes are allowed at all. */
  lemma ShutForRecovery(w: World, e: Event, es: seq<Event>, now: real)
    requires w.breaker.state != Open && Step(w, e).breaker.state == Open
    requires AllBefore(es, e.now + w.config.recoveryTimeout)
    ensures Run(Step(w, e), es).admitted == w.admitted && Run(Step(w, e), es).breaker.state == Open
    ensures Step(Run(Step(w, e), es), Enter(now)).admitted == w.admitted + 1 <==>
              now >= e.now + w.config.recoveryTimeout && w.config.halfOpenMaxCalls >= 1
  {
    assert Step(w, e).breaker.openedAt == e.now;
    OpenRun(Step(w, e), es);
  }

  // -- While half-open -----------------------------------------------------------------------------------

  lemma {:induction false} EpisodeIsCounted(c: Config, es: seq<Event>)
    ensures var w := Run(Start(c), es);
            && w.config == c && Since(Start(c), es) <= w.admitted
            && (w.breaker.state == HalfOpen ==>
                  w.breaker.halfOpenCalls == w.admitted - Since(Start(c), es)
                  && w.breaker.halfOpenCalls <= if c.halfOpenMaxCalls < 0 then 0 else c.halfOpenMaxCalls)
    decreases |es|
  {
    if es != [] {
      EpisodeIsCounted(c, es[..|es| - 1]);
    }
  }

  /** In every run, every half-open episode admits at most `half_open_max_calls` calls, late reports of
      earlier calls or not; and it admits the next one exactly while there were fewer. */
  lemma ProbesAreBounded(c: Config, es: seq<Event>, now: real)
    requires Run(Start(c), es).breaker.state == HalfOpen
    ensures var w := Run(Start(c), es);
            var probes := w.admitted - Since(Start(c), es);
            && probes <= (if c.halfOpenMaxCalls < 0 then 0 else c.halfOpenMaxCalls)
            && (Step(w, Enter(now)).admitted == w.admitted + 1 <==> probes < c.halfOpenMaxCalls)
  {
    EpisodeIsCounted(c, es);
  }

  /** What takes a breaker out of half-open, in any such state, full or not, by a probe or by a call admitted
      before: a failure reported by a call in flight reopens it from that time, a success closes it with no
      failures counted, `reset` closes it, and nothing else moves it. A cancelled `call` is no report, a
      cancelled block a failure. */
  lemma HalfOpenEndsExactly(w: World, e: Event)
    requires w.breaker.state == HalfOpen
    ensures var b := Step(w, e).breaker;
            var mine := (e.Report? || e.Leave?) && e.id in w.inFlight;
            var fails := mine && (e.outcome == Raised || (e.Leave? && e.outcome == Cancelled));
            var succeeds := mine && e.outcome == Returned;
            && (b.state == Open <==> fails) && (b.state == Closed <==> succeeds || e.Reset?)
            && (fails ==> b.openedAt == e.now)
            && (b.state == Closed ==> b.failureCount == 0)
  {
  }

  /** What takes it out of open: someone looking or asking once the timeout has passed, or `reset`; until then
      no report moves the time it opened at. */
  lemma OpenEndsExactly(w: World, e: Event)
    requires w.breaker.state == Open
    ensures var b := Step(w, e).breaker;
            var waited := (e.Look? || e.Enter?) && e.now - w.breaker.openedAt >= w.config.recoveryTimeout;
            && (b.state == HalfOpen <==> waited) && (b.state == Closed <==> e.Reset?)
            && (b.state == Open ==> b.openedAt == w.breaker.openedAt)
            && (b.state == Closed ==> b.failureCount == 0)
  {
  }

  /** Whom the breaker admits, in every state; an admitted call is in flight under a new number, a rejected one
      changes nothing but what looking at the state changes. */
  lemma AdmitsExactly(w: World, now: real)
    ensures var w1 := Step(w, Enter(now));
            var c, b := w.config, w.breaker;
            var admitted := match b.state
              case Closed => true
              case Open => now - b.openedAt >= c.recoveryTimeout && c.halfOpenMaxCalls >= 1
              case HalfOpen => b.halfOpenCalls < c.halfOpenMaxCalls;
            && w1.admitted == (if admitted then w.admitted + 1 else w.admitted)
            && w1.inFlight == (if admitted then w.inFlight + {w.admitted} else w.inFlight)
            && (!admitted ==> w1 == Step(w, Look(now)))
            && (b.state == Closed ==> w1.breaker == b)
  {
  }

  /** A report ends its call, and one for a call that is not in flight does nothing. */
  lemma ReportsEndCalls(w: World, e: Event)
    requires e.Report? || e.Leave?
    ensures e.id in w.inFlight ==> Step(w, e).inFlight == w.inFlight - {e.id} && Step(w, e).admitted == w.admitted
    ensures e.id !in w.inFlight ==> Step(w, e) == w
    ensures e.Report? && e.outcome == Cancelled ==> Step(w, e).breaker == w.breaker
  {
  }

  /** Every admitted call ends with a report: none is cancelled inside `call`. */
  predicate AllReported(es: seq<Event>) {
    forall i | 0 <= i < |es| :: !(es[i].Report? && es[i].outcome == Cancelled)
  }

  lemma {:induction false} ProbesInFlight(c: Config, es: seq<Event>, id: nat)
    requires AllReported(es)
    requires Run(Start(c), es).breaker.state == HalfOpen
    requires Since(Start(c), es) <= id < Run(Start(c), es).admitted
    ensures id in Run(Start(c), es).inFlight
    decreases |es|
  {
    if es != [] {
      var earlier := es[..|es| - 1];
      var before := Run(Start(c), earlier);
      EpisodeIsCounted(c, earlier);
      if before.breaker.state == HalfOpen && id < before.admitted {
        ProbesInFlight(c, earlier, id);
      }
    }
  }

  predicate Full(w: World) { w.breaker.state == HalfOpen && w.breaker.halfOpenCalls >= w.config.halfOpenMaxCalls }

  /** When every admission is reported, a full half-open breaker has one of its own probes in flight, whose
      report moves it on either way. */
  lemma FullMovesOn(c: Config, es: seq<Event>, now: real) returns (probe: nat)
    requires AllReported(es) && c.halfOpenMaxCalls >= 1 && Full(Run(Start(c), es))
    ensures var w := Run(Start(c), es);
            && Since(Start(c), es) <= probe && probe in w.inFlight
            && Step(w, Report(probe, Returned, now)).breaker.state == Closed
            && Step(w, Report(probe, Raised, now)).breaker.state == Open
            && Step(w, Leave(probe, Cancelled, now)).breaker.state == Open
  {
    EpisodeIsCounted(c, es);
    probe := Since(Start(c), es);
    ProbesInFlight(c, es, probe);
  }

  predicate NoReset(es: seq<Event>) { forall i | 0 <= i < |es| :: !es[i].Reset? }

  lemma {:induction false} StuckRun(w: World, es: seq<Event>)
    requires Full(w) && w.inFlight == {} && NoReset(es)
    ensures Run(w, es) == w
    decreases |es|
  {
    if es != [] { StuckRun(w, es[..|es| - 1]); }
  }

  ghost predicate CanMoveOn(w: World) { exists es :: NoReset(es) && Run(w, es).breaker.state != HalfOpen }

  /** A full half-open breaker can ever leave that state without a reset exactly while some call is in
      flight; after that it turns every call away for good. */
  lemma StuckIsExact(w: World)
    requires Full(w)
    ensures CanMoveOn(w) <==> w.inFlight != {}
    ensures w.inFlight == {} ==> forall es, now | NoReset(es) :: Step(Run(w, es), Enter(now)).admitted == w.admitted
  {
    forall es | NoReset(es) && w.inFlight == {} ensures Run(w, es) == w { StuckRun(w, es); }
    assert (forall id :: id !in w.inFlight) ==> w.inFlight == {};
    if w.inFlight != {} {
      var id :| id in w.inFlight;
      var es := [Report(id, Returned, 0.0)];
      assert es[..0] == [];
      assert Run(w, es) == Step(w, es[0]);
      assert NoReset(es);
    }
  }

  // -- Cancelled probes ------------------------------------------------------------------------------------

  /** Probes admitted one after the other, each cancelled inside `call` before the next. */
  function CancelledProbes(first: nat, n: nat, now: real): seq<Event> {
    if n == 0 then [] else CancelledProbes(first, n - 1, now) + [Enter(now), Report(first + n - 1, Cancelled, now)]
  }

  lemma RunTwo(w: World, es: seq<Event>, e: Event, e1: Event)
    ensures Run(w, es + [e, e1]) == Step(Step(Run(w, es), e), e1)
  {
    var all := es + [e, e1];
    assert all[..|all| - 1] == es + [e] && all[|all| - 1] == e1;
    assert (es + [e])[..|es|] == es;
  }

  lemma OneProbe(w: World, now: real)
    requires w.breaker.state == HalfOpen && w.inFlight == {} && w.breaker.halfOpenCalls < w.config.halfOpenMaxCalls
    ensures Step(Step(w, Enter(now)), Report(w.admitted, Cancelled, now))
         == w.(breaker := w.breaker.(halfOpenCalls := w.breaker.halfOpenCalls + 1), admitted := w.admitted + 1)
  {
    assert {w.admitted} - {w.admitted} == {};
  }

  lemma OneMore(w: World, es: seq<Event>, w1: World, e: Event, e1: Event, w2: World)
    requires Run(w, es) == w1 && Step(Step(w1, e), e1) == w2
    ensures Run(w, es + [e, e1]) == w2
  {
    RunTwo(w, es, e, e1);
  }

  /** The world after n probes that nobody reported. */
  function Probed(w: World, n: nat): World {
    w.(breaker := w.breaker.(halfOpenCalls := n), admitted := w.admitted + n)
  }

  lemma {:induction false} ProbesCancelled(w: World, n: nat, now: real)
    requires w.breaker.state == HalfOpen && w.breaker.halfOpenCalls == 0 && w.inFlight == {}
    requires n <= w.config.halfOpenMaxCalls
    ensures Run(w, CancelledProbes(w.admitted, n, now)) == Probed(w, n)
  {
    if n > 0 {
      ProbesCancelled(w, n - 1, now);
      OneProbe(Probed(w, n - 1), now);
      OneMore(w, CancelledProbes(w.admitted, n - 1, now), Probed(w, n - 1), Enter(now),
              Report(w.admitted + n - 1, Cancelled, now), Probed(w, n));
    }
  }

  /** `call` does not report cancellation, so a half-open breaker whose probes are all cancelled rejects
      every call from then on; `async with` would have reopened it. */
  lemma CancelledProbesJam(w: World, now: real)
    requires w.breaker.state == HalfOpen && w.breaker.halfOpenCalls == 0 && w.inFlight == {}
    requires w.config.halfOpenMaxCalls >= 1
    ensures var w1 := Run(w, CancelledProbes(w.admitted, w.config.halfOpenMaxCalls, now));
            Full(w1) && !CanMoveOn(w1)
    ensures Step(Step(w, Enter(now)), Leave(w.admitted, Cancelled, now)).breaker.state == Open
  {
    ProbesCancelled(w, w.config.halfOpenMaxCalls, now);
    StuckIsExact(Run(w, CancelledProbes(w.admitted, w.config.halfOpenMaxCalls, now)));
  }

  // -- Reaching those states from a new breaker ---------------------------------------------------------

  lemma {:induction false} RunAppend(w: World, a: seq<Event>, b: seq<Event>)
    ensures Run(w, a + b) == Run(Run(w, a), b)
    decreases |b|
  {
    if b == [] {
      assert a + b == a;
    } else {
      assert (a + b)[..|a + b| - 1] == a + b[..|b| - 1];
      RunAppend(w, a, b[..|b| - 1]);
    }
  }

  lemma RunOne(w: World, e: Event)
    ensures Run(w, [e]) == Step(w, e)
  {
    assert [e][..0] == [];
  }

  /** Calls admitted one after the other, numbered from `first`, each raising before the next. */
  function Failures(first: nat, n: nat, now: real): seq<Event> {
    if n == 0 then [] else Failures(first, n - 1, now) + [Enter(now), Report(first + n - 1, Raised, now)]
  }

  lemma OneFailure(w: World, now: real)
    requires w.breaker.state == Closed && w.inFlight == {}
    ensures Step(Step(w, Enter(now)), Report(w.admitted, Raised, now))
         == w.(breaker := OnFailure(w.config, w.breaker, now), admitted := w.admitted + 1)
  {
    assert Step(w, Enter(now)) == w.(inFlight := {w.admitted}, admitted := w.admitted + 1);
    assert {w.admitted} - {w.admitted} == {};
  }

  /** The world after n failures that are only counted. */
  function Counted(w: World, n: nat): World {
    w.(breaker := w.breaker.(failureCount := w.breaker.failureCount + n), admitted := w.admitted + n)
  }

  lemma CountsOne(w: World, n: nat, now: real)
    requires w.breaker.state == Closed && w.inFlight == {}
    requires w.breaker.failureCount + n + 1 < AtLeastOne(w.config.failureThreshold)
    ensures Step(Step(Counted(w, n), Enter(now)), Report(w.admitted + n, Raised, now)) == Counted(w, n + 1)
  {
    OneFailure(Counted(w, n), now);
  }

  /** Below the threshold they are counted. */
  lemma {:induction false} FailuresCount(w: World, n: nat, now: real)
    requires w.breaker.state == Closed && w.inFlight == {}
    requires w.breaker.failureCount + n < AtLeastOne(w.config.failureThreshold)
    ensures Run(w, Failures(w.admitted, n, now)) == Counted(w, n)
  {
    if n > 0 {
      FailuresCount(w, n - 1, now);
      CountsOne(w, n - 1, now);
      OneMore(w, Failures(w.admitted, n - 1, now), Counted(w, n - 1), Enter(now),
              Report(w.admitted + n - 1, Raised, now), Counted(w, n));
    }
  }

  /** The world once the failure after n counted ones has opened the breaker. */
  function Tripped(w: World, n: nat, now: real): World {
    w.(breaker := Breaker(Open, w.breaker.failureCount + n + 1, now, 0), admitted := w.admitted + n + 1)
  }

  lemma TripsOne(w: World, n: nat, now: real)
    requires w.breaker.state == Closed && w.inFlight == {}
    requires w.breaker.failureCount + n + 1 == AtLeastOne(w.config.failureThreshold)
    ensures Step(Step(Counted(w, n), Enter(now)), Report(w.admitted + n, Raised, now)) == Tripped(w, n, now)
  {
    OneFailure(Counted(w, n), now);
  }

  /** The one that reaches it opens the breaker. */
  lemma FailuresOpen(w: World, n: nat, now: real)
    requires w.breaker.state == Closed && w.inFlight == {}
    requires w.breaker.failureCount + n + 1 == AtLeastOne(w.config.failureThreshold)
    ensures Run(w, Failures(w.admitted, n + 1, now)) == Tripped(w, n, now)
  {
    FailuresCount(w, n, now);
    TripsOne(w, n, now);
    OneMore(w, Failures(w.admitted, n, now), Counted(w, n), Enter(now), Report(w.admitted + n, Raised, now),
            Tripped(w, n, now));
  }

  lemma {:induction false} CancelledNoReset(first: nat, n: nat, now: real)
    ensures NoReset(CancelledProbes(first, n, now)) && NoReset(Failures(first, n, now))
  {
    if n > 0 { CancelledNoReset(first, n - 1, now); }
  }

  /** For every configuration that allows probes, a new breaker gets there: as many failures as open it, a
      look once the timeout has passed, and its probes cancelled. Then it rejects every call for good. */
  lemma JamFromStart(c: Config, now: real) returns (es: seq<Event>)
    requires c.halfOpenMaxCalls >= 1
    ensures NoReset(es) && Full(Run(Start(c), es)) && !CanMoveOn(Run(Start(c), es))
    ensures forall more, later | NoReset(more) ::
              Step(Run(Run(Start(c), es), more), Enter(later)).admitted == Run(Start(c), es).admitted
  {
    var n := AtLeastOne(c.failureThreshold);
    var later := if c.recoveryTimeout > 0.0 then now + c.recoveryTimeout else now;
    var opening := Failures(0, n, now);
    FailuresOpen(Start(c), n - 1, now);
    var shut := Run(Start(c), opening);
    var halfOpen := Step(shut, Look(later));
    var jam := CancelledProbes(halfOpen.admitted, c.halfOpenMaxCalls, later);
    es := opening + [Look(later)] + jam;
    RunOne(shut, Look(later));
    RunAppend(Start(c), opening, [Look(later)]);
    RunAppend(Start(c), opening + [Look(later)], jam);
    CancelledNoReset(0, n, now);
    CancelledNoReset(halfOpen.admitted, c.halfOpenMaxCalls, later);
    ProbesCancelled(halfOpen, c.halfOpenMaxCalls, later);
    StuckIsExact(Run(halfOpen, jam));
  }

  // -- reset ------------------------------------------------------------------------------------------------

  /** `reset` closes the breaker, and leaves a failure count of 0 exactly when it was not closed already, or
      had none: it does not touch a breaker that is already closed. */
  lemma ResetIsExact(w: World)
    ensures Step(w, Reset).breaker.state == Closed
    ensures Step(w, Reset).breaker.failureCount == 0 <==> w.breaker.state != Closed || w.breaker.failureCount == 0
    ensures Step(w, Reset) == w <==> w.breaker.state == Closed
  {
  }

  /** For every threshold above one: failures one short of it, a reset, and the next failure opens a new
      breaker all the same. */
  lemma ResetKeepsFailures(c: Config, now: real)
    requires c.failureThreshold >= 2
    ensures var es := Failures(0, c.failureThreshold - 1, now) + [Reset];
            var w := Run(Start(c), es);
            && w.breaker.state == Closed && w.breaker.failureCount == c.failureThreshold - 1
            && Run(w, Failures(w.admitted, 1, now)).breaker.state == Open
  {
    var before := Failures(0, c.failureThreshold - 1, now);
    FailuresCount(Start(c), c.failureThreshold - 1, now);
    RunAppend(Start(c), before, [Reset]);
    RunOne(Run(Start(c), before), Reset);
    FailuresOpen(Run(Start(c), before + [Reset]), 0, now);
  }

  /** And the failures counted since the last success or closing are the same before and after. */
  lemma ResetKeepsStreak(c: Config, es: seq<Event>)
    requires Run(Start(c), es).breaker.state == Closed
    ensures Step(Run(Start(c), es), Reset) == Run(Start(c), es)
    ensures Streak(Start(c), es + [Reset]) == Streak(Start(c), es)
  {
    assert (es + [Reset])[..|es|] == es;
  }
}
