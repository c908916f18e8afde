/** Snowflake worker ids across a pool: how each process gets one, and ids over the pool's whole life. */
module Worker {

  import opened Snowflake
  import opened Wrappers

  /** What one process has: the base id from its settings, whether ids were configured here, and the
      process-wide generator. */
  datatype Process = Process(base: Option<nat>, configured: bool, generator: Option<State>)

  /** `_ensure_snowflake`, in the process with this pool index. */
  function EnsureSnowflake(p: Process, index: nat, epoch: int): (Process, Option<Failure>) {
    if p.base.None? || p.configured then (p, None)
    else match NewGenerator(p.base.value + index, epoch)
      case Ok(g) => (p.(generator := Some(g), configured := true), None)
      case Err(_) => (p.(generator := None), Some(RuntimeError))
  }

  /** Ids are configured here exactly if there is a base id, they were not yet, and the worker id is in range:
      then the process has its own generator. Without a base id, or when they were, nothing changes; out of
      range the generator is gone and it raises. */
  lemma ConfiguresExactly(p: Process, index: nat, epoch: int)
    ensures var (p1, raised) := EnsureSnowflake(p, index, epoch);
            && p1.base == p.base
            && (p.base.None? || p.configured ==> p1 == p && raised == None)
            && (p.base.Some? && !p.configured ==>
                  if p.base.value + index <= 1023
                  then
                    && p1.configured && raised == None
                    && p1.generator == Some(State(p.base.value + index, epoch, -1, 0))
                  else !p1.configured && raised == Some(RuntimeError) && p1.generator == None)
  {
    Powers();
  }

  /** `new_snowflake_id`. */
  function NewId(p: Process, readings: seq<int>): (Process, Result<Option<int>, Failure>) {
    match p.generator
    case None => (p, Err(RuntimeError))
    case Some(g) =>
      var (g1, id, _) := NextId(g, readings);
      (p.(generator := Some(g1)), Ok(id))
  }

  /** A process without a generator makes no id, and raises. */
  lemma NoGeneratorNoId(p: Process, readings: seq<int>)
    ensures NewId(p, readings).1.Err? <==> p.generator.None?
    ensures p.generator.None? ==> NewId(p, readings) == (p, Err(RuntimeError))
  {
  }

  class WorkerProcess {
    var base: Option<nat>
    var configured: bool
    var generator: Option<State>

    function Contents(): Process
      reads this
    {
      Process(base, configured, generator)
    }

    method EnsureSnowflakeId(index: nat, epoch: int) returns (raised: Option<Failure>)
      modifies this
      ensures (Contents(), raised) == EnsureSnowflake(old(Contents()), index, epoch)
    {
      if base.None? || configured { return None; }
      var workerId := base.value + index;
      if workerId > MAX_WORKER_ID {
        generator := None;
        return Some(RuntimeError);
      }
      generator := Some(State(workerId, epoch, -1, 0));
      configured := true;
      raised := None;
    }
  }

  /** `_on_after_setup`: whether start-up logs that the pool is too wide. */
  function WarnsTooWide(base: Option<nat>, autoscaleMax: Option<nat>, concurrency: nat): bool {
    base.Some? && base.value + (if autoscaleMax.Some? then autoscaleMax.value else concurrency) - 1 > MAX_WORKER_ID
  }

  /** The start-up warning is exact: it is logged precisely when some index of the pool will be refused. */
  lemma WarningIsExact(base: nat, autoscaleMax: Option<nat>, concurrency: nat, epoch: int)
    requires (if autoscaleMax.Some? then autoscaleMax.value else concurrency) >= 1
    ensures var width := if autoscaleMax.Some? then autoscaleMax.value else concurrency;
            WarnsTooWide(Some(base), autoscaleMax, concurrency) <==>
              exists index: nat ::
                index < width && EnsureSnowflake(Process(Some(base), false, None), index, epoch).1.Some?
  {
    var width := if autoscaleMax.Some? then autoscaleMax.value else concurrency;
    var last := width - 1;
    if WarnsTooWide(Some(base), autoscaleMax, concurrency) {
      assert EnsureSnowflake(Process(Some(base), false, None), last, epoch).1.Some?;
    }
  }

  // -- The pool over time ---------------------------------------------------------------------

  /** An id that was made, with the generator state it stands for. */
  datatype Issued = Issued(index: nat, state: State)

  datatype Fleet = Fleet(base: nat, epoch: int, live: map<nat, Process>, issued: seq<Issued>)

  datatype Event =
    | Spawn(index: nat, inherited: Process)   // a child starts with what its parent left it
    | Make(index: nat, readings: seq<int>)    // it makes an id
    | Exit(index: nat)

  function Step(f: Fleet, e: Event): Fleet {
    match e
    case Spawn(index, inherited) =>
      if index in f.live then f
      else f.(live := f.live[index := EnsureSnowflake(inherited.(base := Some(f.base)), index, f.epoch).0])
    case Make(index, readings) =>
      if index !in f.live then f
      else
        var (p, made) := NewId(f.live[index], readings);
        var f1 := f.(live := f.live[index := p]);
        if made.Ok? && made.value.Some? then f1.(issued := f1.issued + [Issued(index, p.generator.value)]) else f1
    case Exit(index) => f.(live := f.live - {index})
  }

  function Run(f: Fleet, es: seq<Event>): Fleet
    decreases |es|
  {
    if es == [] then f else Run(Step(f, es[0]), es[1..])
  }

  predicate IsFresh(g: State) { g.last == -1 && g.sequence == 0 }

  /** A child starts unconfigured, no call is cut off, and a new process reusing an index first reads a
      clock past its predecessors' last millisecond. */
  predicate Proper(f: Fleet, e: Event) {
    match e
    case Spawn(_, inherited) => !inherited.configured
    case Make(index, readings) =>
      index in f.live && f.live[index].generator.Some? ==>
        var g := f.live[index].generator.value;
        && readings != [] && NextId(g, readings).1.Some?
        && (IsFresh(g) ==> forall k | 0 <= k < |f.issued| && f.issued[k].index == index ::
                          f.issued[k].state.last < readings[0])
    case Exit(_) => true
  }

  predicate ProperRun(f: Fleet, es: seq<Event>)
    decreases |es|
  {
    es == [] || (Proper(f, es[0]) && ProperRun(Step(f, es[0]), es[1..]))
  }

  predicate Owned(f: Fleet, index: nat, g: State) {
    g.workerId == f.base + index && g.epoch == f.epoch && Sane(g)
  }

  predicate Orderly(f: Fleet) {
    && (forall k | 0 <= k < |f.issued| ::
          Owned(f, f.issued[k].index, f.issued[k].state) && f.issued[k].state.last >= -1)
    && (forall i, j | 0 <= i < j < |f.issued| && f.issued[i].index == f.issued[j].index ::
          Id(f.issued[i].state) < Id(f.issued[j].state))
    && (forall index | index in f.live && f.live[index].generator.Some? ::
          var g := f.live[index].generator.value;
          && Owned(f, index, g) && g.last >= -1
          && (IsFresh(g) || forall k | 0 <= k < |f.issued| && f.issued[k].index == index ::
                          Id(f.issued[k].state) <= Id(g)))
  }

  lemma MakeOrderly(f: Fleet, index: nat, readings: seq<int>)
    requires Orderly(f) && Proper(f, Make(index, readings))
    ensures Orderly(Step(f, Make(index, readings)))
  {
    if index in f.live && f.live[index].generator.Some? {
      MadeIsNew(f, index, readings);
    }
  }

  /** The id is larger than all that were made at this index before. */
  lemma MadeIsNew(f: Fleet, index: nat, readings: seq<int>)
    requires Orderly(f) && Proper(f, Make(index, readings)) && index in f.live && f.live[index].generator.Some?
    ensures var g1 := NextId(f.live[index].generator.value, readings).0;
            && Owned(f, index, g1) && g1.last >= -1 && !IsFresh(g1)
            && forall k | 0 <= k < |f.issued| && f.issued[k].index == index :: Id(f.issued[k].state) < Id(g1)
  {
    var g := f.live[index].generator.value;
    var g1 := NextId(g, readings).0;
    NextIdGrows(g, readings);
    LastGrows(g, readings);
    forall k | 0 <= k < |f.issued| && f.issued[k].index == index ensures Id(f.issued[k].state) < Id(g1) {
      if IsFresh(g) { LayoutOrder(f.epoch, f.issued[k].state, g1); }
    }
  }

  lemma LastGrows(g: State, readings: seq<int>)
    requires Sane(g) && g.last >= -1 && readings != [] && NextId(g, readings).1.Some?
    ensures var g1 := NextId(g, readings).0;
            g1.last >= g.last && !IsFresh(g1) && (readings[0] > g.last ==> g1.last == readings[0])
  {
    NextIdCases(g, readings);
    if !(readings[0] > g.last) && g.sequence == MAX_SEQUENCE { PastGreater(g.last, readings[1..]); }
  }

  lemma SpawnOrderly(f: Fleet, index: nat, inherited: Process)
    requires Orderly(f) && !inherited.configured
    ensures Orderly(Step(f, Spawn(index, inherited)))
  {
    SpawnedIsFresh(f, index, inherited);
  }

  lemma SpawnedIsFresh(f: Fleet, index: nat, inherited: Process)
    requires !inherited.configured
    ensures var p := EnsureSnowflake(inherited.(base := Some(f.base)), index, f.epoch).0;
            p.generator.Some? ==> Owned(f, index, p.generator.value) && IsFresh(p.generator.value)
  {
  }

  lemma StepOrderly(f: Fleet, e: Event)
    requires Orderly(f) && Proper(f, e)
    ensures Orderly(Step(f, e))
  {
    match e
    case Spawn(index, inherited) => SpawnOrderly(f, index, inherited);
    case Make(index, readings) => MakeOrderly(f, index, readings);
    case Exit(_) =>
  }

  lemma {:induction false} RunOrderly(f: Fleet, es: seq<Event>)
    requires Orderly(f) && ProperRun(f, es)
    ensures Orderly(Run(f, es))
    decreases |es|
  {
    if es != [] {
      StepOrderly(f, es[0]);
      RunOrderly(Step(f, es[0]), es[1..]);
    }
  }

  lemma WorkersDiffer(a: State, b: State)
    requires Sane(a) && Sane(b) && a.epoch == b.epoch && a.workerId != b.workerId
    ensures Id(a) != Id(b)
  {
    LayoutDecodes(a.last, a.epoch, a.workerId, a.sequence);
    LayoutDecodes(b.last, b.epoch, b.workerId, b.sequence);
  }

  /** Over the whole life of a pool, with processes dying and being replaced at the same index, no id is
      ever made twice; a process whose worker id would be out of range makes none. */
  lemma PoolIdsAreUnique(base: nat, epoch: int, es: seq<Event>, i: nat, j: nat)
    requires ProperRun(Fleet(base, epoch, map[], []), es)
    requires var made := Run(Fleet(base, epoch, map[], []), es).issued; i < j < |made|
    ensures var made := Run(Fleet(base, epoch, map[], []), es).issued;
            && Id(made[i].state) != Id(made[j].state)
            && base + made[i].index <= MAX_WORKER_ID
  {
    RunOrderly(Fleet(base, epoch, map[], []), es);
    FleetStays(Fleet(base, epoch, map[], []), es);
    var made := Run(Fleet(base, epoch, map[], []), es).issued;
    if made[i].index != made[j].index { WorkersDiffer(made[i].state, made[j].state); }
  }

  lemma {:induction false} FleetStays(f: Fleet, es: seq<Event>)
    ensures Run(f, es).base == f.base && Run(f, es).epoch == f.epoch
    decreases |es|
  {
    if es != [] { FleetStays(Step(f, es[0]), es[1..]); }
  }

  /** A child gets its own worker id exactly when it did not inherit the configured flag: with it, it keeps
      its parent's generator, however much that was used, and the two give the same answer at the same
      clock reading. */
  lemma InheritedFlagCollides(base: nat, epoch: int, parent: Process, index: nat, now: int)
    requires parent.base == Some(base) && parent.generator.Some?
    requires var g := parent.generator.value; g.workerId == base && g.epoch == epoch && Sane(g)
    requires index > 0 && base + index <= MAX_WORKER_ID
    ensures var child := EnsureSnowflake(parent, index, epoch).0;
            && (child.generator.value.workerId == base + index <==> !parent.configured)
            && (NewId(child, [now]).1 == NewId(parent, [now]).1 <==> parent.configured)
  {
    var child := EnsureSnowflake(parent, index, epoch).0;
    var g, h := parent.generator.value, child.generator.value;
    if !parent.configured {
      Powers();
      NextIdCases(h, [now]);
      NextIdCases(g, [now]);
      assert [now][1..] == [];
      NextIdGrows(h, [now]);
      if NextId(g, [now]).1.Some? {
        NextIdGrows(g, [now]);
        WorkersDiffer(NextId(g, [now]).0, NextId(h, [now]).0);
      }
    }
  }

  /** And the condition on replacements is needed: one whose first reading is that of its predecessor's
      first id makes that id again. */
  lemma EarlyReplacementRepeats(base: nat, epoch: int, index: nat, now: int)
    requires base + index <= MAX_WORKER_ID
    ensures var blank := Process(None, false, None);
            var f := Fleet(base, epoch, map[], []);
            var once := Step(Step(f, Spawn(index, blank)), Make(index, [now]));
            var twice := Step(Step(Step(once, Exit(index)), Spawn(index, blank)), Make(index, [now]));
            |twice.issued| == 2 && Id(twice.issued[0].state) == Id(twice.issued[1].state)
  {
    var g := State(base + index, epoch, -1, 0);
    Powers();
    NextIdCases(g, [now]);
  }
}
