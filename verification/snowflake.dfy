/** Snowflake ids: one process's generator against an arbitrary clock, backward steps included. A call is
    given the clock readings it will take, in order; when they run out while it waits, it is cut off. */
module Snowflake {

  import opened Bits
  import opened Wrappers

  const WORKER_BITS: nat := 10
  const SEQUENCE_BITS: nat := 12
  const MAX_WORKER_ID := Shl(1, WORKER_BITS) - 1
  const MAX_SEQUENCE := Shl(1, SEQUENCE_BITS) - 1
  const TIMESTAMP_SHIFT := WORKER_BITS + SEQUENCE_BITS

  lemma Powers()
    ensures Pow2(WORKER_BITS) == 0x400 && Pow2(SEQUENCE_BITS) == 0x1000 && Pow2(TIMESTAMP_SHIFT) == 0x40_0000
    ensures MAX_WORKER_ID == 1023 && MAX_SEQUENCE == 4095
  {
    assert Pow2(5) == 32;
    assert Pow2(10) == 32 * Pow2(5);
    assert Pow2(15) == 32 * Pow2(10);
    assert Pow2(20) == 32 * Pow2(15);
  }

  /** `last` is `_last_ms`. */
  datatype State = State(workerId: int, epoch: int, last: int, sequence: int)

  datatype Failure = ValueError | RuntimeError

  predicate IsWorkerId(workerId: int) { 0 <= workerId <= MAX_WORKER_ID }

  /** `SnowflakeGenerator(worker_id, epoch_ms=epoch)`. */
  function NewGenerator(workerId: int, epoch: int): Result<State, Failure> {
    if IsWorkerId(workerId) then Ok(State(workerId, epoch, -1, 0)) else Err(ValueError)
  }

  /** A generator is made exactly for worker ids that fit their ten bits; it has issued nothing yet. */
  lemma MadeExactly(workerId: int, epoch: int)
    ensures var made := NewGenerator(workerId, epoch);
            && (made.Ok? <==> 0 <= workerId < 1024)
            && made == if made.Ok? then Ok(State(workerId, epoch, -1, 0)) else Err(ValueError)
  {
    Powers();
  }

  // -- The id layout --------------------------------------------------------------------------

  function Layout(now: int, epoch: int, workerId: int, sequence: int): int {
    BitOr(BitOr(Shl(now - epoch, TIMESTAMP_SHIFT), Shl(workerId, SEQUENCE_BITS)), sequence)
  }

  /** `snowflake_timestamp_ms`. */
  function TimestampMs(id: int, epoch: int): int { Shr(id, TIMESTAMP_SHIFT) + epoch }

  predicate InLayout(workerId: int, sequence: int) { IsWorkerId(workerId) && 0 <= sequence <= MAX_SEQUENCE }

  lemma LayoutIsSum(now: int, epoch: int, workerId: int, sequence: int)
    requires InLayout(workerId, sequence)
    ensures Layout(now, epoch, workerId, sequence) == (now - epoch) * 0x40_0000 + workerId * 0x1000 + sequence
  {
    Powers();
    var t := now - epoch;
    var low := Shl(workerId, SEQUENCE_BITS);
    assert low == workerId * 0x1000 && 0 <= low < 0x40_0000;
    OrDisjoint(t, TIMESTAMP_SHIFT, low);
    var high := t * 0x400 + workerId;
    assert Shl(high, SEQUENCE_BITS) == t * 0x40_0000 + low;
    OrDisjoint(high, SEQUENCE_BITS, sequence);
  }

  /** The shifted-or layout loses nothing: time, worker and sequence read back, for times before the epoch
      as well; and the id is a non-negative 63-bit number exactly while the offset fits 41 bits. */
  lemma LayoutDecodes(now: int, epoch: int, workerId: int, sequence: int)
    requires InLayout(workerId, sequence)
    ensures var id := Layout(now, epoch, workerId, sequence);
            && TimestampMs(id, epoch) == now
            && BitAnd(Shr(id, SEQUENCE_BITS), MAX_WORKER_ID) == workerId
            && BitAnd(id, MAX_SEQUENCE) == sequence
            && (0 <= id < 0x8000_0000_0000_0000 <==> 0 <= now - epoch < 0x200_0000_0000)
  {
    Powers();
    LayoutIsSum(now, epoch, workerId, sequence);
    var t, id := now - epoch, Layout(now, epoch, workerId, sequence);
    assert id == t * 0x40_0000 + (workerId * 0x1000 + sequence);
    DivModUnique(id, 0x40_0000, t, workerId * 0x1000 + sequence);
    assert id == (t * 0x400 + workerId) * 0x1000 + sequence;
    DivModUnique(id, 0x1000, t * 0x400 + workerId, sequence);
    DivModUnique(t * 0x400 + workerId, 0x400, t, workerId);
    AndMask(id, SEQUENCE_BITS);
    AndMask(Shr(id, SEQUENCE_BITS), WORKER_BITS);
  }

  /** Ids are ordered by time, then worker, then sequence. */
  lemma LayoutOrder(epoch: int, a: State, b: State)
    requires a.epoch == b.epoch == epoch && a.workerId == b.workerId
    requires InLayout(a.workerId, a.sequence) && InLayout(b.workerId, b.sequence)
    ensures Id(a) < Id(b) <==> a.last < b.last || (a.last == b.last && a.sequence < b.sequence)
  {
    Powers();
    LayoutIsSum(a.last, epoch, a.workerId, a.sequence);
    LayoutIsSum(b.last, epoch, b.workerId, b.sequence);
  }

  function Id(st: State): int { Layout(st.last, st.epoch, st.workerId, st.sequence) }

  // -- One call ---------------------------------------------------------------------------------

  function Max(a: int, b: int): int { if a >= b then a else b }

  /** `_wait_next_ms`: the first reading past `last`, and how many readings it took. */
  function FirstPast(last: int, readings: seq<int>): Option<(int, nat)>
    decreases |readings|
  {
    if readings == [] then None
    else if readings[0] > last then Some((readings[0], 1))
    else match FirstPast(last, readings[1..])
      case None => None
      case Some((now, used)) => Some((now, used + 1))
  }

  /** `next_id`. The answer is the new state, the id unless the call was cut off while waiting, and the
      number of readings taken. */
  function NextId(st: State, readings: seq<int>): (State, Option<int>, nat) {
    if readings == [] then (st, None, 0)
    else
      var now := Max(readings[0], st.last);
      if now > st.last then Issue(st.(last := now, sequence := 0), 1)
      else
        var sequence := BitAnd(st.sequence + 1, MAX_SEQUENCE);
        if sequence != 0 then Issue(st.(sequence := sequence), 1)
        else match FirstPast(st.last, readings[1..])
          case None => (st.(sequence := 0), None, |readings|)
          case Some((later, used)) => Issue(st.(last := later, sequence := 0), used + 1)
  }

  function Issue(st: State, used: nat): (State, Option<int>, nat) { (st, Some(Id(st)), used) }

  class SnowflakeGenerator {
    const workerId: int
    const epoch: int
    var last: int
    var sequence: int

    function Contents(): State
      reads this
    {
      State(workerId, epoch, last, sequence)
    }

    constructor (workerId: int, epoch: int)
      requires IsWorkerId(workerId)
      ensures Ok(Contents()) == NewGenerator(workerId, epoch)
    {
      this.workerId, this.epoch := workerId, epoch;
      last, sequence := -1, 0;
    }

    /** `next_id`, under the lock. */
    method NextIdLocked(readings: seq<int>) returns (id: Option<int>, used: nat)
      modifies this
      ensures (Contents(), id, used) == NextId(old(Contents()), readings)
    {
      if readings == [] { return None, 0; }
      var now := readings[0];
      used := 1;
      if now < last {
        now := last;
      }
      if now == last {
        sequence := BitAnd(sequence + 1, MAX_SEQUENCE);
        if sequence == 0 {
          var waited, more := WaitNextMs(last, readings[1..]);
          if waited.None? { return None, |readings|; }
          now, used := waited.value, more + 1;
        }
      } else {
        sequence := 0;
      }
      last := now;
      id := Some(BitOr(BitOr(Shl(now - epoch, TIMESTAMP_SHIFT), Shl(workerId, SEQUENCE_BITS)), sequence));
    }

    /** The loop of `_wait_next_ms`, which keeps the largest reading so far. */
    method WaitNextMs(last: int, readings: seq<int>) returns (waited: Option<int>, used: nat)
      ensures FirstPast(last, readings) == if waited.Some? then Some((waited.value, used)) else None
      ensures waited.None? <==> forall i | 0 <= i < |readings| :: readings[i] <= last
      ensures waited.Some? ==> 1 <= used <= |readings| && waited.value == readings[used - 1] > last
      ensures waited.Some? ==> forall i | 0 <= i < used - 1 :: readings[i] <= last
    {
      if readings == [] { return None, 0; }
      var now := readings[0];
      used := 1;
      while now <= last
        invariant 1 <= used <= |readings|
        invariant forall i | 0 <= i < used - 1 :: readings[i] <= last
        invariant if now <= last then readings[used - 1] <= last else now == readings[used - 1]
        decreases |readings| - used
      {
        if used == |readings| {
          PastAt(last, readings, used);
          return None, used;
        }
        now := Max(readings[used], now);
        used := used + 1;
      }
      PastAt(last, readings, used - 1);
      waited := Some(now);
    }
  }

  lemma {:induction false} PastAt(last: int, readings: seq<int>, n: nat)
    requires n <= |readings| && forall i | 0 <= i < n :: readings[i] <= last
    ensures n == |readings| ==> FirstPast(last, readings) == None
    ensures n < |readings| && readings[n] > last ==> FirstPast(last, readings) == Some((readings[n], n + 1))
    decreases n
  {
    if n > 0 {
      assert forall i | 0 <= i < n - 1 :: readings[1..][i] == readings[i + 1];
      PastAt(last, readings[1..], n - 1);
    }
  }

  // -- Runs of one generator ---------------------------------------------------------------------

  /** The readings of each call in turn. */
  type Calls = seq<seq<int>>

  function After(st: State, calls: Calls): State
    decreases |calls|
  {
    if calls == [] then st else After(NextId(st, calls[0]).0, calls[1..])
  }

  /** No call is cut off, and each is given just the readings it takes. */
  predicate Completes(st: State, calls: Calls)
    decreases |calls|
  {
    calls == [] ||
    (var (st1, id, used) := NextId(st, calls[0]);
     id.Some? && used == |calls[0]| && Completes(st1, calls[1..]))
  }

  function Ids(st: State, calls: Calls): seq<int>
    requires Completes(st, calls)
    decreases |calls|
  {
    if calls == [] then [] else
      var (st1, id, _) := NextId(st, calls[0]);
      [id.value] + Ids(st1, calls[1..])
  }

  function MaxOf(start: int, readings: seq<int>): int
    decreases |readings|
  {
    if readings == [] then start else MaxOf(Max(start, readings[0]), readings[1..])
  }

  function AllReadings(calls: Calls): seq<int> { if calls == [] then [] else calls[0] + AllReadings(calls[1..]) }

  predicate Sane(st: State) { InLayout(st.workerId, st.sequence) }

  lemma {:induction false} FirstPastIsMax(last: int, readings: seq<int>)
    requires FirstPast(last, readings).Some? && FirstPast(last, readings).value.1 == |readings|
    ensures MaxOf(last, readings) == FirstPast(last, readings).value.0 > last
  {
    if readings[0] <= last {
      FirstPastIsMax(last, readings[1..]);
    } else {
      assert readings[1..] == [];
    }
  }

  lemma NextSequence(sequence: int)
    requires 0 <= sequence <= MAX_SEQUENCE
    ensures BitAnd(sequence + 1, MAX_SEQUENCE) == if sequence == MAX_SEQUENCE then 0 else sequence + 1
  {
    assert MAX_SEQUENCE == Pow2(SEQUENCE_BITS) - 1;
    MaskWraps(sequence + 1, SEQUENCE_BITS);
  }

  /** The three ways a call goes. */
  lemma NextIdCases(st: State, readings: seq<int>)
    requires Sane(st) && readings != []
    ensures var (st1, id, used) := NextId(st, readings);
            if readings[0] > st.last then
              st1 == st.(last := readings[0], sequence := 0) && id == Some(Id(st1)) && used == 1
            else if st.sequence < MAX_SEQUENCE then
              st1 == st.(sequence := st.sequence + 1) && id == Some(Id(st1)) && used == 1
            else
              var past := FirstPast(st.last, readings[1..]);
              && (past.None? ==> id == None && st1 == st.(sequence := 0))
              && (past.Some? ==> st1 == st.(last := past.value.0, sequence := 0) && id == Some(Id(st1))
                                 && used == past.value.1 + 1)
  {
    NextSequence(st.sequence);
  }

  /** One completed call: the id is larger than whatever the state before stands for, and `_last_ms` is the
      largest reading seen. */
  lemma NextIdGrows(st: State, readings: seq<int>)
    requires Sane(st) && NextId(st, readings).1.Some?
    ensures var (st1, id, used) := NextId(st, readings);
            && Sane(st1) && st1.workerId == st.workerId && st1.epoch == st.epoch
            && id.value == Id(st1) && Id(st) < Id(st1)
            && (used == |readings| ==> st1.last == MaxOf(st.last, readings))
  {
    var (st1, id, used) := NextId(st, readings);
    NextIdCases(st, readings);
    if readings[0] > st.last || st.sequence < MAX_SEQUENCE {
      if |readings| == 1 { assert readings[1..] == []; }
    } else {
      PastGreater(st.last, readings[1..]);
      if used == |readings| { FirstPastIsMax(st.last, readings[1..]); }
    }
    LayoutOrder(st.epoch, st, st1);
  }

  lemma {:induction false} PastGreater(last: int, readings: seq<int>)
    ensures FirstPast(last, readings).Some? ==> FirstPast(last, readings).value.0 > last
    decreases |readings|
  {
    if readings != [] { PastGreater(last, readings[1..]); }
  }

  /** For every sequence of clock readings, backward steps included: the ids of one generator strictly
      increase from the first on, and `_last_ms` always is the largest reading seen, so ids never run
      ahead of the clock. */
  lemma {:induction false} IdsIncrease(st: State, calls: Calls)
    requires Sane(st) && Completes(st, calls)
    ensures var ids := Ids(st, calls);
            && (forall i | 0 <= i < |ids| :: Id(st) < ids[i] <= Id(After(st, calls)))
            && (forall i, j | 0 <= i < j < |ids| :: ids[i] < ids[j])
    ensures After(st, calls).last == MaxOf(st.last, AllReadings(calls))
    ensures Sane(After(st, calls)) && After(st, calls).workerId == st.workerId && After(st, calls).epoch == st.epoch
    ensures |Ids(st, calls)| == |calls|
    ensures calls != [] ==> Ids(st, calls)[|calls| - 1] == Id(After(st, calls))
    decreases |calls|
  {
    if calls != [] {
      var st1 := NextId(st, calls[0]).0;
      NextIdGrows(st, calls[0]);
      IdsIncrease(st1, calls[1..]);
      MaxOfConcat(st.last, calls[0], AllReadings(calls[1..]));
    }
  }

  lemma {:induction false} MaxOfConcat(start: int, a: seq<int>, b: seq<int>)
    ensures MaxOf(start, a + b) == MaxOf(MaxOf(start, a), b)
    decreases |a|
  {
    if a == [] {
      assert a + b == b;
    } else {
      assert (a + b)[0] == a[0] && (a + b)[1..] == a[1..] + b;
      MaxOfConcat(Max(start, a[0]), a[1..], b);
    }
  }

  /** A call waits only at sequence overflow, and then ends exactly when some reading passes `_last_ms`. */
  lemma WaitEnds(st: State, readings: seq<int>)
    requires Sane(st) && readings != []
    ensures NextId(st, readings).1.None? <==>
              readings[0] <= st.last && st.sequence == MAX_SEQUENCE
              && forall i | 1 <= i < |readings| :: readings[i] <= st.last
  {
    NextIdCases(st, readings);
    var rest := readings[1..];
    assert forall i | 0 <= i < |rest| :: rest[i] == readings[i + 1];
    if forall i | 0 <= i < |rest| :: rest[i] <= st.last {
      PastAt(st.last, rest, |rest|);
    } else {
      PastSome(st.last, rest);
    }
  }

  lemma {:induction false} PastSome(last: int, readings: seq<int>)
    requires exists i :: 0 <= i < |readings| && readings[i] > last
    ensures FirstPast(last, readings).Some?
  {
    if readings[0] <= last {
      var i :| 0 <= i < |readings| && readings[i] > last;
      assert readings[1..][i - 1] == readings[i];
      PastSome(last, readings[1..]);
    }
  }

  /** Why a cut-off matters: the sequence is back at 0 then, so the next call issues a larger id exactly when
      its reading is past `_last_ms`; at or before it, it issues the second id of that millisecond. */
  lemma CutOffIsExact(st: State, readings: seq<int>, next: int)
    requires Sane(st) && readings != [] && NextId(st, readings).1.None?
    ensures var st1 := NextId(st, readings).0;
            && NextId(st1, [next]).1.Some?
            && (NextId(st1, [next]).1.value > Id(st) <==> next > st.last)
            && (next <= st.last ==> NextId(st1, [next]).1.value == Id(st.(sequence := 1)))
  {
    WaitEnds(st, readings);
    NextIdCases(st, readings);
    Powers();
    var st1 := NextId(st, readings).0;
    NextIdCases(st1, [next]);
    LayoutOrder(st.epoch, st, NextId(st1, [next]).0);
    LayoutOrder(st.epoch, NextId(st1, [next]).0, st);
  }

  /** The same reading n times over, one call each. */
  function Same(now: int, n: nat): Calls { if n == 0 then [] else [[now]] + Same(now, n - 1) }

  lemma {:induction false} SameRun(st: State, n: nat)
    requires Sane(st) && st.sequence + n <= MAX_SEQUENCE
    ensures Completes(st, Same(st.last, n)) && After(st, Same(st.last, n)) == st.(sequence := st.sequence + n)
    ensures |Ids(st, Same(st.last, n))| == n
    ensures n > 0 ==> Ids(st, Same(st.last, n))[0] == Id(st.(sequence := st.sequence + 1))
    decreases n
  {
    if n > 0 {
      NextIdCases(st, [st.last]);
      assert Same(st.last, n)[1..] == Same(st.last, n - 1);
      SameRun(st.(sequence := st.sequence + 1), n - 1);
    }
  }

  /** One id from a new millisecond, and n more from it. */
  lemma FillsMillisecond(st: State, now: int, n: nat)
    requires Sane(st) && now > st.last && 1 <= n <= MAX_SEQUENCE
    ensures Completes(st, [[now]] + Same(now, n))
    ensures After(st, [[now]] + Same(now, n)) == st.(last := now, sequence := n)
    ensures |Ids(st, [[now]] + Same(now, n))| == n + 1
    ensures Ids(st, [[now]] + Same(now, n))[1] == Id(st.(last := now, sequence := 1))
  {
    var st1 := st.(last := now, sequence := 0);
    var calls := [[now]] + Same(now, n);
    NextIdCases(st, [now]);
    SameRun(st1, n);
    assert calls[1..] == Same(now, n) && calls[0] == [now];
    assert Ids(st, calls) == [Id(st1)] + Ids(st1, Same(now, n));
  }

  /** For every worker, epoch and millisecond there is a run that issues one id twice: a millisecond used up,
      a call cut off while it waits for the next, and one more call in that millisecond. */
  lemma CutOffRepeats(workerId: int, epoch: int, now: int) returns (calls: Calls)
    requires IsWorkerId(workerId) && now >= 0
    ensures NewGenerator(workerId, epoch) == Ok(State(workerId, epoch, -1, 0))
    ensures var st := State(workerId, epoch, -1, 0);
            && Completes(st, calls) && |Ids(st, calls)| >= 2
            && NextId(After(st, calls), [now]).1 == None
            && NextId(NextId(After(st, calls), [now]).0, [now]).1 == Some(Ids(st, calls)[1])
  {
    Powers();
    var st := State(workerId, epoch, -1, 0);
    var n: nat := MAX_SEQUENCE;
    calls := [[now]] + Same(now, n);
    FillsMillisecond(st, now, n);
    var full := st.(last := now, sequence := n);
    WaitEnds(full, [now]);
    CutOffIsExact(full, [now], now);
  }
}
