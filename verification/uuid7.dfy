/** UUIDv7: 48 bits of milliseconds, version, a 12-bit counter per millisecond, variant and random bits
    (sections 5.7 and 6.2, Method 1, of RFC 9562). Readings are `int(time.time() * 1000)`. */
module Uuid7 {

  import opened Bits
  import opened Wrappers

  const TS_LIMIT: int := 0x1_0000_0000_0000           // 2^48
  const COUNTER_LIMIT: int := 0x1000                  // 2^12
  const RAND_B_LIMIT: int := 0x4000_0000_0000_0000    // 2^62

  /** The two module globals. */
  datatype State = State(lastTs: int, counter: int)

  const INITIAL := State(-1, 0)

  function Timestamp(reading: int): int { BitAnd(reading, TS_LIMIT - 1) }

  function Layout(ts: int, randA: int, randB: int): int {
    BitOr(BitOr(BitOr(BitOr(Shl(ts, 80), Shl(7, 76)), Shl(randA, 64)), Shl(2, 62)), randB)
  }

  /** The busy loop: the first timestamp that is not `last`. */
  function NextOther(last: int, readings: seq<int>): Option<int>
    decreases |readings|
  {
    if readings == [] then None
    else if Timestamp(readings[0]) != last then Some(Timestamp(readings[0]))
    else NextOther(last, readings[1..])
  }

  /** What `new_uuid7` does to the globals, and whether the readings sufficed for it to return. */
  function Advance(st: State, readings: seq<int>, rand2: int): (State, bool) {
    if readings == [] then (st, false)
    else
      var ts := Timestamp(readings[0]);
      if ts != st.lastTs then (State(ts, BitAnd(rand2, COUNTER_LIMIT - 1)), true)
      else
        var counter := BitAnd(st.counter + 1, COUNTER_LIMIT - 1);
        if counter != 0 then (State(ts, counter), true)
        else match NextOther(st.lastTs, readings[1..])
          case None => (st.(counter := 0), false)
          case Some(later) => (State(later, 0), true)
  }

  function Value(st: State, rand8: int): int {
    Layout(st.lastTs, st.counter, BitAnd(rand8, RAND_B_LIMIT - 1))
  }

  /** `new_uuid7`, on the readings the call takes and the random bytes it draws; None when they run out. */
  function New(st: State, readings: seq<int>, rand2: int, rand8: int): (State, Option<int>) {
    var (st1, completes) := Advance(st, readings, rand2);
    (st1, if completes then Some(Value(st1, rand8)) else None)
  }

  class Uuid7Globals {
    var lastTs: int
    var counter: int

    function Contents(): State
      reads this
    {
      State(lastTs, counter)
    }

    constructor ()
      ensures Contents() == INITIAL
    {
      lastTs, counter := -1, 0;
    }

    method NewUuid7(readings: seq<int>, rand2: int, rand8: int) returns (value: Option<int>)
      modifies this
      ensures (Contents(), value) == New(old(Contents()), readings, rand2, rand8)
    {
      var completes := NextFields(readings, rand2);
      value := if completes then Some(Value(State(lastTs, counter), rand8)) else None;
    }

    /** The part under the lock. */
    method NextFields(readings: seq<int>, rand2: int) returns (completes: bool)
      modifies this
      ensures (Contents(), completes) == Advance(old(Contents()), readings, rand2)
    {
      if readings == [] { return false; }
      var ts := Timestamp(readings[0]);
      if ts == lastTs {
        counter := BitAnd(counter + 1, COUNTER_LIMIT - 1);
        if counter == 0 {
          var other := WaitOther(lastTs, readings[1..]);
          if other.None? { return false; }
          ts := other.value;
          counter := 0;
        }
      } else {
        counter := BitAnd(rand2, COUNTER_LIMIT - 1);
      }
      lastTs := ts;
      completes := true;
    }

    method WaitOther(last: int, readings: seq<int>) returns (other: Option<int>)
      ensures other == NextOther(last, readings)
    {
      var rest := readings;
      while rest != []
        invariant NextOther(last, rest) == NextOther(last, readings)
        decreases |rest|
      {
        var ts := Timestamp(rest[0]);
        if ts != last { return Some(ts); }
        rest := rest[1..];
      }
      other := None;
    }
  }

  // -- The layout -------------------------------------------------------------------------------

  lemma {:induction false} PowSum(a: nat, b: nat)
    ensures Pow2(a + b) == Pow2(a) * Pow2(b)
  {
    if b > 0 {
      PowSum(a, b - 1);
      MulDouble(Pow2(a), Pow2(b - 1));
    }
  }

  lemma PowTimes(k: nat, a: nat, p: int, b: nat, q: int)
    requires k == a + b && Pow2(a) == p && Pow2(b) == q
    ensures Pow2(k) == p * q
  {
    PowSum(a, b);
  }

  lemma PowersOf()
    ensures Pow2(12) == COUNTER_LIMIT && Pow2(48) == TS_LIMIT && Pow2(62) == RAND_B_LIMIT
    ensures Pow2(64) == 4 * RAND_B_LIMIT && Pow2(76) == 0x4000 * RAND_B_LIMIT && Pow2(80) == 0x4_0000 * RAND_B_LIMIT
  {
    PowTimes(12, 6, 64, 6, 64);
    PowTimes(24, 12, 0x1000, 12, 0x1000);
    PowTimes(48, 24, 0x100_0000, 24, 0x100_0000);
    PowTimes(14, 12, 0x1000, 2, 4);
    PowTimes(62, 48, TS_LIMIT, 14, 0x4000);
    PowTimes(64, 62, RAND_B_LIMIT, 2, 4);
    PowTimes(76, 62, RAND_B_LIMIT, 14, 0x4000);
    PowTimes(18, 14, 0x4000, 4, 16);
    PowTimes(80, 62, RAND_B_LIMIT, 18, 0x4_0000);
  }

  lemma MaskTs(x: int)
    ensures BitAnd(x, TS_LIMIT - 1) == x % TS_LIMIT
  {
    PowersOf();
    AndMask(x, 48);
  }

  lemma MaskCounter(x: int)
    ensures BitAnd(x, COUNTER_LIMIT - 1) == x % COUNTER_LIMIT
  {
    PowersOf();
    AndMask(x, 12);
  }

  lemma MaskRandB(x: int)
    ensures BitAnd(x, RAND_B_LIMIT - 1) == x % RAND_B_LIMIT
  {
    PowersOf();
    AndMask(x, 62);
  }

  predicate InLayout(ts: int, randA: int, randB: int) {
    0 <= ts < TS_LIMIT && 0 <= randA < COUNTER_LIMIT && 0 <= randB < RAND_B_LIMIT
  }

  predicate Places(p: int, s80: nat, s76: nat, s64: nat, s62: nat) {
    Pow2(s62) == p && Pow2(s64) == 4 * p && Pow2(s76) == 0x1000 * (4 * p) && Pow2(s80) == 16 * (0x1000 * (4 * p))
  }

  /** The sum the fields make, at any four places that far apart. */
  lemma FieldsAdd(ts: int, randA: int, randB: int, p: int, s80: nat, s76: nat, s64: nat, s62: nat)
    requires 0 <= randA < 0x1000 && 0 <= randB < p && Places(p, s80, s76, s64, s62)
    ensures BitOr(BitOr(BitOr(BitOr(Shl(ts, s80), Shl(7, s76)), Shl(randA, s64)), Shl(2, s62)), randB)
         == (((ts * 16 + 7) * 0x1000 + randA) * 4 + 2) * p + randB
  {
    var a := ts * 16 + 7;
    var b := a * 0x1000 + randA;
    OrField(ts, s80, 7, s76, 16);
    OrField(a, s76, randA, s64, 0x1000);
    OrField(b, s64, 2, s62, 4);
    OrDisjoint(b * 4 + 2, s62, randB);
  }

  lemma FieldsSplit(v: int, ts: int, randA: int, randB: int, p: int, s80: nat, s76: nat, s64: nat, s62: nat)
    requires 0 <= randA < 0x1000 && 0 <= randB < p && Places(p, s80, s76, s64, s62)
    requires v == (((ts * 16 + 7) * 0x1000 + randA) * 4 + 2) * p + randB
    ensures Shr(v, s80) == ts && Shr(v, s76) == ts * 16 + 7 && Shr(v, s64) == (ts * 16 + 7) * 0x1000 + randA
    ensures Shr(v, s62) == ((ts * 16 + 7) * 0x1000 + randA) * 4 + 2
  {
    var a := ts * 16 + 7;
    var b := a * 0x1000 + randA;
    var c := b * 4 + 2;
    FieldsOf(v, s62, p, c, randB);
    ShrOfShr(v, s62, p, 4, s64, b, 2);
    ShrOfShr(v, s64, 4 * p, 0x1000, s76, a, randA);
    ShrOfShr(v, s76, 0x1000 * (4 * p), 16, s80, ts, 7);
  }

  lemma ShrOfShr(v: int, low: nat, p: int, room: int, high: nat, above: int, field: int)
    requires Pow2(low) == p && Pow2(high) == room * p && room >= 1
    requires Shr(v, low) == above * room + field && 0 <= field < room
    ensures Shr(v, high) == above
  {
    LessTimes(field, room, p);
    Place(v, p, Shr(v, low), above, room, field, v % p);
    FieldsOf(v, high, room * p, above, field * p + v % p);
  }

  lemma Place(v: int, p: int, q: int, above: int, room: int, field: int, r: int)
    requires p >= 1 && q == v / p && r == v % p && q == above * room + field
    ensures v == above * (room * p) + (field * p + r) && 0 <= r < p
  {
    Distribute(above, room, field, p);
    QuotientRest(v, p, q, r);
  }

  lemma QuotientRest(v: int, p: int, q: int, r: int)
    requires p >= 1 && q == v / p && r == v % p
    ensures v == q * p + r && 0 <= r < p
  {
  }

  lemma LessTimes(a: int, b: int, p: int)
    requires 0 <= a < b && p >= 1
    ensures 0 <= a * p && a * p + p <= b * p
  {
    assert b * p == a * p + (b - a) * p;
    AtLeastOnce(b - a, p);
    if a > 0 { AtLeastOnce(a, p); }
  }

  lemma LayoutIsSum(ts: int, randA: int, randB: int)
    requires InLayout(ts, randA, randB)
    ensures Layout(ts, randA, randB)
         == (((ts * 16 + 7) * 0x1000 + randA) * 4 + 2) * RAND_B_LIMIT + randB
  {
    PowersOf();
    FieldsAdd(ts, randA, randB, RAND_B_LIMIT, 80, 76, 64, 62);
  }

  /** Every value is a 128-bit number with version 7 and variant 10, from which the timestamp and the
      counter read back. */
  lemma LayoutDecodes(ts: int, randA: int, randB: int)
    requires InLayout(ts, randA, randB)
    ensures var v := Layout(ts, randA, randB);
            && 0 <= v < 0x1_0000_0000_0000_0000_0000_0000_0000_0000
            && Shr(v, 80) == ts
            && BitAnd(Shr(v, 76), 15) == 7
            && BitAnd(Shr(v, 64), 0xFFF) == randA
            && BitAnd(Shr(v, 62), 3) == 2
  {
    LayoutIsSum(ts, randA, randB);
    SumDecodes(Layout(ts, randA, randB), ts, randA, randB);
  }

  lemma SumDecodes(v: int, ts: int, randA: int, randB: int)
    requires InLayout(ts, randA, randB)
    requires v == (((ts * 16 + 7) * 0x1000 + randA) * 4 + 2) * RAND_B_LIMIT + randB
    ensures Shr(v, 80) == ts && BitAnd(Shr(v, 76), 15) == 7 && BitAnd(Shr(v, 64), 0xFFF) == randA
    ensures BitAnd(Shr(v, 62), 3) == 2
  {
    PowersOf();
    FieldsDecode(v, ts, randA, randB, RAND_B_LIMIT, 80, 76, 64, 62, 4, 12, 2);
  }

  lemma FieldsDecode(v: int, ts: int, randA: int, randB: int, p: int, s80: nat, s76: nat, s64: nat, s62: nat,
                     s4: nat, s12: nat, s2: nat)
    requires 0 <= randA < 0x1000 && 0 <= randB < p && Places(p, s80, s76, s64, s62)
    requires Pow2(s4) == 16 && Pow2(s12) == 0x1000 && Pow2(s2) == 4
    requires v == (((ts * 16 + 7) * 0x1000 + randA) * 4 + 2) * p + randB
    ensures Shr(v, s80) == ts && BitAnd(Shr(v, s76), 15) == 7 && BitAnd(Shr(v, s64), 0xFFF) == randA
    ensures BitAnd(Shr(v, s62), 3) == 2
  {
    FieldsSplit(v, ts, randA, randB, p, s80, s76, s64, s62);
    LowBits(ts * 16 + 7, s4, 16, ts, 7);
    LowBits((ts * 16 + 7) * 0x1000 + randA, s12, 0x1000, ts * 16 + 7, randA);
    LowBits(((ts * 16 + 7) * 0x1000 + randA) * 4 + 2, s2, 4, (ts * 16 + 7) * 0x1000 + randA, 2);
  }

  lemma LowBits(n: int, k: nat, p: int, high: int, low: int)
    requires Pow2(k) == p && n == high * p + low && 0 <= low < p
    ensures BitAnd(n, p - 1) == low
  {
    FieldsOf(n, k, p, high, low);
  }

  lemma LayoutOrder(ts: int, a: int, x: int, ts1: int, b: int, y: int)
    requires InLayout(ts, a, x) && InLayout(ts1, b, y) && (ts != ts1 || a != b)
    ensures Layout(ts, a, x) < Layout(ts1, b, y) <==> ts < ts1 || (ts == ts1 && a < b)
  {
    PowersOf();
    LayoutIsSum(ts, a, x);
    LayoutIsSum(ts1, b, y);
  }

  lemma LayoutNotNegative(ts: int, randA: int, randB: int)
    requires InLayout(ts, randA, randB)
    ensures Layout(ts, randA, randB) >= 0
  {
    LayoutIsSum(ts, randA, randB);
  }

  // -- When a call returns ------------------------------------------------------------------------

  /** The busy loop stops at the first reading with another timestamp, and only there. */
  lemma {:induction false} FirstOther(last: int, readings: seq<int>) returns (n: nat)
    ensures n <= |readings| && forall i | 0 <= i < n :: readings[i] % TS_LIMIT == last
    ensures n < |readings| ==> readings[n] % TS_LIMIT != last
    ensures NextOther(last, readings) == if n < |readings| then Some(readings[n] % TS_LIMIT) else None
    decreases |readings|
  {
    n := 0;
    if readings != [] {
      MaskTs(readings[0]);
      if readings[0] % TS_LIMIT == last {
        var rest := FirstOther(last, readings[1..]);
        n := rest + 1;
      }
    }
  }

  /** A reading after the first has another timestamp. */
  predicate SomeOther(last: int, readings: seq<int>) {
    exists i :: 1 <= i < |readings| && readings[i] % TS_LIMIT != last
  }

  lemma WaitReturnsExactly(last: int, readings: seq<int>)
    requires readings != []
    ensures NextOther(last, readings[1..]).Some? <==> SomeOther(last, readings)
  {
    var n := FirstOther(last, readings[1..]);
    if n < |readings| - 1 {
      assert readings[n + 1] % TS_LIMIT != last;
    } else {
      forall i | 1 <= i < |readings| ensures readings[i] % TS_LIMIT == last {
        assert readings[i] == readings[1..][i - 1];
      }
    }
  }

  lemma OverflowIs(counter: int)
    requires 0 <= counter < COUNTER_LIMIT
    ensures BitAnd(counter + 1, COUNTER_LIMIT - 1) == 0 <==> counter == COUNTER_LIMIT - 1
  {
    MaskCounter(counter + 1);
  }

  /** A call returns unless the counter overflows and no reading after the first has another timestamp; one cut
      off there leaves the counter at 0. */
  lemma ReturnsExactly(st: State, readings: seq<int>, rand2: int, rand8: int)
    requires readings != [] && 0 <= st.counter < COUNTER_LIMIT
    ensures New(st, readings, rand2, rand8).1.Some? <==>
              || readings[0] % TS_LIMIT != st.lastTs
              || st.counter < COUNTER_LIMIT - 1
              || SomeOther(st.lastTs, readings)
    ensures New(st, readings, rand2, rand8).1.None? ==> New(st, readings, rand2, rand8).0 == State(st.lastTs, 0)
  {
    MaskTs(readings[0]);
    OverflowIs(st.counter);
    WaitReturnsExactly(st.lastTs, readings);
  }

  // -- Runs ----------------------------------------------------------------------------------------

  datatype Call = Call(readings: seq<int>, rand2: int, rand8: int)

  predicate Sane(st: State) { -1 <= st.lastTs < TS_LIMIT && 0 <= st.counter < COUNTER_LIMIT }

  lemma NextCounter(counter: int)
    requires 0 <= counter < COUNTER_LIMIT
    ensures BitAnd(counter + 1, COUNTER_LIMIT - 1) == if counter + 1 == COUNTER_LIMIT then 0 else counter + 1
  {
    MaskCounter(counter + 1);
  }

  lemma {:induction false} OtherDiffers(last: int, readings: seq<int>)
    ensures NextOther(last, readings).Some? ==>
              NextOther(last, readings).value != last && 0 <= NextOther(last, readings).value < TS_LIMIT
    decreases |readings|
  {
    if readings != [] {
      MaskTs(readings[0]);
      OtherDiffers(last, readings[1..]);
    }
  }

  function RandB(call: Call): int { BitAnd(call.rand8, RAND_B_LIMIT - 1) }

  /** The ways a call goes. */
  lemma AdvanceCases(st: State, readings: seq<int>, rand2: int)
    requires readings != []
    ensures var (st1, completes) := Advance(st, readings, rand2);
            var ts := Timestamp(readings[0]);
            var counter := BitAnd(st.counter + 1, COUNTER_LIMIT - 1);
            if ts != st.lastTs then completes && st1 == State(ts, BitAnd(rand2, COUNTER_LIMIT - 1))
            else if counter != 0 then completes && st1 == State(ts, counter)
            else
              var other := NextOther(st.lastTs, readings[1..]);
              (completes <==> other.Some?) && (other.Some? ==> st1 == State(other.value, 0))
  {
  }

  /** One completed call: its pair of timestamp and counter is new. */
  lemma AdvanceSane(st: State, readings: seq<int>, rand2: int)
    requires Sane(st) && Advance(st, readings, rand2).1
    ensures var st1 := Advance(st, readings, rand2).0;
            Sane(st1) && st1.lastTs >= 0 && (st1.lastTs == st.lastTs ==> st1.counter == st.counter + 1)
  {
    AdvanceCases(st, readings, rand2);
    MaskTs(readings[0]);
    MaskCounter(rand2);
    NextCounter(st.counter);
    OtherDiffers(st.lastTs, readings[1..]);
  }

  /** And its value is that pair's. */
  lemma NewIsSane(st: State, call: Call)
    requires Sane(st) && Advance(st, call.readings, call.rand2).1
    ensures var (st1, value) := New(st, call.readings, call.rand2, call.rand8);
            && Sane(st1) && st1.lastTs >= 0 && 0 <= RandB(call) < RAND_B_LIMIT
            && value == Some(Layout(st1.lastTs, st1.counter, RandB(call)))
            && (st1.lastTs == st.lastTs ==> st1.counter == st.counter + 1)
  {
    AdvanceSane(st, call.readings, call.rand2);
    MaskRandB(call.rand8);
  }

  /** Two consecutive values are in order exactly when the clock, read modulo 2^48, did not go back. */
  lemma OrderIsTheClocks(st: State, first: Call, second: Call)
    requires Sane(st) && Advance(st, first.readings, first.rand2).1
    requires Advance(Advance(st, first.readings, first.rand2).0, second.readings, second.rand2).1
    ensures var (st1, v1) := New(st, first.readings, first.rand2, first.rand8);
            var (st2, v2) := New(st1, second.readings, second.rand2, second.rand8);
            && v1.Some? && v2.Some?
            && (v1.value < v2.value <==> st1.lastTs <= st2.lastTs)
  {
    NewIsSane(st, first);
    var st1 := New(st, first.readings, first.rand2, first.rand8).0;
    NewIsSane(st1, second);
    var st2 := New(st1, second.readings, second.rand2, second.rand8).0;
    LayoutOrder(st1.lastTs, st1.counter, RandB(first), st2.lastTs, st2.counter, RandB(second));
  }

  /** The clock never goes back, stays inside 48 bits, and no call is cut off. */
  predicate Steady(st: State, since: int, calls: seq<Call>)
    decreases |calls|
  {
    calls == [] ||
    (&& SteadyReadings(since, calls[0].readings)
     && New(st, calls[0].readings, calls[0].rand2, calls[0].rand8).1.Some?
     && Steady(New(st, calls[0].readings, calls[0].rand2, calls[0].rand8).0, Last(since, calls[0].readings),
         calls[1..]))
  }

  predicate SteadyReadings(since: int, readings: seq<int>)
    decreases |readings|
  {
    readings == [] ||
    (0 <= readings[0] < TS_LIMIT && since <= readings[0] && SteadyReadings(readings[0], readings[1..]))
  }

  function Last(since: int, readings: seq<int>): int { if readings == [] then since else readings[|readings| - 1] }

  function Values(st: State, calls: seq<Call>): seq<int>
    decreases |calls|
  {
    if calls == [] then []
    else
      var (st1, value) := New(st, calls[0].readings, calls[0].rand2, calls[0].rand8);
      (if value.Some? then [value.value] else []) + Values(st1, calls[1..])
  }

  lemma {:induction false} SteadyOther(last: int, readings: seq<int>)
    requires SteadyReadings(last, readings) && NextOther(last, readings).Some?
    ensures last < NextOther(last, readings).value <= Last(last, readings)
    decreases |readings|
  {
    MaskTs(readings[0]);
    if readings[0] == last {
      assert readings[1..] != [];
      SteadyOther(last, readings[1..]);
    } else {
      SteadyLast(readings[0], readings[1..]);
    }
  }

  lemma {:induction false} SteadyLast(since: int, readings: seq<int>)
    requires SteadyReadings(since, readings)
    ensures since <= Last(since, readings)
    decreases |readings|
  {
    if readings != [] { SteadyLast(readings[0], readings[1..]); }
  }

  /** Where the timestamp of a value comes from. */
  lemma AdvanceTs(st: State, readings: seq<int>, rand2: int)
    requires Advance(st, readings, rand2).1
    ensures readings != []
    ensures var ts := Advance(st, readings, rand2).0.lastTs;
            || ts == Timestamp(readings[0])
            || (Timestamp(readings[0]) == st.lastTs && NextOther(st.lastTs, readings[1..]) == Some(ts))
  {
  }

  lemma TimestampIs(reading: int)
    requires 0 <= reading < TS_LIMIT
    ensures Timestamp(reading) == reading
  {
    MaskTs(reading);
  }

  lemma SteadyStep(st: State, since: int, call: Call)
    requires Sane(st) && st.lastTs <= since && SteadyReadings(since, call.readings)
    requires Advance(st, call.readings, call.rand2).1
    ensures st.lastTs <= Advance(st, call.readings, call.rand2).0.lastTs <= Last(since, call.readings)
  {
    AdvanceTs(st, call.readings, call.rand2);
    SteadyTs(st.lastTs, since, call.readings, Advance(st, call.readings, call.rand2).0.lastTs);
  }

  lemma SteadyTs(last: int, since: int, readings: seq<int>, ts: int)
    requires readings != [] && last <= since && SteadyReadings(since, readings)
    requires ts == Timestamp(readings[0])
             || (Timestamp(readings[0]) == last && NextOther(last, readings[1..]) == Some(ts))
    ensures last <= ts <= Last(since, readings)
  {
    TimestampIs(readings[0]);
    SteadyLast(readings[0], readings[1..]);
    if ts != Timestamp(readings[0]) { SteadyOther(last, readings[1..]); }
  }

  /** The last value issued, or anything negative before the first. */
  ghost predicate StandsFor(st: State, last: int) {
    if st.lastTs == -1 then last < 0
    else exists y :: InLayout(st.lastTs, st.counter, y) && last == Layout(st.lastTs, st.counter, y)
  }

  lemma NextIsAbove(st: State, last: int, st1: State, randB: int)
    requires Sane(st) && Sane(st1) && StandsFor(st, last) && 0 <= randB < RAND_B_LIMIT && 0 <= st1.lastTs
    requires st.lastTs < st1.lastTs || (st.lastTs == st1.lastTs && st1.counter == st.counter + 1)
    ensures var value := Layout(st1.lastTs, st1.counter, randB); last < value && StandsFor(st1, value)
  {
    LayoutNotNegative(st1.lastTs, st1.counter, randB);
    if st.lastTs != -1 {
      var y :| InLayout(st.lastTs, st.counter, y) && last == Layout(st.lastTs, st.counter, y);
      LayoutOrder(st.lastTs, st.counter, y, st1.lastTs, st1.counter, randB);
    }
  }

  predicate IncreasesFrom(last: int, values: seq<int>) {
    && (forall i | 0 <= i < |values| :: last < values[i])
    && (forall i, j | 0 <= i < j < |values| :: values[i] < values[j])
  }

  lemma FirstIncreases(last: int, value: int, values: seq<int>)
    requires last < value && IncreasesFrom(value, values)
    ensures IncreasesFrom(last, [value] + values)
  {
  }

  /** While the clock does not go back and fits 48 bits, every value is larger than all before it. */
  lemma {:induction false} ValuesIncrease(st: State, since: int, calls: seq<Call>, last: int)
    requires Sane(st) && st.lastTs <= since && Steady(st, since, calls) && StandsFor(st, last)
    ensures |Values(st, calls)| == |calls| && IncreasesFrom(last, Values(st, calls))
    decreases |calls|
  {
    if calls != [] {
      var call := calls[0];
      var (st1, value) := New(st, call.readings, call.rand2, call.rand8);
      SteadyStep(st, since, call);
      NewIsSane(st, call);
      NextIsAbove(st, last, st1, RandB(call));
      ValuesIncrease(st1, Last(since, call.readings), calls[1..], value.value);
      FirstIncreases(last, value.value, Values(st1, calls[1..]));
    }
  }
}
