/**
 * Snowflake ids (backend/utils/snowflake.py): packing and parsing, and the
 * generator, which must stay strictly increasing whatever the clock does.
 */
module Snowflake {
  import opened Wrappers
  import opened Bits

  const WORKER_ID_BITS := 5
  const DATACENTER_ID_BITS := 5
  const SEQUENCE_BITS := 12
  const MAX_WORKER_ID := 31
  const MAX_DATACENTER_ID := 31
  const SEQUENCE_MASK := 4095
  const WORKER_ID_SHIFT := 12
  const DATACENTER_ID_SHIFT := 17
  const TIMESTAMP_LEFT_SHIFT := 22
  const EPOCH := 1262275200000
  const CLOCK_BACKWARD_TOLERANCE_MS := 10000

  datatype Info = Info(timestamp: int, datacenterId: int, workerId: int, sequence: int)

  predicate InRange(i: Info) {
    && 0 <= i.datacenterId <= MAX_DATACENTER_ID
    && 0 <= i.workerId <= MAX_WORKER_ID
    && 0 <= i.sequence <= SEQUENCE_MASK
  }

  function Pack(i: Info): int {
    Or(Or(Or(Shl(i.timestamp - EPOCH, TIMESTAMP_LEFT_SHIFT),
             Shl(i.datacenterId, DATACENTER_ID_SHIFT)),
          Shl(i.workerId, WORKER_ID_SHIFT)),
       i.sequence)
  }

  function Parse(id: int): Info {
    Info(Shr(id, TIMESTAMP_LEFT_SHIFT) + EPOCH,
         And(Shr(id, DATACENTER_ID_SHIFT), MAX_DATACENTER_ID),
         And(Shr(id, WORKER_ID_SHIFT), MAX_WORKER_ID),
         And(id, SEQUENCE_MASK))
  }

  lemma Powers()
    ensures Pow2(5) == 32 && Pow2(12) == 4096 && Pow2(17) == 131072 && Pow2(22) == 4194304
  {
    assert Pow2(8) == 256;
    assert Pow2(12) == 4096;
    assert Pow2(17) == 131072;
  }

  function Sum(i: Info): int {
    (i.timestamp - EPOCH) * 4194304 + i.datacenterId * 131072 + i.workerId * 4096 + i.sequence
  }

  /** The fields do not overlap, so packing adds them up. */
  lemma PackIsSum(i: Info)
    requires InRange(i)
    ensures Pack(i) == Sum(i)
  {
    Powers();
    var t := i.timestamp - EPOCH;
    OrOfDisjoint(t, 22, Shl(i.datacenterId, 17));
    var a := t * 32 + i.datacenterId;
    assert Shl(a, 17) == Shl(t, 22) + Shl(i.datacenterId, 17);
    OrOfDisjoint(a, 17, Shl(i.workerId, 12));
    var b := a * 32 + i.workerId;
    assert Shl(b, 12) == Shl(a, 17) + Shl(i.workerId, 12);
    OrOfDisjoint(b, 12, i.sequence);
  }

  function Divided(id: int): Info {
    Info(id / 4194304 + EPOCH, (id / 131072) % 32, (id / 4096) % 32, id % 4096)
  }

  lemma ParseIsDivMod(id: int)
    ensures Parse(id) == Divided(id)
  {
    Powers();
    AndOfMask(Shr(id, 17), 5);
    AndOfMask(Shr(id, 12), 5);
    AndOfMask(id, 12);
  }

  lemma DividingUndoesSum(i: Info)
    requires InRange(i)
    ensures Divided(Sum(i)) == i
  {
    var id, t := Sum(i), i.timestamp - EPOCH;
    RemainderIsUnique(id, 4194304, t, i.datacenterId * 131072 + i.workerId * 4096 + i.sequence);
    RemainderIsUnique(id, 131072, t * 32 + i.datacenterId, i.workerId * 4096 + i.sequence);
    RemainderIsUnique(id, 4096, t * 1024 + i.datacenterId * 32 + i.workerId, i.sequence);
    RemainderIsUnique(t * 32 + i.datacenterId, 32, t, i.datacenterId);
    RemainderIsUnique(t * 1024 + i.datacenterId * 32 + i.workerId, 32, t * 32 + i.datacenterId, i.workerId);
  }

  /** Parsing a packed id gives back all four fields, for any timestamp. */
  lemma ParsePack(i: Info)
    requires InRange(i)
    ensures Parse(Pack(i)) == i
  {
    PackIsSum(i);
    ParseIsDivMod(Sum(i));
    DividingUndoesSum(i);
  }

  /** Packing a parsed id gives back the id, for any integer. */
  lemma PackParse(id: int)
    ensures InRange(Parse(id)) && Pack(Parse(id)) == id
  {
    ParseIsDivMod(id);
    PackIsSum(Parse(id));
    var a := id / 4096;
    var b := a / 32;
    assert id == a * 4096 + id % 4096;
    assert a == b * 32 + a % 32;
    assert b == (b / 32) * 32 + b % 32;
    RemainderIsUnique(id, 131072, b, (a % 32) * 4096 + id % 4096);
    RemainderIsUnique(id, 4194304, b / 32, (b % 32) * 131072 + (a % 32) * 4096 + id % 4096);
  }

  lemma PackIsInjective(i: Info, j: Info)
    requires InRange(i) && InRange(j) && Pack(i) == Pack(j)
    ensures i == j
  {
    ParsePack(i);
    ParsePack(j);
  }

  /** An id is a non-negative 63-bit number exactly for 2^41 milliseconds from the epoch. */
  lemma FitsIn63Bits(i: Info)
    requires InRange(i)
    ensures 0 <= Pack(i) < 0x8000_0000_0000_0000 <==> 0 <= i.timestamp - EPOCH < 0x200_0000_0000
  {
    PackIsSum(i);
  }

  /** For one node, ids are ordered as (timestamp, sequence). */
  predicate Earlier(t: int, s: int, t': int, s': int) {
    t < t' || (t == t' && s < s')
  }

  lemma PackIsMonotone(i: Info, j: Info)
    requires InRange(i) && InRange(j) && i.datacenterId == j.datacenterId && i.workerId == j.workerId
    ensures Pack(i) < Pack(j) <==> Earlier(i.timestamp, i.sequence, j.timestamp, j.sequence)
  {
    PackIsSum(i);
    PackIsSum(j);
  }

  // ---------------------------------------------------------------- the generator

  /** The generator's fields: its node and the last id it gave out. */
  datatype Generator = Generator(datacenterId: int, workerId: int, sequence: int, lastTimestamp: int)
  {
    predicate Valid() {
      0 <= datacenterId <= MAX_DATACENTER_ID && 0 <= workerId <= MAX_WORKER_ID && 0 <= sequence <= SEQUENCE_MASK
    }

    function Last(): Info {
      Info(lastTimestamp, datacenterId, workerId, sequence)
    }
  }

  /**
   * How a call ends.  Waiting means that every clock reading has been used
   * while the call still spins, holding the lock.
   */
  datatype Outcome = Id(id: int) | ClockMovedBack(backMs: int) | Waiting

  function NewGenerator(datacenterId: int, workerId: int): Generator {
    Generator(datacenterId, workerId, 0, -1)
  }

  /** The first reading after `last`, from position `from` on. */
  function NextAfter(clock: seq<int>, from: nat, last: int): (r: Option<int>)
    requires from <= |clock|
    decreases |clock| - from
    ensures r.Some? ==> r.value > last && r.value in clock[from..]
    ensures r.None? <==> forall i :: from <= i < |clock| ==> clock[i] <= last
  {
    if from == |clock| then None
    else if clock[from] > last then Some(clock[from])
    else NextAfter(clock, from + 1, last)
  }

  /** generate, as a function of the state and of the clock readings that the call makes. */
  function NextId(g: Generator, clock: seq<int>): (Generator, Outcome) {
    if clock == [] then (g, Waiting)
    else
      var back := g.lastTimestamp - clock[0];
      if back > CLOCK_BACKWARD_TOLERANCE_MS then (g, ClockMovedBack(back))
      else if back > 0 then
        match NextAfter(clock, 1, g.lastTimestamp)
        case None => (g, Waiting)
        case Some(t) => Issue(g, 0, t)
      else if back == 0 then
        var s := And(g.sequence + 1, SEQUENCE_MASK);
        if s != 0 then Issue(g, s, clock[0])
        else
          match NextAfter(clock, 1, g.lastTimestamp)
          case None => (g.(sequence := 0), Waiting)
          case Some(t) => Issue(g, 0, t)
      else Issue(g, 0, clock[0])
  }

  function Issue(g: Generator, s: int, t: int): (Generator, Outcome) {
    var next := g.(sequence := s, lastTimestamp := t);
    (next, Id(Pack(next.Last())))
  }

  /** The generator object, whose methods update its fields. */
  class SnowflakeGenerator {
    var datacenterId: int
    var workerId: int
    var sequence: int
    var lastTimestamp: int

    constructor (datacenterId: int, workerId: int)
      ensures State() == NewGenerator(datacenterId, workerId)
    {
      this.datacenterId, this.workerId := datacenterId, workerId;
      sequence, lastTimestamp := 0, -1;
    }

    ghost function State(): Generator
      reads this
    {
      Generator(datacenterId, workerId, sequence, lastTimestamp)
    }

    /** _till_next_ms: read the clock until it has passed `last`. */
    static method TillNextMs(clock: seq<int>, from: nat, last: int) returns (ts: Option<int>)
      requires from <= |clock|
      ensures ts == NextAfter(clock, from, last)
    {
      var i := from;
      while i < |clock| && clock[i] <= last
        invariant from <= i <= |clock|
        invariant NextAfter(clock, from, last) == NextAfter(clock, i, last)
      {
        i := i + 1;
      }
      ts := if i < |clock| then Some(clock[i]) else None;
    }

    method Generate(clock: seq<int>) returns (outcome: Outcome)
      modifies this
      ensures (State(), outcome) == NextId(old(State()), clock)
    {
      if clock == [] {
        return Waiting;
      }
      var timestamp := clock[0];
      if timestamp < lastTimestamp {
        var backMs := lastTimestamp - timestamp;
        if backMs <= CLOCK_BACKWARD_TOLERANCE_MS {
          var next := TillNextMs(clock, 1, lastTimestamp);
          if next.None? {
            return Waiting;
          }
          timestamp := next.value;
        } else {
          return ClockMovedBack(backMs);
        }
      }
      if timestamp == lastTimestamp {
        sequence := And(sequence + 1, SEQUENCE_MASK);
        if sequence == 0 {
          var next := TillNextMs(clock, 1, lastTimestamp);
          if next.None? {
            return Waiting;
          }
          timestamp := next.value;
        }
      } else {
        sequence := 0;
      }
      lastTimestamp := timestamp;
      outcome := Id(Pack(Info(timestamp, datacenterId, workerId, sequence)));
    }
  }

  lemma SequenceMaskIsRemainder(x: int)
    ensures And(x, SEQUENCE_MASK) == x % 4096
  {
    var p := Pow2(12);
    assert p == 4096 by {
      Powers();
    }
    AndOfMask(x, 12);
  }

  lemma SequenceWraps(s: int)
    requires 0 <= s <= SEQUENCE_MASK
    ensures And(s + 1, SEQUENCE_MASK) == if s == SEQUENCE_MASK then 0 else s + 1
  {
    SequenceMaskIsRemainder(s + 1);
    RemainderIsUnique(s + 1, 4096, if s == SEQUENCE_MASK then 1 else 0, if s == SEQUENCE_MASK then 0 else s + 1);
  }

  /**
   * What one call guarantees: an id is packed from a strictly later
   * (timestamp, sequence); a refusal happens exactly on a rollback beyond the
   * tolerance and changes nothing; the node never changes.
   */
  lemma GenerateAdvances(g: Generator, clock: seq<int>)
    requires g.Valid()
    ensures var (next, outcome) := NextId(g, clock);
      && next.Valid() && next.datacenterId == g.datacenterId && next.workerId == g.workerId
      && (outcome.Id? ==>
           && outcome.id == Pack(next.Last()) && next.lastTimestamp in clock
           && Earlier(g.lastTimestamp, g.sequence, next.lastTimestamp, next.sequence))
      && (outcome.ClockMovedBack? <==> clock != [] && g.lastTimestamp - clock[0] > CLOCK_BACKWARD_TOLERANCE_MS)
      && (outcome.ClockMovedBack? ==> next == g)
  {
    if clock != [] {
      if clock[0] == g.lastTimestamp {
        SameMillisecond(g, clock);
      } else {
        assert clock[0] in clock;
      }
    }
  }

  /** Within one millisecond the sequence grows, or the call waits for the next one. */
  lemma SameMillisecond(g: Generator, clock: seq<int>)
    requires g.Valid() && clock != [] && clock[0] == g.lastTimestamp
    ensures var (next, outcome) := NextId(g, clock);
      && next.Valid() && next.datacenterId == g.datacenterId && next.workerId == g.workerId
      && (outcome.Id? ==>
           && outcome.id == Pack(next.Last()) && next.lastTimestamp in clock
           && Earlier(g.lastTimestamp, g.sequence, next.lastTimestamp, next.sequence))
      && !outcome.ClockMovedBack?
  {
    SequenceWraps(g.sequence);
    assert clock[0] in clock;
  }

  /** The first reading after the last timestamp, from a position on. */
  ghost predicate IsNextReading(clock: seq<int>, from: nat, last: int, t: int) {
    exists i :: from <= i < |clock| && clock[i] == t && last < t && forall j :: from <= j < i ==> clock[j] <= last
  }

  lemma {:induction false} NextAfterIsFirst(clock: seq<int>, from: nat, last: int)
    requires from <= |clock| && NextAfter(clock, from, last).Some?
    ensures IsNextReading(clock, from, last, NextAfter(clock, from, last).value)
    decreases |clock| - from
  {
    if clock[from] <= last {
      NextAfterIsFirst(clock, from + 1, last);
    }
  }

  /**
   * A call answers at once, without another reading, when the clock has moved
   * on, with sequence 0, and within the last millisecond with the next sequence,
   * as long as there is one.  A refusal tells how far the clock is behind.
   */
  lemma CallAnswersAtOnce(g: Generator, clock: seq<int>)
    requires g.Valid() && clock != []
    ensures var (next, outcome) := NextId(g, clock);
      && (g.lastTimestamp < clock[0] ==> outcome.Id? && next == g.(sequence := 0, lastTimestamp := clock[0]))
      && (clock[0] == g.lastTimestamp && g.sequence < 4095 ==>
           outcome.Id? && next == g.(sequence := g.sequence + 1))
      && (outcome.ClockMovedBack? ==> outcome.backMs == g.lastTimestamp - clock[0])
  {
    SequenceWraps(g.sequence);
  }

  /** The call has to wait for the clock: it lags a little, or the millisecond is used up. */
  predicate MustWait(g: Generator, now: int) {
    g.lastTimestamp - 10_000 <= now < g.lastTimestamp || (now == g.lastTimestamp && g.sequence == 4095)
  }

  /**
   * A call that must wait takes the first later reading and sequence 0, and
   * never returns exactly if there is none.  No other call waits.
   */
  lemma CallWaits(g: Generator, clock: seq<int>)
    requires g.Valid() && clock != []
    ensures var (next, outcome) := NextId(g, clock);
      && (outcome.Waiting? <==> MustWait(g, clock[0]) && forall i :: 1 <= i < |clock| ==> clock[i] <= g.lastTimestamp)
      && (MustWait(g, clock[0]) && !outcome.Waiting? ==>
           && outcome.Id? && next.sequence == 0
           && IsNextReading(clock, 1, g.lastTimestamp, next.lastTimestamp))
  {
    SequenceWraps(g.sequence);
    if NextAfter(clock, 1, g.lastTimestamp).Some? {
      NextAfterIsFirst(clock, 1, g.lastTimestamp);
    }
  }

  /** The outcomes of consecutive calls, each with its own clock readings. */
  function Run(g: Generator, clocks: seq<seq<int>>): seq<Outcome>
    decreases |clocks|
  {
    if clocks == [] then []
    else
      var (next, outcome) := NextId(g, clocks[0]);
      [outcome] + if outcome.Waiting? then [] else Run(next, clocks[1..])
  }

  lemma CallDoesNotGoBack(g: Generator, clock: seq<int>)
    requires g.Valid()
    ensures var (next, outcome) := NextId(g, clock);
      && next.Valid()
      && (outcome.Id? ==> outcome.id == Pack(next.Last()) && Pack(g.Last()) < outcome.id)
      && (outcome.ClockMovedBack? ==> next == g)
  {
    GenerateAdvances(g, clock);
    if NextId(g, clock).1.Id? {
      PackIsMonotone(g.Last(), NextId(g, clock).0.Last());
    }
  }

  /** Every id of a run is greater than the last one before the run. */
  lemma {:induction false} IdsExceedStart(g: Generator, clocks: seq<seq<int>>, i: nat)
    requires g.Valid() && i < |Run(g, clocks)| && Run(g, clocks)[i].Id?
    ensures Pack(g.Last()) < Run(g, clocks)[i].id
    decreases |clocks|
  {
    CallDoesNotGoBack(g, clocks[0]);
    if i > 0 {
      IdsExceedStart(NextId(g, clocks[0]).0, clocks[1..], i - 1);
    }
  }

  /** Strict monotonicity over whole runs, for every sequence of clock readings. */
  lemma {:induction false} IdsIncrease(g: Generator, clocks: seq<seq<int>>, i: nat, j: nat)
    requires g.Valid() && i < j < |Run(g, clocks)| && Run(g, clocks)[i].Id? && Run(g, clocks)[j].Id?
    ensures Run(g, clocks)[i].id < Run(g, clocks)[j].id
    decreases |clocks|
  {
    var next := NextId(g, clocks[0]).0;
    CallDoesNotGoBack(g, clocks[0]);
    if i > 0 {
      IdsIncrease(next, clocks[1..], i - 1, j - 1);
    } else {
      IdsExceedStart(next, clocks[1..], j - 1);
    }
  }
}
