/**
 * Leasing snowflake node ids through Redis (SnowflakeNodeManager in
 * backend/utils/snowflake.py): SET NX with a time to live, a heartbeat that
 * extends it, and deletion on release, over all interleavings of any number
 * of instances.
 */
module NodeLease {
  import opened Wrappers
  import opened Snowflake

  /** SNOWFLAKE_NODE_TTL_SECONDS */
  const NODE_TTL := 60
  const NODES := 1024

  datatype Node = Node(datacenter: int, worker: int)

  /** The node that is tried k-th: workers within datacenters. */
  function NodeAt(k: nat): Node {
    Node(k / 32, k % 32)
  }

  /** All nodes are tried, datacenter by datacenter, and in each worker by worker. */
  lemma NodesInOrder(datacenter: nat, worker: nat)
    requires datacenter < 32 && worker < 32
    ensures 32 * datacenter + worker < NODES && NodeAt(32 * datacenter + worker) == Node(datacenter, worker)
  {
  }

  /** A Redis key with its expiry; the value identifies the owner but is never read back. */
  datatype Lease = Lease(owner: int, expires: int)

  type Leases = map<Node, Lease>

  predicate Live(leases: Leases, now: int, n: Node) {
    n in leases && now < leases[n].expires
  }

  /** SET key value NX EX ttl */
  function SetNx(leases: Leases, now: int, n: Node, owner: int): Option<Leases> {
    if Live(leases, now, n) then None else Some(leases[n := Lease(owner, now + NODE_TTL)])
  }

  /** EXPIRE key ttl, which extends whatever lives under the key and ignores a missing one. */
  function Expire(leases: Leases, now: int, n: Node): Leases {
    if Live(leases, now, n) then leases[n := leases[n].(expires := now + NODE_TTL)] else leases
  }

  function Delete(leases: Leases, n: Node): Leases {
    leases - {n}
  }

  /** The k-th node is free and no earlier one is. */
  ghost predicate FirstFree(leases: Leases, now: int, k: int) {
    && 0 <= k < NODES && !Live(leases, now, NodeAt(k))
    && forall j :: 0 <= j < k ==> Live(leases, now, NodeAt(j))
  }

  // ---------------------------------------------------------------- all instances together

  /**
   * Where an instance is.  While scanning it knows a snapshot of occupied
   * nodes, which may be arbitrarily wrong, and the next candidate.  While
   * holding it remembers when its key was last set or extended.  After a
   * release it keeps its generator, which still answers.
   */
  datatype Phase =
    | Idle
    | Scanning(occupied: set<Node>, next: nat)
    | Holding(node: Node, beat: int, gen: Generator, started: bool)
    | Released(node: Node, gen: Generator)
    | Stopped

  datatype System = System(now: int, leases: Leases, phases: map<int, Phase>, issued: seq<Info>)

  datatype Step =
    | Tick(duration: nat)
    | Scan(i: int, occupied: set<Node>)
    | Try(i: int)
    | Beat(i: int)
    | Generate(i: int, clock: seq<int>)
    | Release(i: int)
    | Crash(i: int)

  function PhaseOf(s: System, i: int): Phase {
    if i in s.phases then s.phases[i] else Idle
  }

  predicate HasGenerator(p: Phase) {
    p.Holding? || p.Released?
  }

  predicate Enabled(s: System, step: Step) {
    match step
    case Tick(_) => true
    case Scan(i, _) => PhaseOf(s, i).Idle?
    case Try(i) => PhaseOf(s, i).Scanning?
    case Beat(i) => PhaseOf(s, i).Holding?
    case Generate(i, clock) => HasGenerator(PhaseOf(s, i)) && !NextId(PhaseOf(s, i).gen, clock).1.Waiting?
    case Release(i) => PhaseOf(s, i).Holding?
    case Crash(i) => PhaseOf(s, i).Holding?
  }

  function NewHolding(n: Node, now: int): Phase {
    Holding(n, now, NewGenerator(n.datacenter, n.worker), false)
  }

  function Enter(s: System, i: int, p: Phase): System {
    s.(phases := s.phases[i := p])
  }

  function Apply(s: System, step: Step): System
    requires Enabled(s, step)
  {
    match step
    case Tick(d) => s.(now := s.now + d)
    case Scan(i, occupied) => Enter(s, i, Scanning(occupied, 0))
    case Try(i) =>
      var p := PhaseOf(s, i);
      if p.next >= NODES then Enter(s, i, Stopped)
      else
        var n := NodeAt(p.next);
        var leases := if n in p.occupied then None else SetNx(s.leases, s.now, n, i);
        if leases.None? then Enter(s, i, p.(next := p.next + 1))
        else Enter(s.(leases := leases.value), i, NewHolding(n, s.now))
    case Beat(i) =>
      var p := PhaseOf(s, i);
      Enter(s.(leases := Expire(s.leases, s.now, p.node)), i, p.(beat := s.now))
    case Generate(i, clock) =>
      var p := PhaseOf(s, i);
      var (gen, outcome) := NextId(p.gen, clock);
      var next := if p.Holding? && outcome.Id? then p.(gen := gen, started := true) else p.(gen := gen);
      Enter(if outcome.Id? then s.(issued := s.issued + [gen.Last()]) else s, i, next)
    case Release(i) =>
      var p := PhaseOf(s, i);
      Enter(s.(leases := Delete(s.leases, p.node)), i, Released(p.node, p.gen))
    case Crash(i) => Enter(s, i, Stopped)
  }

  ghost predicate Holds(s: System, i: int, n: Node) {
    PhaseOf(s, i).Holding? && PhaseOf(s, i).node == n
  }

  function NodeOf(i: Info): Node {
    Node(i.datacenterId, i.workerId)
  }

  /** Every live holder's last heartbeat is less than a time to live ago. */
  ghost predicate Timely(s: System) {
    forall i :: PhaseOf(s, i).Holding? ==> s.now < PhaseOf(s, i).beat + NODE_TTL
  }

  /** The first id of a new holder is later than every id issued for its node before. */
  ghost predicate StartsLater(s: System, step: Step)
    requires Enabled(s, step)
  {
    step.Generate? && PhaseOf(s, step.i).Holding? && !PhaseOf(s, step.i).started
      && NextId(PhaseOf(s, step.i).gen, step.clock).1.Id? ==>
      forall k :: 0 <= k < |s.issued| && NodeOf(s.issued[k]) == PhaseOf(s, step.i).node ==>
        s.issued[k].timestamp < NextId(PhaseOf(s, step.i).gen, step.clock).0.lastTimestamp
  }

  /** Only holders generate, and new ones start later. */
  ghost predicate Orderly(s: System, step: Step)
    requires Enabled(s, step)
  {
    (step.Generate? ==> PhaseOf(s, step.i).Holding?) && StartsLater(s, step)
  }

  ghost predicate Initial(s: System) {
    s.phases == map[] && s.issued == []
  }

  ghost predicate IsRun(states: seq<System>, steps: seq<Step>) {
    && |states| == |steps| + 1 && Initial(states[0])
    && (forall k :: 0 <= k < |steps| ==> Enabled(states[k], steps[k]) && states[k + 1] == Apply(states[k], steps[k]))
  }

  /** A run in which heartbeats are timely. */
  ghost predicate IsTimelyRun(states: seq<System>, steps: seq<Step>) {
    IsRun(states, steps) && forall k :: 0 <= k < |states| ==> Timely(states[k])
  }

  /** A timely run in which only holders generate and new ones start later. */
  ghost predicate IsOrderlyRun(states: seq<System>, steps: seq<Step>) {
    IsTimelyRun(states, steps) && forall k :: 0 <= k < |steps| ==> Orderly(states[k], steps[k])
  }

  // ---------------------------------------------------------------- invariants

  /** A holder's key is its own and outlives its next heartbeat's deadline. */
  ghost predicate OwnsKey(s: System, i: int) {
    var p := PhaseOf(s, i);
    p.Holding? ==> p.node in s.leases && s.leases[p.node].owner == i && p.beat + NODE_TTL <= s.leases[p.node].expires
  }

  ghost predicate Owned(s: System) {
    forall i :: OwnsKey(s, i)
  }

  ghost predicate GeneratorFits(s: System, i: int) {
    var p := PhaseOf(s, i);
    p.Holding? ==> p.gen.Valid() && p.gen.datacenterId == p.node.datacenter && p.gen.workerId == p.node.worker
  }

  ghost predicate Fitting(s: System) {
    (forall i :: GeneratorFits(s, i)) && forall k :: 0 <= k < |s.issued| ==> InRange(s.issued[k])
  }

  predicate NotLater(a: Info, b: Info) {
    a == b || Earlier(a.timestamp, a.sequence, b.timestamp, b.sequence)
  }

  /** Nothing issued for a node is later than its holder's last id. */
  ghost predicate UpToDate(s: System, i: int) {
    var p := PhaseOf(s, i);
    p.Holding? && p.started ==>
      forall k :: 0 <= k < |s.issued| && NodeOf(s.issued[k]) == p.node ==> NotLater(s.issued[k], p.gen.Last())
  }

  ghost predicate Distinct(s: System) {
    forall a, b :: 0 <= a < b < |s.issued| ==> s.issued[a] != s.issued[b]
  }

  ghost predicate Invariant(s: System) {
    Owned(s) && Fitting(s) && (forall i :: UpToDate(s, i)) && Distinct(s)
  }

  lemma OwnedKept(s: System, step: Step, i: int)
    requires Enabled(s, step) && Timely(s) && Owned(s)
    ensures OwnsKey(Apply(s, step), i)
  {
    assert OwnsKey(s, i);
    if !step.Tick? {
      assert OwnsKey(s, step.i);
      assert PhaseOf(s, i).Holding? ==> s.now < PhaseOf(s, i).beat + NODE_TTL;
    }
  }

  lemma FittingKept(s: System, step: Step)
    requires Enabled(s, step) && Orderly(s, step) && Fitting(s)
    ensures Fitting(Apply(s, step))
  {
    var t := Apply(s, step);
    if step.Generate? {
      assert GeneratorFits(s, step.i);
      GenerateAdvances(PhaseOf(s, step.i).gen, step.clock);
    }
    forall i ensures GeneratorFits(t, i) {
      assert GeneratorFits(s, i);
    }
  }

  /** A new id is later than everything issued for its node. */
  lemma NewIdIsLatest(s: System, i: int, clock: seq<int>, k: nat)
    requires Enabled(s, Generate(i, clock)) && Orderly(s, Generate(i, clock)) && Fitting(s) && UpToDate(s, i)
    requires NextId(PhaseOf(s, i).gen, clock).1.Id?
    requires k < |s.issued| && NodeOf(s.issued[k]) == PhaseOf(s, i).node
    ensures var next := NextId(PhaseOf(s, i).gen, clock).0.Last();
      Earlier(s.issued[k].timestamp, s.issued[k].sequence, next.timestamp, next.sequence)
  {
    assert GeneratorFits(s, i);
    GenerateAdvances(PhaseOf(s, i).gen, clock);
  }

  lemma IssuedKept(s: System, step: Step)
    requires Enabled(s, step) && Orderly(s, step) && Invariant(s)
    ensures Distinct(Apply(s, step)) && forall i :: UpToDate(Apply(s, step), i)
  {
    var t := Apply(s, step);
    if step.Generate? && NextId(PhaseOf(s, step.i).gen, step.clock).1.Id? {
      var me := step.i;
      var next := NextId(PhaseOf(s, me).gen, step.clock).0.Last();
      assert GeneratorFits(s, me) && UpToDate(s, me) && OwnsKey(s, me);
      GenerateAdvances(PhaseOf(s, me).gen, step.clock);
      assert t.issued == s.issued + [next];
      forall k | 0 <= k < |s.issued| ensures s.issued[k] != next {
        if NodeOf(s.issued[k]) == PhaseOf(s, me).node {
          NewIdIsLatest(s, me, step.clock, k);
        }
      }
      forall i ensures UpToDate(t, i) {
        IdLeavesUpToDate(s, step, i);
      }
    } else {
      forall i ensures UpToDate(t, i) {
        assert UpToDate(s, i);
        if step.Generate? {
          GenerateAdvances(PhaseOf(s, step.i).gen, step.clock) by { assert GeneratorFits(s, step.i); }
        }
      }
    }
  }

  lemma IdLeavesUpToDate(s: System, step: Step, i: int)
    requires Enabled(s, step) && Orderly(s, step) && Invariant(s)
    requires step.Generate? && NextId(PhaseOf(s, step.i).gen, step.clock).1.Id?
    ensures UpToDate(Apply(s, step), i)
  {
    var t, me := Apply(s, step), step.i;
    assert UpToDate(s, i) && UpToDate(s, me) && OwnsKey(s, i) && OwnsKey(s, me) && GeneratorFits(s, me);
    GenerateAdvances(PhaseOf(s, me).gen, step.clock);
    var p := PhaseOf(t, i);
    if p.Holding? && p.started {
      forall k | 0 <= k < |t.issued| && NodeOf(t.issued[k]) == p.node ensures NotLater(t.issued[k], p.gen.Last()) {
        if k < |s.issued| {
          if i == me {
            NewIdIsLatest(s, me, step.clock, k);
          }
        }
      }
    }
  }

  /** Every step of a run keeps the invariant. */
  lemma StepKeepsInvariant(s: System, step: Step)
    requires Enabled(s, step) && Timely(s) && Orderly(s, step) && Invariant(s)
    ensures Invariant(Apply(s, step))
  {
    forall i ensures OwnsKey(Apply(s, step), i) {
      OwnedKept(s, step, i);
    }
    FittingKept(s, step);
    IssuedKept(s, step);
  }

  lemma {:induction false} RunKeepsInvariant(states: seq<System>, steps: seq<Step>, k: nat)
    requires IsOrderlyRun(states, steps) && k < |states|
    ensures Invariant(states[k])
  {
    if k > 0 {
      RunKeepsInvariant(states, steps, k - 1);
      StepKeepsInvariant(states[k - 1], steps[k - 1]);
    }
  }

  // ---------------------------------------------------------------- main results

  lemma {:induction false} TimelyOwned(states: seq<System>, steps: seq<Step>, k: nat)
    requires IsTimelyRun(states, steps) && k < |states|
    ensures Owned(states[k])
  {
    if k > 0 {
      TimelyOwned(states, steps, k - 1);
      forall i ensures OwnsKey(states[k], i) {
        OwnedKept(states[k - 1], steps[k - 1], i);
      }
    }
  }

  /** In every state of every timely run, no two instances hold the same node. */
  lemma LeasesAreExclusive(states: seq<System>, steps: seq<Step>, k: nat, i: int, j: int, n: Node)
    requires IsTimelyRun(states, steps) && k < |states| && Holds(states[k], i, n) && Holds(states[k], j, n)
    ensures i == j && Live(states[k].leases, states[k].now, n) && states[k].leases[n].owner == i
  {
    TimelyOwned(states, steps, k);
    assert OwnsKey(states[k], i) && OwnsKey(states[k], j);
    assert states[k].now < PhaseOf(states[k], i).beat + NODE_TTL;
  }

  /**
   * In every timely run in which only holders generate and new holders start
   * later, all ids ever issued, by whatever instances, are different.
   */
  lemma IdsNeverCoincide(states: seq<System>, steps: seq<Step>, k: nat, a: nat, b: nat)
    requires IsOrderlyRun(states, steps) && k < |states| && a < b < |states[k].issued|
    ensures Pack(states[k].issued[a]) != Pack(states[k].issued[b])
  {
    RunKeepsInvariant(states, steps, k);
    if Pack(states[k].issued[a]) == Pack(states[k].issued[b]) {
      PackIsInjective(states[k].issued[a], states[k].issued[b]);
    }
  }

  /** A node is used again: after its holder releases it, or once the key of a crashed holder has expired. */
  lemma NodesAreReused(s: System, i: int, j: int, wait: nat)
    requires PhaseOf(s, i).Holding? && PhaseOf(s, j).Scanning? && PhaseOf(s, j).next < NODES
    requires NodeAt(PhaseOf(s, j).next) == PhaseOf(s, i).node && PhaseOf(s, i).node !in PhaseOf(s, j).occupied
    requires PhaseOf(s, i).node in s.leases ==> s.leases[PhaseOf(s, i).node].expires <= s.now + wait
    ensures var released := Apply(Apply(s, Release(i)), Try(j));
      Holds(released, j, PhaseOf(s, i).node) && !Holds(released, i, PhaseOf(s, i).node)
    ensures var crashed := Apply(Apply(Apply(s, Crash(i)), Tick(wait)), Try(j));
      Holds(crashed, j, PhaseOf(s, i).node) && !Holds(crashed, i, PhaseOf(s, i).node)
  {
    assert i != j;
  }

  /** Until its key has expired, the node of a crashed holder stays taken. */
  lemma CrashedNodeStaysTaken(s: System, i: int, j: int, wait: nat)
    requires PhaseOf(s, i).Holding? && PhaseOf(s, j).Scanning? && PhaseOf(s, j).next < NODES
    requires NodeAt(PhaseOf(s, j).next) == PhaseOf(s, i).node
    requires PhaseOf(s, i).node in s.leases && s.now + wait < s.leases[PhaseOf(s, i).node].expires
    ensures PhaseOf(Apply(Apply(Apply(s, Crash(i)), Tick(wait)), Try(j)), j).Scanning?
  {
  }

  // ---------------------------------------------------------------- every condition is needed

  /** A run, one step longer. */
  lemma Extend(states: seq<System>, steps: seq<Step>, step: Step)
    returns (longer: seq<System>, more: seq<Step>, last: System)
    requires IsRun(states, steps) && Enabled(states[|steps|], step)
    ensures IsRun(longer, more) && last == longer[|more|] == Apply(states[|steps|], step)
    ensures IsTimelyRun(states, steps) && Timely(last) ==> IsTimelyRun(longer, more)
  {
    last := Apply(states[|steps|], step);
    longer, more := states + [last], steps + [step];
  }

  /** A timely run in which an instance takes the first node. */
  lemma FirstHolder() returns (states: seq<System>, steps: seq<Step>)
    ensures IsTimelyRun(states, steps)
    ensures states[|steps|] == System(0, map[NodeAt(0) := Lease(0, NODE_TTL)], map[0 := NewHolding(NodeAt(0), 0)], [])
  {
    var s := System(0, map[], map[], []);
    states, steps := [s], [];
    states, steps, s := Extend(states, steps, Scan(0, {}));
    states, steps, s := Extend(states, steps, Try(0));
  }

  /**
   * Timely heartbeats are needed: after any wait without one, a second instance
   * that tries the node holds it as well if and only if the wait has reached the
   * time to live.
   */
  lemma ExpiredHolderIsDoubled(wait: nat) returns (states: seq<System>, steps: seq<Step>)
    ensures IsRun(states, steps) && Holds(states[|steps|], 0, NodeAt(0))
    ensures Holds(states[|steps|], 1, NodeAt(0)) <==> wait >= NODE_TTL
  {
    var s;
    states, steps := FirstHolder();
    states, steps, s := Extend(states, steps, Scan(1, {}));
    states, steps, s := Extend(states, steps, Tick(wait));
    assert s.leases == map[NodeAt(0) := Lease(0, NODE_TTL)] && s.now == wait;
    states, steps, s := Extend(states, steps, Try(1));
  }

  /** A heartbeat in time renews the holder's key for a whole time to live, and nothing else. */
  lemma BeatRenews(s: System, i: int)
    requires PhaseOf(s, i).Holding?
    ensures var n, t := PhaseOf(s, i).node, Apply(s, Beat(i));
      && Holds(t, i, n) && t.now == s.now && t.issued == s.issued
      && (forall j :: j != i ==> PhaseOf(t, j) == PhaseOf(s, j))
      && t.leases ==
           (if Live(s.leases, s.now, n) then s.leases[n := Lease(s.leases[n].owner, s.now + 60)] else s.leases)
  {
  }

  /** A holder that beats within the time to live keeps its node for ever, in timely runs of any length. */
  lemma {:induction false} BeatsHoldOn(wait: nat, rounds: nat) returns (states: seq<System>, steps: seq<Step>)
    requires wait < NODE_TTL
    ensures IsTimelyRun(states, steps) && states[|steps|].now == wait * rounds
    ensures states[|steps|].phases == map[0 := NewHolding(NodeAt(0), wait * rounds)]
    ensures states[|steps|].leases == map[NodeAt(0) := Lease(0, wait * rounds + NODE_TTL)]
  {
    if rounds == 0 {
      states, steps := FirstHolder();
    } else {
      var s;
      states, steps := BeatsHoldOn(wait, rounds - 1);
      states, steps, s := Extend(states, steps, Tick(wait));
      states, steps, s := Extend(states, steps, Beat(0));
      assert wait * rounds == wait * (rounds - 1) + wait;
    }
  }

  /** It issues one id and releases the node. */
  lemma FirstLife(reading: int) returns (states: seq<System>, steps: seq<Step>)
    requires reading > -1
    ensures IsTimelyRun(states, steps)
    ensures states[|steps|] ==
      System(0, map[], map[0 := Released(NodeAt(0), Generator(0, 0, 0, reading))], [Info(reading, 0, 0, 0)])
  {
    var s;
    states, steps := FirstHolder();
    states, steps, s := Extend(states, steps, Generate(0, [reading]));
    assert s.issued == [Info(reading, 0, 0, 0)] && s.leases == map[NodeAt(0) := Lease(0, NODE_TTL)];
    states, steps, s := Extend(states, steps, Release(0));
  }

  /** A second instance takes the same node. */
  lemma Handover(reading: int) returns (states: seq<System>, steps: seq<Step>, s: System)
    requires reading > -1
    ensures IsTimelyRun(states, steps) && s == states[|steps|] && Timely(s) && s.now == 0
    ensures s.phases == map[0 := Released(NodeAt(0), Generator(0, 0, 0, reading)), 1 := NewHolding(NodeAt(0), 0)]
    ensures s.issued == [Info(reading, 0, 0, 0)]
  {
    states, steps := FirstLife(reading);
    states, steps, s := Extend(states, steps, Scan(1, {}));
    states, steps, s := Extend(states, steps, Try(1));
  }

  /**
   * The later start is needed: in a timely run with a proper handover, a new
   * holder whose clock reads what the old one's last read repeats its id.
   */
  lemma LateClockRepeatsId(reading: int) returns (states: seq<System>, steps: seq<Step>)
    requires reading > -1
    ensures IsTimelyRun(states, steps)
    ensures var issued := states[|steps|].issued; |issued| == 2 && Pack(issued[0]) == Pack(issued[1])
  {
    var s;
    states, steps, s := Handover(reading);
    states, steps, s := Extend(states, steps, Generate(1, [reading]));
  }

  /**
   * Silence after the release is needed: in a timely run in which the new holder
   * starts later, the old instance, which still answers, repeats its id.
   */
  lemma ReleasedInstanceRepeatsId(reading: int) returns (states: seq<System>, steps: seq<Step>)
    requires reading > -1
    ensures IsTimelyRun(states, steps)
    ensures states[|steps|].issued == [Info(reading, 0, 0, 0), Info(reading + 1, 0, 0, 0), Info(reading + 1, 0, 0, 0)]
  {
    var s;
    states, steps, s := Handover(reading);
    states, steps, s := Extend(states, steps, Generate(1, [reading + 1]));
    assert PhaseOf(s, 0) == Released(NodeAt(0), Generator(0, 0, 0, reading)) && Timely(s);
    assert s.issued == [Info(reading, 0, 0, 0), Info(reading + 1, 0, 0, 0)];
    states, steps, s := Extend(states, steps, Generate(0, [reading + 1]));
  }

  // ---------------------------------------------------------------- the objects of one instance

  class Redis {
    var now: int
    var leases: Leases

    constructor (now: int, leases: Leases)
      ensures this.now == now && this.leases == leases
    {
      this.now, this.leases := now, leases;
    }
  }

  /** The next k steps of a scanning instance, while it is scanning. */
  function Tries(s: System, i: int, k: nat): System
    requires PhaseOf(s, i).Scanning?
  {
    if k == 0 then s
    else
      var t := Tries(s, i, k - 1);
      if PhaseOf(t, i).Scanning? then Apply(t, Try(i)) else t
  }

  /** The instance has scanned and passed over the first k nodes. */
  function Passed(s: System, i: int, occupied: set<Node>, k: nat): System {
    Enter(s, i, Scanning(occupied, k))
  }

  predicate Unavailable(s: System, occupied: set<Node>, k: nat) {
    NodeAt(k) in occupied || Live(s.leases, s.now, NodeAt(k))
  }

  lemma {:induction false} TriesPass(s: System, i: int, occupied: set<Node>, k: nat)
    requires k <= NODES && forall j :: 0 <= j < k ==> Unavailable(s, occupied, j)
    ensures Tries(Passed(s, i, occupied, 0), i, k) == Passed(s, i, occupied, k)
  {
    if k > 0 {
      TriesPass(s, i, occupied, k - 1);
      assert Unavailable(s, occupied, k - 1);
      var before, after := Scanning(occupied, k - 1), Scanning(occupied, k);
      assert s.phases[i := before][i := after] == s.phases[i := after];
    }
  }

  /** The tries end with the first node that is available, or with none. */
  lemma TriesEnd(s: System, i: int, occupied: set<Node>, k: nat)
    requires PhaseOf(s, i).Idle? && k <= NODES && forall j :: 0 <= j < k ==> Unavailable(s, occupied, j)
    requires k < NODES ==> !Unavailable(s, occupied, k)
    ensures var t := Tries(Apply(s, Scan(i, occupied)), i, k + 1);
      && t.now == s.now
      && PhaseOf(t, i) == (if k < NODES then NewHolding(NodeAt(k), s.now) else Stopped)
      && t.leases == if k < NODES then s.leases[NodeAt(k) := Lease(i, s.now + NODE_TTL)] else s.leases
  {
    TriesPass(s, i, occupied, k);
  }

  class SnowflakeNodeManager {
    const redis: Redis
    const instance: int
    var node: Option<Node>

    constructor (redis: Redis, instance: int)
      ensures this.redis == redis && this.instance == instance && node == None
    {
      this.redis, this.instance, node := redis, instance, None;
    }

    ghost predicate SameRedis(s: System)
      reads redis
    {
      redis.now == s.now && redis.leases == s.leases
    }

    /** Redis is as in the system, and a holding instance remembers the node it holds. */
    ghost predicate Realises(s: System)
      reads this, redis
    {
      SameRedis(s) && (PhaseOf(s, instance).Holding? ==> node == Some(PhaseOf(s, instance).node))
    }

    /**
     * acquire_node_id without interference: the first node, in order, that no
     * live key occupies; an error exactly when all nodes are occupied.  It
     * realises a scan and as many tries as it takes.
     */
    method AcquireNodeId(ghost s: System) returns (r: Result<Node, string>, ghost t: System)
      requires SameRedis(s) && PhaseOf(s, instance).Idle?
      modifies redis
      ensures redis.now == old(redis.now)
      ensures r.Ok? ==> exists k :: FirstFree(old(redis.leases), redis.now, k) && r.value == NodeAt(k)
      ensures r.Ok? ==> redis.leases == old(redis.leases)[r.value := Lease(instance, redis.now + NODE_TTL)]
      ensures r.Err? <==> forall j :: 0 <= j < NODES ==> old(Live(redis.leases, redis.now, NodeAt(j)))
      ensures r.Err? ==> redis.leases == old(redis.leases)
      ensures SameRedis(t) && exists occupied, k :: t == Tries(Apply(s, Scan(instance, occupied)), instance, k)
      ensures r.Ok? ==> PhaseOf(t, instance) == NewHolding(r.value, redis.now)
      ensures r.Err? ==> PhaseOf(t, instance).Stopped?
    {
      var occupied := set n | n in redis.leases && Live(redis.leases, redis.now, n);
      for datacenter := 0 to MAX_DATACENTER_ID + 1
        invariant SameRedis(s) && redis.leases == old(redis.leases)
        invariant forall j :: 0 <= j < 32 * datacenter ==> Live(redis.leases, redis.now, NodeAt(j))
      {
        for worker := 0 to MAX_WORKER_ID + 1
          invariant SameRedis(s) && redis.leases == old(redis.leases)
          invariant forall j :: 0 <= j < 32 * datacenter + worker ==> Live(redis.leases, redis.now, NodeAt(j))
        {
          ghost var k := 32 * datacenter + worker;
          assert NodeAt(k) == Node(datacenter, worker);
          if Node(datacenter, worker) !in occupied {
            var registered := Register(Node(datacenter, worker));
            if registered {
              assert FirstFree(old(redis.leases), redis.now, k);
              TriesEnd(s, instance, occupied, k);
              t := Tries(Apply(s, Scan(instance, occupied)), instance, k + 1);
              return Ok(Node(datacenter, worker)), t;
            }
          }
        }
      }
      TriesEnd(s, instance, occupied, NODES);
      t := Tries(Apply(s, Scan(instance, occupied)), instance, NODES + 1);
      r := Err("no snowflake node is available");
    }

    method Register(n: Node) returns (registered: bool)
      modifies redis
      ensures redis.now == old(redis.now)
      ensures registered == !old(Live(redis.leases, redis.now, n))
      ensures redis.leases ==
        if registered then old(redis.leases)[n := Lease(instance, redis.now + NODE_TTL)] else old(redis.leases)
    {
      var leases := SetNx(redis.leases, redis.now, n, instance);
      registered := leases.Some?;
      if registered {
        redis.leases := leases.value;
      }
    }

    /** After a successful acquisition. */
    method StartHeartbeat(n: Node, ghost s: System)
      requires SameRedis(s) && Holds(s, instance, n)
      modifies this
      ensures Realises(s) && node == Some(n)
    {
      node := Some(n);
    }

    /** One round of the heartbeat task is the step Beat of the system. */
    method Heartbeat(ghost s: System)
      requires Realises(s) && PhaseOf(s, instance).Holding?
      modifies redis
      ensures Realises(Apply(s, Beat(instance)))
    {
      redis.leases := Expire(redis.leases, redis.now, node.value);
    }

    /** The step Release of the system; without a node, nothing. */
    method Release(ghost s: System)
      requires Realises(s)
      modifies redis
      ensures PhaseOf(s, instance).Holding? ==> Realises(Apply(s, Step.Release(instance)))
      ensures old(node).None? ==> Realises(s)
    {
      if node.Some? {
        redis.leases := Delete(redis.leases, node.value);
      }
    }
  }

  /** A snowflake object with its node manager, from init to shutdown. */
  class Instance {
    const manager: SnowflakeNodeManager
    var generator: SnowflakeGenerator?

    constructor (redis: Redis, instance: int)
      ensures manager.redis == redis && manager.instance == instance && manager.node == None
      ensures generator == null && fresh(manager)
    {
      manager := new SnowflakeNodeManager(redis, instance);
      generator := null;
    }

    /** The manager realises the system, and there is a generator exactly in the phases with one, in its state. */
    ghost predicate Realises(s: System)
      reads this, manager, manager.redis, generator
    {
      && manager.Realises(s)
      && (PhaseOf(s, manager.instance).Idle? ==> manager.node == None)
      && (HasGenerator(PhaseOf(s, manager.instance)) <==> generator != null)
      && (generator != null ==> generator.State() == PhaseOf(s, manager.instance).gen)
    }

    /** init with ids from Redis: acquire a node, then start its heartbeat. */
    method Init(ghost s: System) returns (r: Result<(), string>, ghost t: System)
      requires Realises(s) && PhaseOf(s, manager.instance).Idle?
      modifies this, manager, manager.redis
      ensures Realises(t)
      ensures exists occupied, k :: t == Tries(Apply(s, Scan(manager.instance, occupied)), manager.instance, k)
      ensures if r.Ok? then PhaseOf(t, manager.instance).Holding? else PhaseOf(t, manager.instance).Stopped?
    {
      var node;
      node, t := manager.AcquireNodeId(s);
      if node.Err? {
        return Err(node.error), t;
      }
      manager.StartHeartbeat(node.value, t);
      generator := new SnowflakeGenerator(node.value.datacenter, node.value.worker);
      r := Ok(());
    }

    /** generate is the step Generate of the system, with the same outcome; before init it is refused. */
    method Generate(clock: seq<int>, ghost s: System) returns (r: Result<Outcome, string>)
      requires Realises(s)
      requires HasGenerator(PhaseOf(s, manager.instance)) ==> Enabled(s, Step.Generate(manager.instance, clock))
      modifies generator
      ensures r.Ok? <==> HasGenerator(PhaseOf(s, manager.instance))
      ensures r.Err? ==> Realises(s)
      ensures r.Ok? ==> Realises(Apply(s, Step.Generate(manager.instance, clock)))
      ensures r.Ok? ==> r.value == NextId(PhaseOf(s, manager.instance).gen, clock).1
    {
      if generator == null {
        return Err("snowflake is not initialised");
      }
      var outcome := generator.Generate(clock);
      r := Ok(outcome);
    }

    /** shutdown is the step Release of the system. */
    method Shutdown(ghost s: System)
      requires Realises(s) && PhaseOf(s, manager.instance).Holding?
      modifies manager.redis
      ensures Realises(Apply(s, Step.Release(manager.instance)))
    {
      manager.Release(s);
    }
  }
}
