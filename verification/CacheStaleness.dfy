/**
 * How old a value served by the two-level cache can be
 * (backend/common/cache/decorator.py and local.py), over all interleavings of
 * reads, refills, invalidations, evictions and lost messages on any number of
 * nodes.
 */
module CacheStaleness {
  import opened Wrappers

  /**
   * The times to live of the local and of the Redis cache, a bound on the time
   * between the return of a call and the SET of its value in Redis, and one on
   * the time between Redis answering a GET and the local refill.
   */
  datatype Config = Config(localTtl: nat, redisTtl: nat, storeDelay: nat, refillDelay: nat)

  /** A cached value: when the call of the function that gave it returned, and when the entry expires. */
  datatype Entry = Entry(since: real, expires: real)

  /** Where a reading task is between two awaits. */
  datatype Task =
    | AskingRedis(node: int, key: string)
    | Answered(node: int, key: string, since: real, at: real)
    | Calling(node: int, key: string)
    | StoringInRedis(key: string, since: real)

  datatype State = State(
    now: real,
    local: map<(int, string), Entry>,
    redis: map<string, Entry>,
    tasks: map<int, Task>)

  /**
   * Steps of the readers, and what anything else may do: time passes and
   * entries disappear.  Evictions, invalidations by prefix and invalidation
   * messages, processed early, late or never, are runs of Drop steps; a node
   * without a local cache is one whose entries are dropped at once.
   */
  datatype Step =
    | Tick(duration: real)
    | DropLocal(node: int, key: string)
    | DropRedis(key: string)
    | ReadLocal(task: int, node: int, key: string)
    | RedisAnswers(task: int, fails: bool)
    | Refill(task: int)
    | CallReturns(task: int, cacheable: bool)
    | RedisStores(task: int, fails: bool)

  /** What a step serves: a value returned by a call at that time. */
  type Served = Option<real>

  predicate Enabled(s: State, step: Step) {
    match step
    case Tick(d) => d >= 0.0
    case ReadLocal(t, _, _) => t !in s.tasks
    case RedisAnswers(t, _) => t in s.tasks && s.tasks[t].AskingRedis?
    case Refill(t) => t in s.tasks && s.tasks[t].Answered?
    case CallReturns(t, _) => t in s.tasks && s.tasks[t].Calling?
    case RedisStores(t, _) => t in s.tasks && s.tasks[t].StoringInRedis?
    case _ => true
  }

  function Apply(c: Config, s: State, step: Step): (State, Served)
    requires Enabled(s, step)
  {
    match step
    case Tick(d) => (s.(now := s.now + d), None)
    case DropLocal(n, k) => (s.(local := s.local - {(n, k)}), None)
    case DropRedis(k) => (s.(redis := s.redis - {k}), None)
    case ReadLocal(t, n, k) =>
      if (n, k) in s.local && s.now < s.local[(n, k)].expires then (s, Some(s.local[(n, k)].since))
      else (s.(tasks := s.tasks[t := AskingRedis(n, k)]), None)
    case RedisAnswers(t, fails) =>
      var task := s.tasks[t];
      if !fails && task.key in s.redis && s.now < s.redis[task.key].expires then
        (s.(tasks := s.tasks[t := Answered(task.node, task.key, s.redis[task.key].since, s.now)]), None)
      else (s.(tasks := s.tasks[t := Calling(task.node, task.key)]), None)
    case Refill(t) =>
      var task := s.tasks[t];
      (s.(local := s.local[(task.node, task.key) := Entry(task.since, s.now + c.localTtl as real)],
          tasks := s.tasks - {t}),
       Some(task.since))
    case CallReturns(t, cacheable) =>
      var task := s.tasks[t];
      if cacheable then
        (s.(local := s.local[(task.node, task.key) := Entry(s.now, s.now + c.localTtl as real)],
            tasks := s.tasks[t := StoringInRedis(task.key, s.now)]),
         Some(s.now))
      else (s.(tasks := s.tasks - {t}), Some(s.now))
    case RedisStores(t, fails) =>
      var task := s.tasks[t];
      if fails then (s.(tasks := s.tasks - {t}), None)
      else
        var entry := Entry(task.since, s.now + c.redisTtl as real);
        (s.(redis := s.redis[task.key := entry], tasks := s.tasks - {t}), None)
  }

  /**
   * What is lost or failed is not served: a dropped local entry sends the reader
   * to Redis, a dropped Redis entry or a failing GET to the function, and a
   * failing SET or a result that cannot be cached leaves no entry behind.
   */
  lemma LossesAreMisses(c: Config, s: State, t: int, n: int, k: string)
    ensures t !in s.tasks ==>
      var after := Apply(c, s, DropLocal(n, k)).0;
      Apply(c, after, ReadLocal(t, n, k)) == (after.(tasks := s.tasks[t := AskingRedis(n, k)]), None)
    ensures t in s.tasks && s.tasks[t] == AskingRedis(n, k) ==>
      var after := Apply(c, s, DropRedis(k)).0;
      && Apply(c, after, RedisAnswers(t, false)) == (after.(tasks := s.tasks[t := Calling(n, k)]), None)
      && Apply(c, s, RedisAnswers(t, true)) == (s.(tasks := s.tasks[t := Calling(n, k)]), None)
    ensures t in s.tasks && s.tasks[t].StoringInRedis? ==>
      Apply(c, s, RedisStores(t, true)) == (s.(tasks := s.tasks - {t}), None)
    ensures t in s.tasks && s.tasks[t].Calling? ==>
      Apply(c, s, CallReturns(t, false)) == (s.(tasks := s.tasks - {t}), Some(s.now))
  {
  }

  // ---------------------------------------------------------------- the bound

  function Window(c: Config): nat {
    c.localTtl + c.redisTtl + c.storeDelay + c.refillDelay
  }

  /** No task has waited longer than its bound. */
  predicate InTime(c: Config, now: real, task: Task) {
    match task
    case Answered(_, _, _, at) => now <= at + c.refillDelay as real
    case StoringInRedis(_, since) => now <= since + c.storeDelay as real
    case _ => true
  }

  ghost predicate Prompt(c: Config, s: State) {
    forall t :: t in s.tasks ==> InTime(c, s.now, s.tasks[t])
  }

  predicate Initial(s: State) {
    s.local == map[] && s.redis == map[] && s.tasks == map[]
  }

  ghost predicate Moves(c: Config, s: State, step: Step, t: State) {
    Prompt(c, s) && Enabled(s, step) && t == Apply(c, s, step).0 && Prompt(c, t)
  }

  ghost predicate IsRun(c: Config, states: seq<State>, steps: seq<Step>) {
    && |states| == |steps| + 1
    && Initial(states[0])
    && forall i :: 0 <= i < |steps| ==> Moves(c, states[i], steps[i], states[i + 1])
  }

  /** A Redis entry lives its own time from the SET; a local one a refill and its own time longer. */
  predicate RedisBound(c: Config, now: real, e: Entry) {
    e.expires <= e.since + (c.storeDelay + c.redisTtl) as real && e.since <= now
  }

  predicate LocalBound(c: Config, now: real, e: Entry) {
    e.expires <= e.since + Window(c) as real && e.since <= now
  }

  predicate TaskBound(c: Config, now: real, task: Task) {
    match task
    case Answered(_, _, since, at) => at < since + (c.storeDelay + c.redisTtl) as real && since <= now
    case StoringInRedis(_, since) => since <= now
    case _ => true
  }

  ghost predicate Bounded(c: Config, s: State) {
    && (forall k :: k in s.redis ==> RedisBound(c, s.now, s.redis[k]))
    && (forall t :: t in s.tasks ==> TaskBound(c, s.now, s.tasks[t]))
    && (forall p :: p in s.local ==> LocalBound(c, s.now, s.local[p]))
  }

  lemma StepKeepsBounded(c: Config, s: State, step: Step)
    requires Enabled(s, step) && Bounded(c, s) && Prompt(c, s)
    ensures Bounded(c, Apply(c, s, step).0)
  {
    if step.Refill? || step.RedisStores? {
      assert InTime(c, s.now, s.tasks[step.task]) && TaskBound(c, s.now, s.tasks[step.task]);
    } else if step.RedisAnswers? && s.tasks[step.task].key in s.redis {
      assert RedisBound(c, s.now, s.redis[s.tasks[step.task].key]);
    }
  }

  lemma {:induction false} RunKeepsBounded(c: Config, states: seq<State>, steps: seq<Step>, i: nat)
    requires IsRun(c, states, steps) && i < |states|
    ensures Bounded(c, states[i])
  {
    if i > 0 {
      RunKeepsBounded(c, states, steps, i - 1);
      assert Moves(c, states[i - 1], steps[i - 1], states[i]);
      StepKeepsBounded(c, states[i - 1], steps[i - 1]);
    }
  }

  /**
   * Bounded staleness.  In every run, whatever a reader is served was returned
   * by a real call less than both times to live and both delays ago.
   */
  lemma ServedValuesAreRecent(c: Config, states: seq<State>, steps: seq<Step>, i: nat)
    requires IsRun(c, states, steps) && i < |steps| && c.redisTtl > 0
    requires Enabled(states[i], steps[i]) && Apply(c, states[i], steps[i]).1.Some?
    ensures 0.0 <= states[i].now - Apply(c, states[i], steps[i]).1.value < Window(c) as real
  {
    RunKeepsBounded(c, states, steps, i);
    assert Moves(c, states[i], steps[i], states[i + 1]);
  }

  // ---------------------------------------------------------------- and no better one

  /** Some run ends by serving a value of this age. */
  ghost predicate Serves(c: Config, age: real) {
    exists states: seq<State>, steps: seq<Step> :: IsRun(c, states, steps) && EndsServing(c, states, steps, age)
  }

  ghost predicate EndsServing(c: Config, states: seq<State>, steps: seq<Step>, age: real) {
    && |states| == |steps| + 1 > 1
    && Enabled(states[|steps| - 1], steps[|steps| - 1])
    && var served := Apply(c, states[|steps| - 1], steps[|steps| - 1]).1;
       served.Some? && states[|steps| - 1].now - served.value == age
  }

  /** A run, one step longer. */
  lemma Extend(c: Config, states: seq<State>, steps: seq<Step>, step: Step)
    returns (longer: seq<State>, more: seq<Step>, last: State)
    requires IsRun(c, states, steps) && Enabled(states[|steps|], step)
    requires Prompt(c, states[|steps|]) && Prompt(c, Apply(c, states[|steps|], step).0)
    ensures IsRun(c, longer, more) && more == steps + [step]
    ensures last == Apply(c, states[|steps|], step).0 == longer[|more|]
    ensures EndsWith(c, longer, more, states[|steps|])
  {
    last := Apply(c, states[|steps|], step).0;
    longer, more := states + [last], steps + [step];
    forall i | 0 <= i < |more| ensures Moves(c, longer[i], more[i], longer[i + 1]) {
      if i < |steps| {
        assert Moves(c, states[i], steps[i], states[i + 1]);
      }
    }
  }

  ghost predicate EndsWith(c: Config, states: seq<State>, steps: seq<Step>, before: State) {
    |states| == |steps| + 1 > 1 && states[|steps| - 1] == before
  }

  /** A run in which a call returns a value at time 0. */
  lemma Returned(c: Config) returns (states: seq<State>, steps: seq<Step>, s: State)
    ensures IsRun(c, states, steps) && s == states[|steps|]
    ensures s.now == 0.0 && s.tasks == map[0 := StoringInRedis("", 0.0)] && (1, "") !in s.local && s.redis == map[]
  {
    s := State(0.0, map[], map[], map[]);
    states, steps := [s], [];
    states, steps, s := Extend(c, states, steps, ReadLocal(0, 0, ""));
    states, steps, s := Extend(c, states, steps, RedisAnswers(0, false));
    states, steps, s := Extend(c, states, steps, CallReturns(0, true));
  }

  /** It is put in Redis late. */
  lemma StoredLate(c: Config, at: real) returns (states: seq<State>, steps: seq<Step>, s: State)
    requires 0.0 <= at <= c.storeDelay as real
    ensures IsRun(c, states, steps) && s == states[|steps|]
    ensures s.now == at && s.tasks == map[] && (1, "") !in s.local
    ensures s.redis == map["" := Entry(0.0, at + c.redisTtl as real)]
  {
    states, steps, s := Returned(c);
    states, steps, s := Extend(c, states, steps, Tick(at));
    states, steps, s := Extend(c, states, steps, RedisStores(0, false));
  }

  /** Another node asks Redis for it shortly before it expires there. */
  lemma AskedLate(c: Config, stored: real, wait: real) returns (states: seq<State>, steps: seq<Step>, s: State)
    requires 0.0 <= stored <= c.storeDelay as real && 0.0 <= wait < c.redisTtl as real
    ensures IsRun(c, states, steps) && s == states[|steps|]
    ensures s.now == stored + wait && s.tasks == map[1 := Answered(1, "", 0.0, stored + wait)] && (1, "") !in s.local
  {
    states, steps, s := StoredLate(c, stored);
    states, steps, s := Extend(c, states, steps, Tick(wait));
    states, steps, s := Extend(c, states, steps, ReadLocal(1, 1, ""));
    states, steps, s := Extend(c, states, steps, RedisAnswers(1, false));
  }

  /** It puts the value in its local cache late, and reads it from there before it expires again. */
  lemma ServedLate(c: Config, stored: real, wait: real, delay: real, kept: real)
    requires 0.0 <= stored <= c.storeDelay as real && 0.0 <= wait < c.redisTtl as real
    requires 0.0 <= delay <= c.refillDelay as real && 0.0 <= kept < c.localTtl as real
    ensures Serves(c, stored + wait + delay + kept)
  {
    var states, steps, s := AskedLate(c, stored, wait);
    states, steps, s := Extend(c, states, steps, Tick(delay));
    states, steps, s := Extend(c, states, steps, Refill(1));
    states, steps, s := Extend(c, states, steps, Tick(kept));
    assert s.tasks == map[];
    assert s.local[(1, "")] == Entry(0.0, stored + wait + delay + c.localTtl as real);
    assert Apply(c, s, ReadLocal(2, 1, "")) == (s, Some(0.0));
    states, steps, s := Extend(c, states, steps, ReadLocal(2, 1, ""));
    assert EndsServing(c, states, steps, stored + wait + delay + kept);
  }

  /** Any slack left below three limits can be taken from them, something from both the first and the second. */
  lemma Distribute(slack: real, first: real, second: real, third: real) returns (a: real, b: real, c: real)
    requires first > 0.0 && second > 0.0 && third >= 0.0 && 0.0 < slack <= first + second + third
    ensures a + b + c == slack
    ensures 0.0 < a <= first && 0.0 < b <= second && 0.0 <= c <= third
  {
    var both := if slack < first + second then slack else first + second;
    c := slack - both;
    a := if both / 2.0 > first then first else if both / 2.0 > second then both - second else both / 2.0;
    b := both - a;
  }

  /** The bound cannot be improved: every age below it is served in some run. */
  lemma EveryAgeIsServed(c: Config, age: real)
    requires c.redisTtl > 0 && c.localTtl > 0 && 0.0 <= age < Window(c) as real
    ensures Serves(c, age)
  {
    var redis, local := c.redisTtl as real, c.localTtl as real;
    var store, refill := c.storeDelay as real, c.refillDelay as real;
    var x, y, z := Distribute(redis + local + (store + refill) - age, redis, local, store + refill);
    var late := if z < store then store - z else 0.0;
    ServedLate(c, late, redis - x, store + refill - z - late, local - y);
    assert late + (redis - x) + (store + refill - z - late) + (local - y) == age;
  }

  /** The ages at which cached values are served are exactly those below the sum of the four times. */
  lemma AgesServed(c: Config, age: real)
    requires c.redisTtl > 0 && c.localTtl > 0
    ensures Serves(c, age) <==> 0.0 <= age < Window(c) as real
  {
    if Serves(c, age) {
      var states, steps :| IsRun(c, states, steps) && EndsServing(c, states, steps, age);
      ServedValuesAreRecent(c, states, steps, |steps| - 1);
    } else if 0.0 <= age < Window(c) as real {
      EveryAgeIsServed(c, age);
    }
  }
}
