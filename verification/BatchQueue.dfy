/**
 * Consuming a queue in batches (backend/common/queue.py), under any schedule of
 * arrivals, timeouts, handler failures and cancellation.
 */
module BatchQueue {
  /**
   * What the event loop does next: a producer puts an item; the collector is
   * resumed; the wait times out; getting an item fails; the handler returns or
   * raises; the consumer task is cancelled.
   */
  datatype Event<T> = Arrive(item: T) | Resume | Timeout | Fault | HandlerEnds(raised: bool) | Cancel

  datatype Phase = Collecting | Handling | Stopped

  /** The queue, the batch in hand, the batches whose handling has ended, and the calls of task_done. */
  datatype Consumer<T> = Consumer(
    contents: seq<T>, inHand: seq<T>, handled: seq<seq<T>>, done: nat, phase: Phase)

  function Finish<T>(c: Consumer<T>, next: Phase): Consumer<T> {
    Consumer(c.contents, [], c.handled + [c.inHand], c.done + |c.inHand|, next)
  }

  function Step<T>(c: Consumer<T>, maxItems: int, e: Event<T>): Consumer<T> {
    match e
    case Arrive(x) => c.(contents := c.contents + [x])
    case Resume =>
      if c.phase.Collecting? && c.contents != [] then
        var inHand := c.inHand + [c.contents[0]];
        c.(contents := c.contents[1..], inHand := inHand, phase := if |inHand| < maxItems then Collecting else Handling)
      else c
    case Timeout => if c.phase.Collecting? && c.inHand != [] then c.(phase := Handling) else c
    case Fault => if c.phase.Collecting? && c.inHand != [] then c.(phase := Handling) else c
    case HandlerEnds(_) => if c.phase.Handling? then Finish(c, Collecting) else c
    case Cancel =>
      if c.phase.Handling? then Finish(c, Stopped)
      else if c.phase.Collecting? then c.(phase := Stopped)
      else c
  }

  function Start<T>(contents: seq<T>): Consumer<T> {
    Consumer(contents, [], [], 0, Collecting)
  }

  function After<T>(c: Consumer<T>, maxItems: int, schedule: seq<Event<T>>, n: nat): Consumer<T>
    requires n <= |schedule|
  {
    if n == 0 then c else Step(After(c, maxItems, schedule, n - 1), maxItems, schedule[n - 1])
  }

  function Arrivals<T>(schedule: seq<Event<T>>, n: nat): seq<T>
    requires n <= |schedule|
  {
    if n == 0 then []
    else Arrivals(schedule, n - 1) + if schedule[n - 1].Arrive? then [schedule[n - 1].item] else []
  }

  function Concat<T>(batches: seq<seq<T>>): seq<T> {
    if batches == [] then [] else Concat(batches[..|batches| - 1]) + batches[|batches| - 1]
  }

  // ---------------------------------------------------------------- main results

  /** Everything the consumer has seen: handled batches, the batch in hand, the queue. */
  function Total<T>(c: Consumer<T>): seq<T> {
    Concat(c.handled) + c.inHand + c.contents
  }

  lemma FinishKeeps<T>(c: Consumer<T>, next: Phase)
    ensures Total(Finish(c, next)) == Total(c)
  {
    assert Finish(c, next).handled[..|c.handled|] == c.handled;
  }

  lemma StepKeeps<T>(c: Consumer<T>, maxItems: int, e: Event<T>)
    ensures Total(Step(c, maxItems, e)) == Total(c) + if e.Arrive? then [e.item] else []
  {
    FinishKeeps(c, Collecting);
    FinishKeeps(c, Stopped);
    if e.Resume? && c.phase.Collecting? && c.contents != [] {
      assert c.contents == [c.contents[0]] + c.contents[1..];
    }
  }

  /**
   * Conservation and order: at any point of any schedule, everything put so far
   * is, in order, the handled batches, then the batch in hand, then the queue.
   */
  lemma {:induction false} NothingLostOrReordered<T>(contents: seq<T>, maxItems: int, schedule: seq<Event<T>>, n: nat)
    requires n <= |schedule|
    ensures contents + Arrivals(schedule, n) == Total(After(Start(contents), maxItems, schedule, n))
  {
    if n > 0 {
      NothingLostOrReordered(contents, maxItems, schedule, n - 1);
      StepKeeps(After(Start(contents), maxItems, schedule, n - 1), maxItems, schedule[n - 1]);
    }
  }

  /** Batches are never empty and never too large, and every handled item is marked done exactly once. */
  lemma {:induction false} BatchesFit<T>(contents: seq<T>, maxItems: int, schedule: seq<Event<T>>, n: nat)
    requires n <= |schedule| && maxItems > 0
    ensures var c := After(Start(contents), maxItems, schedule, n);
      && (forall i :: 0 <= i < |c.handled| ==> 0 < |c.handled[i]| <= maxItems)
      && |c.inHand| <= maxItems && (c.phase.Handling? ==> c.inHand != [])
      && (c.phase.Collecting? ==> |c.inHand| < maxItems)
      && c.done == |Concat(c.handled)|
  {
    if n > 0 {
      BatchesFit(contents, maxItems, schedule, n - 1);
      var c := After(Start(contents), maxItems, schedule, n - 1);
      assert (c.handled + [c.inHand])[..|c.handled|] == c.handled;
    }
  }

  // ---------------------------------------------------------------- progress

  function Min(a: int, b: int): int {
    if a <= b then a else b
  }

  /** The consumer with the next m items in hand. */
  function Holding<T>(c: Consumer<T>, maxItems: int, m: nat): Consumer<T>
    requires m <= |c.contents|
  {
    var inHand := c.inHand + c.contents[..m];
    Consumer(c.contents[m..], inHand, c.handled, c.done, if |inHand| < maxItems then Collecting else Handling)
  }

  /** How many of the next items n resumptions take. */
  function Taken<T>(c: Consumer<T>, maxItems: int, n: nat): nat
    requires |c.inHand| < maxItems
  {
    Min(Min(n, |c.contents|), maxItems - |c.inHand|)
  }

  lemma ResumeTakes<T>(c: Consumer<T>, maxItems: int, n: nat)
    requires c.phase.Collecting? && |c.inHand| < maxItems
    ensures Step(Holding(c, maxItems, Taken(c, maxItems, n)), maxItems, Resume) ==
            Holding(c, maxItems, Taken(c, maxItems, n + 1))
  {
    var m := Taken(c, maxItems, n);
    var before := Holding(c, maxItems, m);
    if before.phase.Collecting? && before.contents != [] {
      assert c.contents[..m + 1] == c.contents[..m] + [before.contents[0]];
      assert before.inHand + [before.contents[0]] == c.inHand + c.contents[..m + 1];
    }
  }

  /** A collector that is resumed takes one item each time, in order, until its batch is full. */
  lemma {:induction false} ResumesCollect<T>(start: Consumer<T>, maxItems: int, schedule: seq<Event<T>>, from: nat,
                                             n: nat)
    requires from + n <= |schedule| && forall i :: from <= i < from + n ==> schedule[i].Resume?
    requires After(start, maxItems, schedule, from).phase.Collecting?
    requires |After(start, maxItems, schedule, from).inHand| < maxItems
    ensures var c := After(start, maxItems, schedule, from);
      After(start, maxItems, schedule, from + n) == Holding(c, maxItems, Taken(c, maxItems, n))
  {
    var c := After(start, maxItems, schedule, from);
    if n == 0 {
      assert c.contents[0..] == c.contents && c.inHand + c.contents[..0] == c.inHand;
    } else {
      ResumesCollect(start, maxItems, schedule, from, n - 1);
      ResumeTakes(c, maxItems, n - 1);
    }
  }

  /** As many resumptions as a batch holds, then the wait ends, then the handler. */
  ghost predicate IsRound<T>(schedule: seq<Event<T>>, maxItems: nat, from: nat) {
    && from + maxItems + 2 <= |schedule|
    && (forall i :: from <= i < from + maxItems ==> schedule[i].Resume?)
    && EndsWait(schedule[from + maxItems]) && schedule[from + maxItems + 1].HandlerEnds?
  }

  /** The first items are handled, as many as fit into a batch. */
  function OneRound<T>(c: Consumer<T>, maxItems: nat): Consumer<T> {
    var m := Min(|c.contents|, maxItems);
    Consumer(c.contents[m..], [], c.handled + (if m > 0 then [c.contents[..m]] else []), c.done + m, Collecting)
  }

  lemma RoundHandles<T>(start: Consumer<T>, maxItems: nat, schedule: seq<Event<T>>, from: nat)
    requires maxItems > 0 && IsRound(schedule, maxItems, from)
    requires After(start, maxItems, schedule, from).phase.Collecting?
    requires After(start, maxItems, schedule, from).inHand == []
    ensures After(start, maxItems, schedule, from + maxItems + 2) ==
            OneRound(After(start, maxItems, schedule, from), maxItems)
  {
    var c := After(start, maxItems, schedule, from);
    var m := Min(|c.contents|, maxItems);
    ResumesCollect(start, maxItems, schedule, from, maxItems);
    var full := After(start, maxItems, schedule, from + maxItems);
    assert full.inHand == c.contents[..m] && |full.inHand| == m;
    var waited := After(start, maxItems, schedule, from + maxItems + 1);
    assert waited == full.(phase := if m > 0 then Handling else Collecting);
  }

  ghost predicate AreRounds<T>(schedule: seq<Event<T>>, maxItems: nat, from: nat, rounds: nat)
    decreases rounds
  {
    rounds == 0 ||
    (IsRound(schedule, maxItems, from) && AreRounds(schedule, maxItems, from + maxItems + 2, rounds - 1))
  }

  /** The items cut into full batches, the last one perhaps excepted. */
  function Batches<T>(contents: seq<T>, maxItems: nat): (batches: seq<seq<T>>)
    requires maxItems > 0
    ensures forall i :: 0 <= i < |batches| - 1 ==> |batches[i]| == maxItems
    ensures contents != [] ==> batches != [] && 0 < |batches[|batches| - 1]| <= maxItems
  {
    if contents == [] then []
    else
      var m := Min(|contents|, maxItems);
      [contents[..m]] + Batches(contents[m..], maxItems)
  }

  /** Everything that was queued has been handled, in full batches. */
  function Drained<T>(c: Consumer<T>, maxItems: nat): Consumer<T>
    requires maxItems > 0
  {
    Consumer([], [], c.handled + Batches(c.contents, maxItems), c.done + |c.contents|, Collecting)
  }

  lemma DrainedAfterRound<T>(c: Consumer<T>, maxItems: nat)
    requires maxItems > 0 && c.contents != []
    ensures Drained(OneRound(c, maxItems), maxItems) == Drained(c, maxItems)
    ensures |OneRound(c, maxItems).contents| < |c.contents|
  {
    var m := Min(|c.contents|, maxItems);
    assert c.handled + [c.contents[..m]] + Batches(c.contents[m..], maxItems) ==
      c.handled + Batches(c.contents, maxItems);
  }

  /** Progress: after enough rounds without arrivals the queue is empty, its items handled in full batches. */
  lemma {:induction false} RoundsDrain<T>(start: Consumer<T>, maxItems: nat, schedule: seq<Event<T>>, from: nat,
                                          rounds: nat) returns (end: nat)
    requires maxItems > 0 && from <= |schedule| && AreRounds(schedule, maxItems, from, rounds)
    requires After(start, maxItems, schedule, from).phase.Collecting?
    requires After(start, maxItems, schedule, from).inHand == []
    requires |After(start, maxItems, schedule, from).contents| <= rounds
    ensures from <= end <= |schedule|
    ensures After(start, maxItems, schedule, end) == Drained(After(start, maxItems, schedule, from), maxItems)
    decreases rounds
  {
    var c := After(start, maxItems, schedule, from);
    if c.contents == [] {
      end := from;
      assert c.handled + [] == c.handled;
    } else {
      RoundHandles(start, maxItems, schedule, from);
      DrainedAfterRound(c, maxItems);
      end := RoundsDrain(start, maxItems, schedule, from + maxItems + 2, rounds - 1);
    }
  }

  /** Cancellation ends the consumer; a batch that is being handled is still marked done. */
  lemma CancelStops<T>(c: Consumer<T>, maxItems: int)
    requires !c.phase.Stopped?
    ensures var d := Step(c, maxItems, Cancel);
      && d.phase.Stopped? && d.contents == c.contents
      && (c.phase.Handling? ==> d.handled == c.handled + [c.inHand] && d.done == c.done + |c.inHand| && d.inHand == [])
      && (c.phase.Collecting? ==> d.handled == c.handled && d.done == c.done && d.inHand == c.inHand)
  {
  }

  /** After that only the queue grows. */
  lemma {:induction false} StoppedStays<T>(start: Consumer<T>, maxItems: int, schedule: seq<Event<T>>, from: nat,
                                           n: nat)
    requires from + n <= |schedule| && After(start, maxItems, schedule, from).phase.Stopped?
    ensures var c, d := After(start, maxItems, schedule, from), After(start, maxItems, schedule, from + n);
      c.contents <= d.contents && d == c.(contents := d.contents)
  {
    if n > 0 {
      StoppedStays(start, maxItems, schedule, from, n - 1);
    }
  }

  // ---------------------------------------------------------------- the queue and its consumer

  class Queue<T> {
    var contents: seq<T>
    var unfinished: nat

    constructor ()
      ensures contents == [] && unfinished == 0
    {
      contents, unfinished := [], 0;
    }

    method Put(x: T)
      modifies this
      ensures contents == old(contents) + [x] && unfinished == old(unfinished) + 1
    {
      contents := contents + [x];
      unfinished := unfinished + 1;
    }

    method Get() returns (x: T)
      requires contents != []
      modifies this
      ensures [x] + contents == old(contents) && unfinished == old(unfinished)
    {
      x := contents[0];
      contents := contents[1..];
    }

    method TaskDone()
      requires unfinished > 0
      modifies this
      ensures contents == old(contents) && unfinished == old(unfinished) - 1
    {
      unfinished := unfinished - 1;
    }
  }

  /** Items that were put and neither handled nor counted as unfinished before. */
  ghost predicate Counts<T>(q: Queue<T>, c: Consumer<T>)
    reads q
  {
    q.contents == c.contents && q.unfinished == |c.contents| + |c.inHand|
  }

  /**
   * batch_dequeue: collect until the batch is full, the wait times out or
   * fails, or the task is cancelled; `next` is the first event not used.  A
   * batch of at most nothing is collected at once.
   */
  method BatchDequeue<T>(q: Queue<T>, maxItems: int, schedule: seq<Event<T>>, from: nat, ghost c: Consumer<T>)
    returns (items: seq<T>, next: nat, cancelled: bool, ghost d: Consumer<T>)
    requires from < |schedule|
    requires Counts(q, After(c, maxItems, schedule, from))
    requires After(c, maxItems, schedule, from).phase.Collecting? && After(c, maxItems, schedule, from).inHand == []
    modifies q
    ensures from <= next <= |schedule| && d == After(c, maxItems, schedule, next) && Counts(q, d)
    ensures maxItems > 0 || items != [] ==> from < next
    ensures d.inHand == items && d.handled == After(c, maxItems, schedule, from).handled
    ensures cancelled <==> d.phase.Stopped?
    ensures !cancelled && d.phase.Collecting? ==> next == |schedule| || items == []
    ensures d.phase.Handling? <==> !cancelled && items != [] && (|items| >= maxItems || EndsWait(schedule[next - 1]))
  {
    items := [];
    next := from;
    cancelled := false;
    d := After(c, maxItems, schedule, from);
    var waiting := true;
    while |items| < maxItems && waiting && next < |schedule|
      invariant from <= next <= |schedule| && d == After(c, maxItems, schedule, next) && Counts(q, d)
      invariant d.inHand == items && d.handled == After(c, maxItems, schedule, from).handled
      invariant cancelled <==> d.phase.Stopped?
      invariant waiting ==> next == from || from < next
      invariant waiting ==> d.phase == if |items| < maxItems || items == [] then Collecting else Handling
      invariant !waiting ==> from < next && |items| < maxItems && (cancelled || EndsWait(schedule[next - 1]))
      invariant !waiting && !cancelled ==> d.phase == if items == [] then Collecting else Handling
      invariant waiting && from < next && |items| < maxItems ==> !EndsWait(schedule[next - 1])
      invariant next == from ==> items == [] && waiting
      decreases |schedule| - next
    {
      match schedule[next] {
        case Arrive(x) => q.Put(x);
        case Resume =>
          if q.contents != [] {
            var item := q.Get();
            items := items + [item];
          }
        case Timeout => waiting := false;
        case Fault => waiting := false;
        case HandlerEnds(_) =>
        case Cancel => waiting, cancelled := false, true;
      }
      next := next + 1;
      d := After(c, maxItems, schedule, next);
    }
  }

  /**
   * batch_consume from the start of a schedule.  The consumer object follows
   * the state machine: what it handled, holds and leaves in the queue is what
   * After says, and task_done has been called once per handled item.
   */
  method BatchConsume<T>(q: Queue<T>, maxItems: int, schedule: seq<Event<T>>)
    returns (handled: seq<seq<T>>, inHand: seq<T>)
    requires maxItems > 0 && q.unfinished == |q.contents|
    modifies q
    ensures var c := After(Start(old(q.contents)), maxItems, schedule, |schedule|);
      && handled == c.handled && inHand == c.inHand && q.contents == c.contents
      && q.unfinished == |c.contents| + |c.inHand|
  {
    ghost var c := Start(q.contents);
    ghost var d := c;
    handled, inHand := [], [];
    var next := 0;
    var stopped := false;
    while next < |schedule| && !stopped
      invariant next <= |schedule| && d == After(c, maxItems, schedule, next) && Counts(q, d)
      invariant handled == d.handled && inHand == d.inHand
      invariant stopped <==> d.phase.Stopped?
      invariant !stopped && next < |schedule| ==> d.phase.Collecting? && inHand == []
      decreases |schedule| - next, !stopped
    {
      inHand, next, stopped, d := BatchDequeue(q, maxItems, schedule, next, c);
      if inHand == [] || stopped || (|inHand| < maxItems && next == |schedule| && !EndsWait(schedule[next - 1])) {
        continue;
      }
      var ended := false;
      while next < |schedule| && !ended
        invariant next <= |schedule| && d == After(c, maxItems, schedule, next)
        invariant !ended ==> d.phase.Handling? && d.inHand == inHand && d.handled == handled && Counts(q, d)
        invariant ended ==> d.inHand == [] && d.handled == handled + [inHand]
        invariant ended ==> q.contents == d.contents && q.unfinished == |d.contents| + |inHand|
        invariant ended ==> d.phase == if stopped then Stopped else Collecting
        invariant !ended ==> !stopped
      {
        match schedule[next] {
          case Arrive(x) => q.Put(x);
          case HandlerEnds(_) => ended := true;
          case Cancel => ended, stopped := true, true;
          case _ =>
        }
        next := next + 1;
        d := After(c, maxItems, schedule, next);
      }
      if ended {
        for i := 0 to |inHand|
          invariant q.contents == d.contents && q.unfinished == |d.contents| + |inHand| - i
        {
          q.TaskDone();
        }
        handled := handled + [inHand];
        inHand := [];
      }
    }
    while next < |schedule|
      invariant next <= |schedule| && d == After(c, maxItems, schedule, next) && Counts(q, d)
      invariant handled == d.handled && inHand == d.inHand
      invariant next < |schedule| ==> d.phase.Stopped?
    {
      match schedule[next] {
        case Arrive(x) => q.Put(x);
        case _ =>
      }
      next := next + 1;
      d := After(c, maxItems, schedule, next);
    }
  }

  predicate EndsWait<T>(e: Event<T>) {
    e.Timeout? || e.Fault?
  }
}
