/**
 * Locking an account after failed logins
 * (backend/app/admin/service/user_password_history_service.py and user_verify
 * in backend/app/admin/service/auth_service.py), for one user.
 *
 * Every Redis command and every clock reading of an attempt happens at its own
 * time.  The main result bounds the rate of password checks that can fail.
 */
module Lockout {
  import opened Wrappers

  /** Times are in microseconds. */
  const SECOND := 1_000_000

  /** USER_LOCK_THRESHOLD and USER_LOCK_SECONDS; SETEX needs a positive time. */
  datatype Config = Config(threshold: int, lockSeconds: int)
  {
    predicate Valid() {
      threshold >= 0 && lockSeconds >= 1
    }

    function Lock(): int {
      lockSeconds * SECOND
    }

    /** The lock time less the second that formatting its end may lose. */
    function Span(): int {
      (lockSeconds - 1) * SECOND
    }
  }

  datatype Key = Key(value: int, expires: int)

  /** The failure counter and the lock, whose value is the formatted end of the lock. */
  datatype Store = Store(failure: Option<Key>, lock: Option<Key>)

  const EMPTY := Store(None, None)

  /** GET at a time: expired keys are gone. */
  function Get(key: Option<Key>, time: int): Option<int> {
    if key.Some? && time < key.value.expires then Some(key.value.value) else None
  }

  /** to_str drops the fraction of a second. */
  function ToStr(time: int): int {
    time / SECOND * SECOND
  }

  datatype Password = Wrong | RightButExpired | Right

  datatype Account = Unknown | Disabled | Active

  /** One call of user_verify, with what it finds and the times of its commands. */
  datatype Attempt = Attempt(
    account: Account, password: Password,
    getLock: int, checkNow: int,
    getFailure: int, setFailure: int, lockNow: int, setLock: int)
  {
    predicate InOrder() {
      getLock <= checkNow <= getFailure <= setFailure <= lockNow <= setLock
    }
  }

  datatype Verdict =
    | NoSuchUser | UserDisabled | Locked(minutes: int)
    | Failed | FailedAndLocked | PasswordExpired | Verified

  // ---------------------------------------------------------------- the three operations

  function Checked(s: Store, enabled: bool, getLock: int, now: int): (Store, Option<Verdict>) {
    var until := Get(s.lock, getLock);
    if !enabled then (s, Some(UserDisabled))
    else if until.None? then (s, None)
    else if until.value > now then (s, Some(Locked((until.value - now + 60 * SECOND - 1) / (60 * SECOND))))
    else (EMPTY, None)
  }

  function AfterFailure(c: Config, s: Store, a: Attempt): (Store, Verdict) {
    if c.threshold == 0 then (s, Failed)
    else
      var count := (match Get(s.failure, a.getFailure) case None => 0 case Some(n) => n) + 1;
      var failure := Some(Key(count, a.setFailure + c.Lock()));
      if count >= c.threshold then
        (Store(failure, Some(Key(ToStr(a.lockNow + c.Lock()), a.setLock + c.Lock()))), FailedAndLocked)
      else (Store(failure, s.lock), Failed)
  }

  function Verify(c: Config, s: Store, a: Attempt): (Store, Verdict) {
    if a.account.Unknown? then (s, NoSuchUser)
    else
      var (checked, refusal) := Checked(s, a.account.Active?, a.getLock, a.checkNow);
      if refusal.Some? then (checked, refusal.value)
      else
        match a.password
        case Wrong => AfterFailure(c, checked, a)
        case RightButExpired => (checked, PasswordExpired)
        case Right => (EMPTY, Verified)
  }

  // ---------------------------------------------------------------- what one attempt means

  /** A lock is stored, and its end is still to come when the clock is read. */
  predicate InForce(s: Store, a: Attempt) {
    s.lock.Some? && a.getLock < s.lock.value.expires && a.checkNow < s.lock.value.value
  }

  /** A lock is stored whose end has come: it is forgotten, with the failures. */
  predicate Ended(s: Store, a: Attempt) {
    s.lock.Some? && a.getLock < s.lock.value.expires && s.lock.value.value <= a.checkNow
  }

  /** The password is compared. */
  predicate Compares(s: Store, a: Attempt) {
    a.account.Active? && !InForce(s, a)
  }

  /** The failures that still count against this attempt. */
  function Prior(s: Store, a: Attempt): int {
    if s.failure.Some? && !Ended(s, a) && a.getFailure < s.failure.value.expires then s.failure.value.value else 0
  }

  /** Which attempt gets which verdict, for any threshold. */
  ghost predicate Judged(c: Config, s: Store, a: Attempt, v: Verdict) {
    && (v.NoSuchUser? <==> a.account.Unknown?)
    && (v.UserDisabled? <==> a.account.Disabled?)
    && (v.Locked? <==> a.account.Active? && InForce(s, a))
    && (v.Locked? ==>
         (v.minutes - 1) * 60 * SECOND < s.lock.value.value - a.checkNow <= v.minutes * 60 * SECOND)
    && (v.Verified? <==> Compares(s, a) && a.password.Right?)
    && (v.PasswordExpired? <==> Compares(s, a) && a.password.RightButExpired?)
    && (v.FailedAndLocked? <==>
         Compares(s, a) && a.password.Wrong? && c.threshold != 0 && c.threshold <= Prior(s, a) + 1)
    && (v.Failed? <==>
         Compares(s, a) && a.password.Wrong? && (c.threshold == 0 || Prior(s, a) + 1 < c.threshold))
  }

  /** What the attempt leaves: nothing after a success, one failure more after a failure, else what was there. */
  ghost predicate Leaves(c: Config, s: Store, a: Attempt, next: Store) {
    if Compares(s, a) && a.password.Right? then next == EMPTY
    else if Compares(s, a) && a.password.Wrong? && c.threshold != 0 then
      && next.failure == Some(Key(Prior(s, a) + 1, a.setFailure + c.lockSeconds * SECOND))
      && if c.threshold <= Prior(s, a) + 1 then LocksUntil(c, a, next.lock)
         else next.lock == if Ended(s, a) then None else s.lock
    else next == if Compares(s, a) && Ended(s, a) then EMPTY else s
  }

  /** The lock ends in the second in which the lock time is over, at its beginning. */
  ghost predicate LocksUntil(c: Config, a: Attempt, lock: Option<Key>) {
    && lock.Some? && lock.value.expires == a.setLock + c.lockSeconds * SECOND
    && lock.value.value % SECOND == 0
    && 0 <= a.lockNow + c.lockSeconds * SECOND - lock.value.value < SECOND
  }

  lemma AttemptIsJudged(c: Config, s: Store, a: Attempt)
    ensures Judged(c, s, a, Verify(c, s, a).1)
    ensures Leaves(c, s, a, Verify(c, s, a).0)
  {
  }

  /** The service over its Redis keys. */
  class PasswordSecurity {
    const config: Config
    var failure: Option<Key>
    var lock: Option<Key>

    constructor (config: Config)
      ensures this.config == config && State() == EMPTY
    {
      this.config, failure, lock := config, None, None;
    }

    ghost function State(): Store
      reads this
    {
      Store(failure, lock)
    }

    method CheckStatus(enabled: bool, getLock: int, now: int) returns (refusal: Option<Verdict>)
      modifies this
      ensures (State(), refusal) == Checked(old(State()), enabled, getLock, now)
      ensures refusal == Some(UserDisabled) <==> !enabled
      ensures !enabled ==> State() == old(State())
    {
      if !enabled {
        return Some(UserDisabled);
      }
      var lockedUntil := Get(lock, getLock);
      if lockedUntil.Some? {
        if lockedUntil.value > now {
          var remaining := lockedUntil.value - now;
          return Some(Locked((remaining + 60 * SECOND - 1) / (60 * SECOND)));
        }
        lock := None;
        failure := None;
      }
      refusal := None;
    }

    method HandleLoginFailure(a: Attempt) returns (verdict: Verdict)
      modifies this
      ensures (State(), verdict) == AfterFailure(config, old(State()), a)
    {
      if config.threshold == 0 {
        return Failed;
      }
      var stored := Get(failure, a.getFailure);
      var failureCount := if stored.Some? then stored.value else 0;
      failureCount := failureCount + 1;
      failure := Some(Key(failureCount, a.setFailure + config.Lock()));
      if failureCount >= config.threshold {
        var lockedUntil := a.lockNow + config.Lock();
        lock := Some(Key(ToStr(lockedUntil), a.setLock + config.Lock()));
        return FailedAndLocked;
      }
      verdict := Failed;
    }

    method HandleLoginSuccess()
      modifies this
      ensures State() == EMPTY
    {
      lock := None;
      failure := None;
    }

    /** user_verify; the attempt says what the lookup and the password comparison find. */
    method UserVerify(a: Attempt) returns (verdict: Verdict)
      modifies this
      ensures (State(), verdict) == Verify(config, old(State()), a)
      ensures Judged(config, old(State()), a, verdict) && Leaves(config, old(State()), a, State())
    {
      AttemptIsJudged(config, State(), a);
      if a.account.Unknown? {
        return NoSuchUser;
      }
      var refusal := CheckStatus(a.account.Active?, a.getLock, a.checkNow);
      if refusal.Some? {
        return refusal.value;
      }
      match a.password
      case Wrong => verdict := HandleLoginFailure(a);
      case RightButExpired => verdict := PasswordExpired;
      case Right =>
        HandleLoginSuccess();
        verdict := Verified;
    }
  }

  // ---------------------------------------------------------------- runs

  predicate IsFailure(v: Verdict) {
    v.Failed? || v.FailedAndLocked?
  }

  /** Attempts one after the other. */
  ghost predicate Sequential(run: seq<Attempt>) {
    && (forall i :: 0 <= i < |run| ==> run[i].InOrder())
    && (forall i :: 0 < i < |run| ==> run[i - 1].setLock <= run[i].getLock)
  }

  /** The store after a run, and the times of the failed checks since the last success. */
  ghost function After(c: Config, run: seq<Attempt>): (Store, seq<int>) {
    if run == [] then (EMPTY, [])
    else
      var (s, failures) := After(c, run[..|run| - 1]);
      var a := run[|run| - 1];
      var (next, verdict) := Verify(c, s, a);
      (next, Recorded(failures, a, verdict))
  }

  ghost predicate Ascending(f: seq<int>) {
    forall i, j :: 0 <= i <= j < |f| ==> f[i] <= f[j]
  }

  /** Any threshold + 1 consecutive failures span more than the lock time less one second. */
  ghost predicate Spaced(c: Config, f: seq<int>) {
    forall k :: 0 <= k <= k + c.threshold < |f| ==> f[k + c.threshold] - f[k] > c.Span()
  }

  /** The counter counts the last failures; what came before them is more than the lock time away. */
  ghost predicate CounterFits(c: Config, counter: Key, f: seq<int>) {
    && 1 <= counter.value <= |f| && counter.value <= c.threshold
    && counter.expires >= f[|f| - 1] + c.Lock()
    && forall p :: 0 <= p < |f| - counter.value ==> f[|f| - counter.value] - f[p] > c.Span()
  }

  /** A full counter comes with a lock that the last failure set and that outlives it. */
  ghost predicate LockFits(c: Config, s: Store, last: int)
    requires s.failure.Some?
  {
    && s.lock.Some?
    && s.lock.value.value > last + c.Span()
    && s.lock.value.expires >= s.failure.value.expires
  }

  predicate NoLock(s: Store, time: int) {
    s.lock.None? || s.lock.value.expires <= time
  }

  /** What holds of the store and the failures since the last success, from a time on. */
  ghost predicate Fits(c: Config, s: Store, f: seq<int>, time: int) {
    && Ascending(f) && (f != [] ==> f[|f| - 1] <= time)
    && (s.failure.Some? ==>
         && CounterFits(c, s.failure.value, f)
         && (if s.failure.value.value == c.threshold then LockFits(c, s, f[|f| - 1]) else NoLock(s, time)))
    && (s.failure.None? ==> s.lock.None? && (f != [] ==> time > f[|f| - 1] + c.Span()))
  }

  /** How many failures the counter still counts when the next one reads it. */
  function Counted(s: Store, time: int): int {
    match Get(s.failure, time) case None => 0 case Some(n) => n
  }

  /** A failure that no lock stopped: the counter is not full, and whatever it does not count is long ago. */
  lemma UncountedAreLongAgo(c: Config, s: Store, f: seq<int>, now: int, time: int, p: nat)
    requires c.Valid() && c.threshold > 0 && Fits(c, s, f, now) && NoLock(s, now) && now <= time
    ensures 0 <= Counted(s, time) < c.threshold && Counted(s, time) <= |f|
    ensures p < |f| - Counted(s, time) ==> time - f[p] > c.Span()
    ensures p < |f| - Counted(s, time) && Counted(s, time) > 0 ==>
      f[|f| - Counted(s, time)] - f[p] > c.Span()
  {
    if p < |f| {
      assert f[p] <= f[|f| - 1];
    }
    if 0 < Counted(s, time) {
      assert f[|f| - Counted(s, time)] <= f[|f| - 1];
    }
  }

  lemma FailureKeepsFit(c: Config, s: Store, f: seq<int>, now: int, a: Attempt)
    requires c.Valid() && c.threshold > 0 && Fits(c, s, f, now) && NoLock(s, now)
    requires now <= a.getFailure <= a.setFailure <= a.lockNow <= a.setLock
    ensures Fits(c, AfterFailure(c, s, a).0, f + [a.getFailure], a.setLock)
  {
    var g, n, count := f + [a.getFailure], |f|, Counted(s, a.getFailure);
    UncountedAreLongAgo(c, s, f, now, a.getFailure, 0);
    var counter := Key(count + 1, a.setFailure + c.Lock());
    forall p | 0 <= p < |g| - counter.value ensures g[|g| - counter.value] - g[p] > c.Span() {
      UncountedAreLongAgo(c, s, f, now, a.getFailure, p);
    }
    assert CounterFits(c, counter, g);
  }

  lemma FitsLater(c: Config, s: Store, f: seq<int>, time: int, later: int)
    requires Fits(c, s, f, time) && time <= later
    ensures Fits(c, s, f, later)
  {
  }

  /** The failures since the last success, one attempt later. */
  function Recorded(f: seq<int>, a: Attempt, verdict: Verdict): seq<int> {
    if verdict.Verified? then [] else if IsFailure(verdict) then f + [a.getFailure] else f
  }

  lemma WrongKeepsFit(c: Config, s: Store, f: seq<int>, a: Attempt)
    requires c.Valid() && c.threshold > 0 && Fits(c, s, f, a.checkNow) && NoLock(s, a.checkNow)
    requires Spaced(c, f) && a.InOrder()
    ensures var (next, verdict) := AfterFailure(c, s, a);
      var g := Recorded(f, a, verdict);
      Fits(c, next, g, a.setLock) && Spaced(c, g)
  {
    FailureKeepsFit(c, s, f, a.checkNow, a);
  }

  /** One attempt keeps the store fitting and the failures spaced. */
  lemma AttemptKeepsFit(c: Config, s: Store, f: seq<int>, a: Attempt)
    requires c.Valid() && c.threshold > 0 && Fits(c, s, f, a.getLock) && Spaced(c, f) && a.InOrder()
    ensures var (next, verdict) := Verify(c, s, a);
      var g := Recorded(f, a, verdict);
      Fits(c, next, g, a.setLock) && Spaced(c, g)
  {
    if a.account.Unknown? {
      FitsLater(c, s, f, a.getLock, a.setLock);
    } else {
      var (checked, refusal) := Checked(s, a.account.Active?, a.getLock, a.checkNow);
      if refusal.None? && a.password.Wrong? {
        WrongKeepsFit(c, checked, f, a);
      } else {
        FitsLater(c, checked, f, a.checkNow, a.setLock);
      }
    }
  }

  lemma {:induction false} RunFits(c: Config, run: seq<Attempt>)
    requires c.Valid() && c.threshold > 0 && Sequential(run)
    ensures var (s, f) := After(c, run);
      Spaced(c, f) && (run != [] ==> Fits(c, s, f, run[|run| - 1].setLock))
  {
    if run != [] {
      var before, a := run[..|run| - 1], run[|run| - 1];
      assert Sequential(before);
      RunFits(c, before);
      var (s, f) := After(c, before);
      if before != [] {
        FitsLater(c, s, f, before[|before| - 1].setLock, a.getLock);
      }
      AttemptKeepsFit(c, s, f, a);
    }
  }

  /**
   * The rate bound.  In every sequential run, any threshold + 1 failed password
   * checks without a success between them span more than the lock time less
   * the second that formatting the lock time may lose.
   */
  lemma FailuresAreSpaced(c: Config, run: seq<Attempt>, k: nat)
    requires c.Valid() && c.threshold > 0 && Sequential(run)
    requires k + c.threshold < |After(c, run).1|
    ensures After(c, run).1[k + c.threshold] - After(c, run).1[k] > c.Span()
  {
    RunFits(c, run);
  }

  // ---------------------------------------------------------------- failures in a window

  /** Every `threshold` failures take more than the lock time less a second. */
  lemma {:induction false} SpansAddUp(c: Config, f: seq<int>, m: nat)
    requires c.threshold > 0 && Spaced(c, f) && c.threshold * m < |f|
    ensures f[c.threshold * m] - f[0] >= c.Span() * m
    ensures m > 0 ==> f[c.threshold * m] - f[0] > c.Span() * m
  {
    if m > 0 {
      assert c.threshold * m == c.threshold * (m - 1) + c.threshold;
      assert c.Span() * m == c.Span() * (m - 1) + c.Span();
      SpansAddUp(c, f, m - 1);
      assert f[c.threshold * (m - 1) + c.threshold] - f[c.threshold * (m - 1)] > c.Span();
    }
  }

  /**
   * With a lock time of at least two seconds, consecutive failures within a
   * window of length w number at most threshold * (w / (lock time - 1 s) + 1).
   */
  lemma FailuresInWindow(c: Config, run: seq<Attempt>, failures: seq<int>, from: nat, to: nat, w: nat)
    requires c.Valid() && c.threshold > 0 && c.lockSeconds >= 2 && Sequential(run)
    requires failures == After(c, run).1 && from < to <= |failures| && failures[to - 1] - failures[from] <= w
    ensures to - from <= c.threshold * (w / c.Span() + 1)
  {
    assert Spaced(c, failures) && Ascending(failures) by {
      RunFits(c, run);
    }
    var m := NextMultiple(c.Span(), w);
    StrideBound(c, failures, from, to, m, w);
  }

  lemma StrideBound(c: Config, f: seq<int>, from: nat, to: nat, m: nat, w: int)
    requires c.threshold > 0 && Spaced(c, f) && Ascending(f) && from < to <= |f|
    requires f[to - 1] - f[from] <= w < c.Span() * m
    ensures to - from <= c.threshold * m
  {
    var stride := c.threshold * m;
    if to - from > stride {
      var g := f[from..to];
      SliceIsSpaced(c, f, from, to);
      SpansAddUp(c, g, m);
    }
  }

  lemma SliceIsSpaced(c: Config, all: seq<int>, from: nat, to: nat)
    requires c.threshold > 0 && Spaced(c, all) && from <= to <= |all|
    ensures Spaced(c, all[from..to])
  {
    var f := all[from..to];
    forall k | 0 <= k <= k + c.threshold < |f| ensures f[k + c.threshold] - f[k] > c.Span() {
      assert all[from + k + c.threshold] - all[from + k] > c.Span();
    }
  }

  lemma NextMultiple(d: int, w: nat) returns (m: nat)
    requires d > 0
    ensures m == w / d + 1 && w < d * m
  {
    m := w / d + 1;
    assert w == d * (w / d) + w % d;
    assert d * m == d * (w / d) + d;
  }

  // ---------------------------------------------------------------- the bound is exact

  /**
   * A lock refuses every check until its time is over exactly when it begins on
   * a whole second, or when setting it took longer than the lock time.
   */
  lemma LockHoldsIff(c: Config, s: Store, a: Attempt)
    requires c.Valid() && a.InOrder() && AfterFailure(c, s, a).1.FailedAndLocked?
    ensures (forall getLock, now :: a.setLock <= getLock <= now < a.lockNow + c.Lock() ==>
              Checked(AfterFailure(c, s, a).0, true, getLock, now).1.Some?) <==>
            a.lockNow % SECOND == 0 || a.lockNow + c.Lock() <= a.setLock
  {
    var next, until := AfterFailure(c, s, a).0, ToStr(a.lockNow + c.Lock());
    assert until == a.lockNow + c.Lock() - a.lockNow % SECOND;
    if a.lockNow % SECOND != 0 && a.setLock < a.lockNow + c.Lock() {
      var now := if until < a.setLock then a.setLock else until;
      assert Checked(next, true, now, now).1.None?;
    }
  }

  /** Some sequential run has threshold + 1 failures without a success, the first and the last this far apart. */
  ghost predicate Spans(c: Config, run: seq<Attempt>, gap: int) {
    && c.threshold > 0 && Sequential(run) && |After(c, run).1| == c.threshold + 1
    && After(c, run).1[c.threshold] - After(c, run).1[0] == gap
  }

  function FailAt(time: int): Attempt {
    Attempt(Active, Wrong, time, time, time, time, time, time)
  }

  function Repeat<T>(x: T, n: nat): (s: seq<T>)
    ensures |s| == n && forall i :: 0 <= i < n ==> s[i] == x
  {
    seq(n, _ => x)
  }

  lemma AfterNext(c: Config, run: seq<Attempt>, a: Attempt)
    ensures After(c, run + [a]) ==
      var (s, f) := After(c, run);
      var (next, verdict) := Verify(c, s, a);
      (next, Recorded(f, a, verdict))
  {
    assert (run + [a])[..|run + [a]| - 1] == run;
  }

  /** Failures in the last microsecond of a second: the lock ends a whole second too early, less that microsecond. */
  lemma {:induction false} AfterCopies(c: Config, n: nat)
    requires c.Valid() && 0 < n <= c.threshold
    ensures var time := SECOND - 1;
      var lock := if n == c.threshold then Some(Key(c.Lock(), time + c.Lock())) else None;
      After(c, Repeat(FailAt(time), n)) == (Store(Some(Key(n, time + c.Lock())), lock), Repeat(time, n))
  {
    var time := SECOND - 1;
    var before := Repeat(FailAt(time), n - 1);
    assert Repeat(FailAt(time), n) == before + [FailAt(time)];
    assert Repeat(time, n) == Repeat(time, n - 1) + [time];
    AfterNext(c, before, FailAt(time));
    if n == 1 {
      assert before == [];
    } else {
      AfterCopies(c, n - 1);
    }
  }

  lemma GapIsSpanned(c: Config, gap: int) returns (run: seq<Attempt>)
    requires c.Valid() && c.threshold > 0 && gap > c.Span()
    ensures Spans(c, run, gap)
  {
    var time := SECOND - 1;
    var copies, last := Repeat(FailAt(time), c.threshold), FailAt(time + gap);
    run := copies + [last];
    AfterCopies(c, c.threshold);
    AfterNext(c, copies, last);
  }

  /**
   * The rate bound is exact: the times that threshold + 1 failures can span are
   * those greater than the lock time less one second, and no others.
   */
  lemma GapsSpanned(c: Config, gap: int)
    requires c.Valid() && c.threshold > 0
    ensures (exists run :: Spans(c, run, gap)) <==> gap > c.Span()
  {
    if gap > c.Span() {
      var run := GapIsSpanned(c, gap);
    }
    if run :| Spans(c, run, gap) {
      FailuresAreSpaced(c, run, 0);
    }
  }

  /** The second is really given away, whatever the threshold and the lock time. */
  lemma LockTimeIsTruncated(c: Config)
    requires c.Valid() && c.threshold > 0
    ensures exists run, gap :: Spans(c, run, gap) && gap < c.Lock()
  {
    var run := GapIsSpanned(c, c.Span() + 1);
  }
}
