// The rate limiter of src/rate_limit.rs as an interleaved protocol. A task that
// acquires moves through the awaits of `acquire` one atomic step at a time,
// other tasks run and time passes between any two steps, and a pending acquire
// may be dropped at any await.
module RateLimit {
  import opened Wrappers

  type TaskId = nat
  type Time = nat
  type Duration = nat

  datatype Phase =
    | Queued                    // waiting for a permit
    | AwaitingLock              // has a permit, waits for the lock on the last start
    | Measuring                 // has the lock, about to read the elapsed time
    | Pausing(rest: Duration)   // the interval is not over, about to start the sleep
    | Sleeping(deadline: Time)  // asleep with the lock held
    | Stamping                  // about to record its start
    | Guarding                  // acquire returned, the guard is alive
  {
    predicate HasLock() { Measuring? || Pausing? || Sleeping? || Stamping? }
    predicate HasPermit() { !Queued? }
    // Whether it is suspended at an await, where the acquire can be dropped.
    predicate AtAwait() { Queued? || AwaitingLock? || Sleeping? }
  }

  // The interval is that of the limiter clone acquired through.
  datatype Task = Task(interval: Option<Duration>, phase: Phase)

  datatype Start = Start(task: TaskId, interval: Duration, time: Time)

  // `starts` records every stamp written to the last start.
  datatype State = State(
    free: nat, lock: Option<TaskId>, last: Option<Time>,
    tasks: map<TaskId, Task>, now: Time, starts: seq<Start>)

  datatype Event =
    | Tick(d: Duration)
    | Begin(t: TaskId, interval: Option<Duration>)
    | TakePermit(t: TaskId)
    | TakeLock(t: TaskId)
    | Measure(t: TaskId)
    | Pause(t: TaskId)
    | Wake(t: TaskId)
    | Stamp(t: TaskId)
    | TryAcquire(t: TaskId)
    | Release(t: TaskId)
    | Cancel(t: TaskId)

  predicate Enabled(s: State, e: Event) {
    match e
    case Tick(d) => true
    case Begin(t, _) => t !in s.tasks
    case TakePermit(t) => t in s.tasks && s.tasks[t].phase == Queued && s.free > 0
    case TakeLock(t) => t in s.tasks && s.tasks[t].phase == AwaitingLock && s.lock == None
    case Measure(t) => t in s.tasks && s.tasks[t].phase == Measuring && s.tasks[t].interval.Some?
    case Pause(t) => t in s.tasks && s.tasks[t].phase.Pausing?
    case Wake(t) => t in s.tasks && s.tasks[t].phase.Sleeping? && s.tasks[t].phase.deadline <= s.now
    case Stamp(t) => t in s.tasks && s.tasks[t].phase == Stamping && s.tasks[t].interval.Some?
    case TryAcquire(t) => t !in s.tasks
    case Release(t) => t in s.tasks && s.tasks[t].phase == Guarding
    case Cancel(t) => t in s.tasks && s.tasks[t].phase.AtAwait()
  }

  function Move(s: State, t: TaskId, phase: Phase): map<TaskId, Task>
    requires t in s.tasks
  {
    s.tasks[t := s.tasks[t].(phase := phase)]
  }

  // Where a task goes after comparing the elapsed time with its interval.
  function Measured(last: Option<Time>, now: Time, interval: Duration): Phase {
    match last
    case None => Stamping
    case Some(previous) =>
      var elapsed := if previous <= now then now - previous else 0;
      if elapsed < interval then Pausing(interval - elapsed) else Stamping
  }

  function Apply(s: State, e: Event): State
    requires Enabled(s, e)
  {
    match e
    case Tick(d) => s.(now := s.now + d)
    case Begin(t, interval) => s.(tasks := s.tasks[t := Task(interval, Queued)])
    case TakePermit(t) =>
      s.(free := s.free - 1, tasks := Move(s, t, if s.tasks[t].interval.Some? then AwaitingLock else Guarding))
    case TakeLock(t) => s.(lock := Some(t), tasks := Move(s, t, Measuring))
    case Measure(t) => s.(tasks := Move(s, t, Measured(s.last, s.now, s.tasks[t].interval.value)))
    case Pause(t) => s.(tasks := Move(s, t, Sleeping(s.now + s.tasks[t].phase.rest)))
    case Wake(t) => s.(tasks := Move(s, t, Stamping))
    case Stamp(t) =>
      s.(last := Some(s.now), lock := None, tasks := Move(s, t, Guarding),
         starts := s.starts + [Start(t, s.tasks[t].interval.value, s.now)])
    case TryAcquire(t) =>
      if s.free == 0 then s
      else s.(free := s.free - 1, tasks := s.tasks[t := Task(None, Guarding)])
    case Release(t) => s.(free := s.free + 1, tasks := s.tasks - {t})
    case Cancel(t) =>
      var phase := s.tasks[t].phase;
      s.(free := if phase.HasPermit() then s.free + 1 else s.free,
         lock := if phase.HasLock() then None else s.lock,
         tasks := s.tasks - {t})
  }

  function Capacity(maxConcurrent: nat): nat {
    if maxConcurrent == 0 then 1 else maxConcurrent
  }

  function New(maxConcurrent: nat): State {
    State(Capacity(maxConcurrent), None, None, map[], 0, [])
  }

  // The state after a sequence of events, if each was enabled in its turn.
  function Run(s: State, events: seq<Event>): Option<State>
    decreases |events|
  {
    if events == [] then Some(s)
    else if Enabled(s, events[0]) then Run(Apply(s, events[0]), events[1..])
    else None
  }

  // ----- The limiter itself: each step updates the shared fields and keeps
  // what every step keeps -----

  class RateLimiter {
    ghost const capacity: nat
    var permits: nat
    var holder: Option<TaskId>
    var lastStarted: Option<Time>
    var tasks: map<TaskId, Task>
    var clock: Time
    ghost var starts: seq<Start>

    ghost function View(): State
      reads this
    {
      State(permits, holder, lastStarted, tasks, clock, starts)
    }

    ghost predicate Valid()
      reads this
    {
      Inv(View(), capacity)
    }

    constructor (maxConcurrent: nat)
      ensures Valid() && capacity == (if maxConcurrent < 1 then 1 else maxConcurrent)
      ensures View() == New(maxConcurrent) == State(capacity, None, None, map[], 0, [])
    {
      capacity := Capacity(maxConcurrent);
      permits := if maxConcurrent == 0 then 1 else maxConcurrent;
      holder, lastStarted, tasks, clock, starts := None, None, map[], 0, [];
      new;
      assert WithPermit(View()) == {};
    }

    method Elapse(d: Duration)
      requires Valid()
      modifies this
      ensures Valid() && View() == Apply(old(View()), Tick(d))
    {
      StepKeepsInv(View(), Tick(d), capacity);
      clock := clock + d;
    }

    method BeginAcquire(t: TaskId, interval: Option<Duration>)
      requires Valid()
      requires Enabled(View(), Begin(t, interval))
      modifies this
      ensures Valid() && View() == Apply(old(View()), Begin(t, interval))
    {
      StepKeepsInv(View(), Begin(t, interval), capacity);
      tasks := tasks[t := Task(interval, Queued)];
    }

    method AcquireOwned(t: TaskId)
      requires Valid()
      requires Enabled(View(), TakePermit(t))
      modifies this
      ensures Valid() && View() == Apply(old(View()), TakePermit(t))
    {
      StepKeepsInv(View(), TakePermit(t), capacity);
      permits := permits - 1;
      if tasks[t].interval.Some? {
        tasks := tasks[t := tasks[t].(phase := AwaitingLock)];
      } else {
        tasks := tasks[t := tasks[t].(phase := Guarding)];
      }
    }

    method LockLastStarted(t: TaskId)
      requires Valid()
      requires Enabled(View(), TakeLock(t))
      modifies this
      ensures Valid() && View() == Apply(old(View()), TakeLock(t))
    {
      StepKeepsInv(View(), TakeLock(t), capacity);
      holder := Some(t);
      tasks := tasks[t := tasks[t].(phase := Measuring)];
    }

    method MeasureElapsed(t: TaskId)
      requires Valid()
      requires Enabled(View(), Measure(t))
      modifies this
      ensures Valid() && View() == Apply(old(View()), Measure(t))
    {
      StepKeepsInv(View(), Measure(t), capacity);
      var interval := tasks[t].interval.value;
      var next := Stamping;
      if lastStarted.Some? {
        var elapsed := if lastStarted.value <= clock then clock - lastStarted.value else 0;
        if elapsed < interval {
          next := Pausing(interval - elapsed);
        }
      }
      tasks := tasks[t := tasks[t].(phase := next)];
    }

    method StartSleep(t: TaskId)
      requires Valid()
      requires Enabled(View(), Pause(t))
      modifies this
      ensures Valid() && View() == Apply(old(View()), Pause(t))
    {
      StepKeepsInv(View(), Pause(t), capacity);
      var rest := tasks[t].phase.rest;
      tasks := tasks[t := tasks[t].(phase := Sleeping(clock + rest))];
    }

    method WakeUp(t: TaskId)
      requires Valid()
      requires Enabled(View(), Wake(t))
      modifies this
      ensures Valid() && View() == Apply(old(View()), Wake(t))
    {
      StepKeepsInv(View(), Wake(t), capacity);
      tasks := tasks[t := tasks[t].(phase := Stamping)];
    }

    method StampStart(t: TaskId)
      requires Valid()
      requires Enabled(View(), Stamp(t))
      modifies this
      ensures Valid() && View() == Apply(old(View()), Stamp(t))
    {
      StepKeepsInv(View(), Stamp(t), capacity);
      lastStarted := Some(clock);
      holder := None;
      starts := starts + [Start(t, tasks[t].interval.value, clock)];
      tasks := tasks[t := tasks[t].(phase := Guarding)];
    }

    method TryAcquireOwned(t: TaskId) returns (ok: bool)
      requires Valid()
      requires Enabled(View(), TryAcquire(t))
      modifies this
      ensures Valid() && View() == Apply(old(View()), TryAcquire(t))
      ensures ok <==> old(permits) > 0
    {
      StepKeepsInv(View(), TryAcquire(t), capacity);
      ok := permits > 0;
      if ok {
        permits := permits - 1;
        tasks := tasks[t := Task(None, Guarding)];
      }
    }

    method DropGuard(t: TaskId)
      requires Valid()
      requires Enabled(View(), Release(t))
      modifies this
      ensures Valid() && View() == Apply(old(View()), Release(t))
    {
      StepKeepsInv(View(), Release(t), capacity);
      permits := permits + 1;
      tasks := tasks - {t};
    }

    method DropPending(t: TaskId)
      requires Valid()
      requires Enabled(View(), Cancel(t))
      modifies this
      ensures Valid() && View() == Apply(old(View()), Cancel(t))
    {
      StepKeepsInv(View(), Cancel(t), capacity);
      if tasks[t].phase.HasPermit() {
        permits := permits + 1;
      }
      if tasks[t].phase.HasLock() {
        holder := None;
      }
      tasks := tasks - {t};
    }
  }

  // ----- What every step keeps -----

  ghost function WithPermit(s: State): set<TaskId> {
    set t | t in s.tasks && s.tasks[t].phase.HasPermit()
  }

  ghost function Guards(s: State): set<TaskId> {
    set t | t in s.tasks && s.tasks[t].phase == Guarding
  }

  ghost function Pending(s: State): set<TaskId> {
    set t | t in s.tasks && s.tasks[t].phase.HasPermit() && s.tasks[t].phase != Guarding
  }

  ghost predicate PermitsAddUp(s: State, capacity: nat) {
    s.free + |WithPermit(s)| == capacity
  }

  ghost predicate LockAgrees(s: State) {
    forall t :: t in s.tasks ==>
      && (s.lock == Some(t) <==> s.tasks[t].phase.HasLock())
      && (s.tasks[t].phase.HasLock() || s.tasks[t].phase == AwaitingLock ==> s.tasks[t].interval.Some?)
  }

  ghost predicate LockHeldByTask(s: State) {
    s.lock.Some? ==> s.lock.value in s.tasks
  }

  // The next start may be recorded from this time on.
  function Due(s: State, interval: Duration): Time {
    if s.last.Some? then s.last.value + interval else 0
  }

  ghost predicate HolderKeepsInterval(s: State) {
    forall t :: t in s.tasks && s.tasks[t].interval.Some? ==>
      var due := Due(s, s.tasks[t].interval.value);
      match s.tasks[t].phase
      case Pausing(rest) => due <= s.now + rest
      case Sleeping(deadline) => due <= deadline
      case Stamping => due <= s.now
      case _ => true
  }

  ghost predicate Spaced(starts: seq<Start>) {
    forall i :: 0 < i < |starts| ==> starts[i - 1].time + starts[i].interval <= starts[i].time
  }

  ghost predicate LogAgrees(s: State) {
    && s.last == (if s.starts == [] then None else Some(s.starts[|s.starts| - 1].time))
    && (s.last.Some? ==> s.last.value <= s.now)
    && Spaced(s.starts)
  }

  ghost predicate Inv(s: State, capacity: nat) {
    PermitsAddUp(s, capacity) && LockAgrees(s) && LockHeldByTask(s) && HolderKeepsInterval(s) && LogAgrees(s)
  }

  lemma HoldersChange(s: State, s': State, gained: set<TaskId>, lost: set<TaskId>)
    requires forall t :: t in WithPermit(s') <==> (t in WithPermit(s) || t in gained) && t !in lost
    requires gained !! WithPermit(s) && lost <= WithPermit(s)
    ensures gained == {} ==> |WithPermit(s')| == |WithPermit(s)| - |lost|
    ensures lost == {} ==> |WithPermit(s')| == |WithPermit(s)| + |gained|
  {
    assert WithPermit(s') == WithPermit(s) + gained - lost;
  }

  lemma StepKeepsPermits(s: State, e: Event, capacity: nat)
    requires Enabled(s, e) && PermitsAddUp(s, capacity)
    ensures PermitsAddUp(Apply(s, e), capacity)
  {
    var s' := Apply(s, e);
    if e.TakePermit? || (e.TryAcquire? && s.free > 0) {
      HoldersChange(s, s', {e.t}, {});
    } else if e.Release? || (e.Cancel? && s.tasks[e.t].phase.HasPermit()) {
      HoldersChange(s, s', {}, {e.t});
    } else {
      HoldersChange(s, s', {}, {});
    }
  }

  lemma StepKeepsLock(s: State, e: Event)
    requires Enabled(s, e) && LockAgrees(s) && LockHeldByTask(s)
    ensures LockAgrees(Apply(s, e)) && LockHeldByTask(Apply(s, e))
  {}

  lemma StepKeepsInterval(s: State, e: Event)
    requires Enabled(s, e) && LockAgrees(s) && HolderKeepsInterval(s) && LogAgrees(s)
    ensures HolderKeepsInterval(Apply(s, e))
  {}

  lemma StepKeepsLog(s: State, e: Event)
    requires Enabled(s, e) && LockAgrees(s) && HolderKeepsInterval(s) && LogAgrees(s)
    ensures LogAgrees(Apply(s, e))
  {}

  lemma StepKeepsInv(s: State, e: Event, capacity: nat)
    requires Inv(s, capacity) && Enabled(s, e)
    ensures Inv(Apply(s, e), capacity)
  {
    StepKeepsPermits(s, e, capacity);
    StepKeepsLock(s, e);
    StepKeepsInterval(s, e);
    StepKeepsLog(s, e);
  }

  lemma {:induction false} RunKeepsInv(s: State, events: seq<Event>, capacity: nat)
    requires Inv(s, capacity) && Run(s, events).Some?
    ensures Inv(Run(s, events).value, capacity)
    decreases |events|
  {
    if events != [] {
      StepKeepsInv(s, events[0], capacity);
      RunKeepsInv(Apply(s, events[0]), events[1..], capacity);
    }
  }

  // A state some interleaving of a fresh limiter reaches.
  ghost predicate Reachable(s: State, maxConcurrent: nat) {
    exists events :: Run(New(maxConcurrent), events) == Some(s)
  }

  lemma ReachableInv(s: State, maxConcurrent: nat)
    requires Reachable(s, maxConcurrent)
    ensures Inv(s, Capacity(maxConcurrent))
  {
    var events :| Run(New(maxConcurrent), events) == Some(s);
    assert WithPermit(New(maxConcurrent)) == {};
    RunKeepsInv(New(maxConcurrent), events, Capacity(maxConcurrent));
  }

  // ----- Permits -----

  // Free permits, live guards and acquires still waiting on the lock or the
  // sleep always make up the configured maximum.
  lemma PermitsConserved(s: State, maxConcurrent: nat)
    requires Reachable(s, maxConcurrent)
    ensures var most := if maxConcurrent < 1 then 1 else maxConcurrent;
            && s.free + |Guards(s)| + |Pending(s)| == most
            && |Guards(s)| <= most
            && (s.tasks == map[] ==> s.free == most)
  {
    ReachableInv(s, maxConcurrent);
    GuardsAndPending(s);
    assert s.tasks == map[] ==> WithPermit(s) == {};
  }

  lemma GuardsAndPending(s: State)
    ensures |WithPermit(s)| == |Guards(s)| + |Pending(s)|
  {
    assert WithPermit(s) == Guards(s) + Pending(s);
    assert Guards(s) !! Pending(s);
  }

  // ----- Spacing -----

  function IntervalsBetween(starts: seq<Start>, i: nat, j: nat): nat
    requires i <= j < |starts|
  {
    if i == j then 0 else IntervalsBetween(starts, i, j - 1) + starts[j].interval
  }

  lemma {:induction false} SpacedApart(starts: seq<Start>, i: nat, j: nat)
    requires Spaced(starts) && i <= j < |starts|
    ensures starts[i].time + IntervalsBetween(starts, i, j) <= starts[j].time
  {
    if i < j {
      SpacedApart(starts, i, j - 1);
    }
  }

  lemma {:induction false} SharedInterval(starts: seq<Start>, i: nat, j: nat, d: Duration)
    requires i <= j < |starts| && forall k :: 0 <= k < |starts| ==> starts[k].interval == d
    ensures IntervalsBetween(starts, i, j) == (j - i) * d
  {
    if i < j {
      SharedInterval(starts, i, j - 1, d);
      assert (j - i) * d == (j - 1 - i) * d + d;
    }
  }

  // In every interleaving, two recorded starts are apart by at least the
  // intervals of the clones that recorded the later ones; below, with one
  // shared interval d, the i-th and j-th by (j - i) * d.
  lemma StartsAreSpaced(s: State, maxConcurrent: nat, i: nat, j: nat)
    requires Reachable(s, maxConcurrent) && i <= j < |s.starts|
    ensures s.starts[i].time + IntervalsBetween(s.starts, i, j) <= s.starts[j].time
  {
    ReachableInv(s, maxConcurrent);
    SpacedApart(s.starts, i, j);
  }

  lemma SharedIntervalSpacing(s: State, maxConcurrent: nat, i: nat, j: nat, d: Duration)
    requires Reachable(s, maxConcurrent) && i <= j < |s.starts|
    requires forall k :: 0 <= k < |s.starts| ==> s.starts[k].interval == d
    ensures s.starts[i].time + (j - i) * d <= s.starts[j].time
  {
    StartsAreSpaced(s, maxConcurrent, i, j);
    SharedInterval(s.starts, i, j, d);
  }

  ghost function StartsWithin(starts: seq<Start>, from: Time, length: Duration): set<nat> {
    set k: nat | k < |starts| && from <= starts[k].time <= from + length
  }

  ghost function Range(lo: nat, n: nat): (r: set<nat>)
    ensures forall k: nat :: k in r <==> lo <= k < lo + n
    ensures |r| == n
  {
    if n == 0 then {} else Range(lo, n - 1) + {lo + n - 1}
  }

  lemma SubsetSize<T>(a: set<T>, b: set<T>)
    requires a <= b
    ensures |a| <= |b|
  {
    assert b == a + (b - a);
  }

  // A closed window of length W holds at most W / d + 1 starts.
  lemma WindowBound(s: State, maxConcurrent: nat, d: Duration, from: Time, length: Duration)
    requires Reachable(s, maxConcurrent) && d > 0
    requires forall k :: 0 <= k < |s.starts| ==> s.starts[k].interval == d
    ensures |StartsWithin(s.starts, from, length)| <= length / d + 1
  {
    var within := StartsWithin(s.starts, from, length);
    if within != {} {
      var first := Least(within);
      forall k | k in within ensures first <= k <= first + length / d {
        SharedIntervalSpacing(s, maxConcurrent, first, k, d);
        QuotientBound(k - first, length, d);
      }
      RangeBound(within, first, length / d + 1);
    }
  }

  lemma RangeBound(a: set<nat>, lo: nat, n: nat)
    requires forall k :: k in a ==> lo <= k < lo + n
    ensures |a| <= n
  {
    SubsetSize(a, Range(lo, n));
  }

  lemma QuotientBound(n: nat, length: nat, d: nat)
    requires d > 0 && n * d <= length
    ensures n <= length / d
  {
    if n > length / d {
      ProductGrows(length / d + 1, n, d);
    }
  }

  lemma ProductGrows(m: nat, n: nat, d: nat)
    requires m <= n
    ensures m * d <= n * d
  {}

  lemma Least(a: set<nat>) returns (m: nat)
    requires a != {}
    ensures m in a && forall x :: x in a ==> m <= x
    decreases |a|
  {
    var k: nat :| k in a;
    m := k;
    if x :| x in a && x < k {
      var below := set y | y in a && y < k;
      SubsetSize(below, a - {k});
      m := Least(below);
      assert forall y :: y in a ==> y in below || k <= y;
    }
  }

  // ----- How long an acquire waits -----

  // Comparing the elapsed time with the interval leads straight to the start if
  // it is due, and else to a pause that ends just when it is.
  lemma PausesAreExact(s: State, maxConcurrent: nat, t: TaskId)
    requires Reachable(s, maxConcurrent) && Enabled(s, Measure(t))
    ensures var interval, phase := s.tasks[t].interval.value, Apply(s, Measure(t)).tasks[t].phase;
            if s.last.None? || s.last.value + interval <= s.now then phase == Stamping
            else phase == Pausing(s.last.value + interval - s.now)
  {
    ReachableInv(s, maxConcurrent);
  }

  // Such a pause, begun at once, is slept until the start is due, and no
  // longer.
  lemma SleepsUntilDue(s: State, maxConcurrent: nat, t: TaskId, d: Duration)
    requires Reachable(s, maxConcurrent) && Enabled(s, Measure(t))
    requires s.last.Some? && s.now < s.last.value + s.tasks[t].interval.value
    ensures Enabled(Apply(s, Measure(t)), Pause(t))
    ensures var asleep := Apply(Apply(s, Measure(t)), Pause(t));
            Enabled(Apply(asleep, Tick(d)), Wake(t)) <==> s.last.value + s.tasks[t].interval.value <= s.now + d
  {
    PausesAreExact(s, maxConcurrent, t);
    var measured := Apply(s, Measure(t));
    assert measured.tasks[t].phase.Pausing?;
  }

  // What is possible at any time: an acquire or a try by a new task, dropping
  // an acquire at any of its awaits, giving back a guard.
  lemma StepsAreOpen(s: State, t: TaskId, interval: Option<Duration>)
    ensures t !in s.tasks ==> Enabled(s, Begin(t, interval)) && Enabled(s, TryAcquire(t))
    ensures t in s.tasks ==>
              match s.tasks[t].phase
              case Queued => Enabled(s, Cancel(t))
              case AwaitingLock => Enabled(s, Cancel(t))
              case Sleeping(_) => Enabled(s, Cancel(t))
              case Guarding => Enabled(s, Release(t))
              case _ => true
  {}

  // A pause is no longer than the interval, and so is what is left of a sleep.
  predicate PauseFits(now: Time, task: Task) {
    match task.phase
    case Pausing(rest) => task.interval.Some? && 0 < rest <= task.interval.value
    case Sleeping(deadline) => task.interval.Some? && deadline <= now + task.interval.value
    case _ => true
  }

  ghost predicate PausesFit(s: State) {
    forall t :: t in s.tasks ==> PauseFits(s.now, s.tasks[t])
  }

  lemma StepKeepsPauses(s: State, e: Event)
    requires Enabled(s, e) && PausesFit(s)
    ensures PausesFit(Apply(s, e))
  {
    var s' := Apply(s, e);
    forall u | u in s'.tasks ensures PauseFits(s'.now, s'.tasks[u]) {
      assert u in s.tasks ==> PauseFits(s.now, s.tasks[u]);
    }
  }

  lemma {:induction false} RunKeepsPauses(s: State, events: seq<Event>)
    requires PausesFit(s) && Run(s, events).Some?
    ensures PausesFit(Run(s, events).value)
    decreases |events|
  {
    if events != [] {
      StepKeepsPauses(s, events[0]);
      RunKeepsPauses(Apply(s, events[0]), events[1..]);
    }
  }

  lemma NobodyOversleeps(s: State, maxConcurrent: nat, t: TaskId)
    requires Reachable(s, maxConcurrent) && t in s.tasks
    ensures PauseFits(s.now, s.tasks[t])
  {
    var events :| Run(New(maxConcurrent), events) == Some(s);
    RunKeepsPauses(New(maxConcurrent), events);
  }

  // `t` was acquired with this interval, and recorded a start after the first
  // `n` if it has its guard.
  ghost predicate IsAcquiring(s: State, n: nat, t: TaskId, interval: Option<Duration>) {
    && t in s.tasks && s.tasks[t].interval == interval && n <= |s.starts|
    && (interval.Some? && s.tasks[t].phase == Guarding ==> HasStarted(s, n, t, interval.value))
  }

  ghost predicate HasStarted(s: State, n: nat, t: TaskId, interval: Duration) {
    exists i :: n <= i < |s.starts| && s.starts[i].task == t && s.starts[i].interval == interval
  }

  lemma StepKeepsAcquiring(s: State, e: Event, n: nat, t: TaskId, interval: Option<Duration>)
    requires IsAcquiring(s, n, t, interval) && Enabled(s, e) && e != Release(t) && e != Cancel(t)
    ensures IsAcquiring(Apply(s, e), n, t, interval)
  {
    var s' := Apply(s, e);
    assert s.starts <= s'.starts;
    if e == Stamp(t) {
      assert s'.starts[|s.starts|].task == t;
    } else if interval.Some? && s.tasks[t].phase == Guarding {
      var i :| n <= i < |s.starts| && s.starts[i].task == t && s.starts[i].interval == interval.value;
      assert s'.starts[i] == s.starts[i];
    }
  }

  lemma {:induction false} RunKeepsAcquiring(s: State, events: seq<Event>, n: nat, t: TaskId,
                                             interval: Option<Duration>)
    requires IsAcquiring(s, n, t, interval) && Run(s, events).Some?
    requires Release(t) !in events && Cancel(t) !in events
    ensures IsAcquiring(Run(s, events).value, n, t, interval)
    decreases |events|
  {
    if events != [] {
      assert events[0] in events;
      StepKeepsAcquiring(s, events[0], n, t, interval);
      RunKeepsAcquiring(Apply(s, events[0]), events[1..], n, t, interval);
    }
  }

  // An acquire through a limiter with an interval has recorded its start, with
  // that interval, by the time it has its guard.
  lemma GuardsWereSpaced(s: State, events: seq<Event>, t: TaskId, interval: Duration)
    requires Enabled(s, Begin(t, Some(interval))) && Run(Apply(s, Begin(t, Some(interval))), events).Some?
    requires Release(t) !in events && Cancel(t) !in events
    ensures var end := Run(Apply(s, Begin(t, Some(interval))), events).value;
            t in end.tasks && (end.tasks[t].phase == Guarding ==> HasStarted(end, |s.starts|, t, interval))
  {
    RunKeepsAcquiring(Apply(s, Begin(t, Some(interval))), events, |s.starts|, t, Some(interval));
  }

  // ----- Cancellation -----

  // Whether `e` is a step of task `t` before it stamps.
  predicate OwnStep(e: Event, t: TaskId) {
    e == TakePermit(t) || e == TakeLock(t) || e == Measure(t) || e == Pause(t) || e == Wake(t)
  }

  // Whether `e` is the passing of time or a step of another task.
  predicate OtherStep(e: Event, t: TaskId) {
    e.Tick? || e.t != t
  }

  function Others(events: seq<Event>, t: TaskId): seq<Event> {
    if events == [] then []
    else (if OtherStep(events[0], t) then [events[0]] else []) + Others(events[1..], t)
  }

  // Whether a try by another task fails while `t` holds a permit, which the
  // try could have had.
  predicate Detects(s: State, t: TaskId, e: Event) {
    e.TryAcquire? && s.free == 0 && t in s.tasks && s.tasks[t].phase.HasPermit()
  }

  predicate Undetected(s: State, t: TaskId, events: seq<Event>)
    decreases |events|
  {
    events != [] && Enabled(s, events[0]) ==>
      !Detects(s, t, events[0]) && Undetected(Apply(s, events[0]), t, events[1..])
  }

  // What `s` looks like once `t`'s pending acquire is taken out of it.
  function Without(s: State, t: TaskId): State
    requires t in s.tasks
  {
    var phase := s.tasks[t].phase;
    s.(free := if phase.HasPermit() then s.free + 1 else s.free,
       lock := if phase.HasLock() then None else s.lock,
       tasks := s.tasks - {t})
  }

  lemma OwnStepVanishes(s: State, t: TaskId, e: Event)
    requires t in s.tasks && LockAgrees(s) && OwnStep(e, t) && Enabled(s, e)
    ensures t in Apply(s, e).tasks && Without(Apply(s, e), t) == Without(s, t)
  {
    assert Apply(s, e).tasks - {t} == s.tasks - {t};
  }

  lemma OtherStepEnabled(s: State, t: TaskId, e: Event)
    requires t in s.tasks && LockAgrees(s) && OtherStep(e, t) && Enabled(s, e)
    ensures Enabled(Without(s, t), e)
    ensures t in Apply(s, e).tasks && Apply(s, e).tasks[t] == s.tasks[t]
  {}

  lemma OtherStepTasks(s: State, t: TaskId, e: Event)
    requires t in s.tasks && OtherStep(e, t) && Enabled(s, e) && Enabled(Without(s, t), e) && !Detects(s, t, e)
    ensures Apply(Without(s, t), e).tasks == Apply(s, e).tasks - {t}
  {}

  lemma OtherStepStays(s: State, t: TaskId, e: Event)
    requires t in s.tasks && LockAgrees(s) && OtherStep(e, t) && Enabled(s, e) && !Detects(s, t, e)
    ensures t in Apply(s, e).tasks
    ensures Enabled(Without(s, t), e) && Apply(Without(s, t), e) == Without(Apply(s, e), t)
  {
    OtherStepEnabled(s, t, e);
    OtherStepTasks(s, t, e);
  }

  lemma {:induction false} OthersRunWithout(s: State, t: TaskId, events: seq<Event>)
    requires t in s.tasks && LockAgrees(s) && LockHeldByTask(s) && Undetected(s, t, events)
    requires forall e :: e in events ==> OwnStep(e, t) || OtherStep(e, t)
    requires Run(s, events).Some?
    ensures t in Run(s, events).value.tasks
    ensures Run(Without(s, t), Others(events, t)) == Some(Without(Run(s, events).value, t))
    decreases |events|
  {
    if events != [] {
      var e, rest := events[0], events[1..];
      assert OwnStep(e, t) || OtherStep(e, t);
      StepKeepsLock(s, e);
      if OwnStep(e, t) {
        OwnStepVanishes(s, t, e);
        assert Others(events, t) == Others(rest, t);
      } else {
        OtherStepStays(s, t, e);
        assert Others(events, t)[1..] == Others(rest, t);
      }
      OthersRunWithout(Apply(s, e), t, rest);
    }
  }

  lemma {:induction false} RunSnoc(s: State, events: seq<Event>, e: Event)
    requires Run(s, events + [e]).Some?
    ensures Run(s, events).Some? && Enabled(Run(s, events).value, e)
    ensures Run(s, events + [e]) == Some(Apply(Run(s, events).value, e))
    decreases |events|
  {
    var all := events + [e];
    if events == [] {
      assert all[1..] == [];
    } else {
      assert all[0] == events[0] && all[1..] == events[1..] + [e];
      RunSnoc(Apply(s, events[0]), events[1..], e);
    }
  }

  // An acquire dropped at any await leaves no trace, whatever other tasks do
  // meanwhile: the run without it ends in the same state, permits, lock, last
  // start and all. Only a try that failed for want of its permit could tell.
  lemma CancelUndoesAcquire(s: State, maxConcurrent: nat, t: TaskId, interval: Option<Duration>, events: seq<Event>)
    requires Reachable(s, maxConcurrent) && t !in s.tasks
    requires forall e :: e in events ==> OwnStep(e, t) || OtherStep(e, t)
    requires Undetected(Apply(s, Begin(t, interval)), t, events)
    requires Run(s, [Begin(t, interval)] + (events + [Cancel(t)])).Some?
    ensures Run(s, Others(events, t)) == Run(s, [Begin(t, interval)] + (events + [Cancel(t)]))
  {
    ReachableInv(s, maxConcurrent);
    var all := [Begin(t, interval)] + (events + [Cancel(t)]);
    assert all[1..] == events + [Cancel(t)];
    var s0 := Apply(s, Begin(t, interval));
    StepKeepsLock(s, Begin(t, interval));
    assert s0.tasks - {t} == s.tasks;
    assert Without(s0, t) == s;
    RunSnoc(s0, events, Cancel(t));
    OthersRunWithout(s0, t, events);
  }

  // A try that fails in this way does tell: the run without the acquire hands
  // it the permit.
  lemma TryCanTell(s: State, t: TaskId, u: TaskId)
    requires t in s.tasks && u !in s.tasks && Detects(s, t, TryAcquire(u))
    ensures u !in Apply(s, TryAcquire(u)).tasks && u in Apply(Without(s, t), TryAcquire(u)).tasks
  {}

  // ----- Progress -----

  // A step of an acquire, or the return of a permit.
  predicate IsProgress(e: Event) {
    e.TakePermit? || e.TakeLock? || e.Measure? || e.Pause? || e.Wake? || e.Stamp? || e.Release?
  }

  // Whatever has happened, an acquire that is waiting is never stuck: a guard
  // is out, or some waiting acquire can step, at the latest once time passes.
  lemma WaitingIsNeverStuck(s: State, maxConcurrent: nat, t: TaskId)
    requires Reachable(s, maxConcurrent)
    requires t in s.tasks && s.tasks[t].phase != Guarding
    ensures exists d: Duration, e: Event :: Enabled(Apply(s, Tick(d)), e) && IsProgress(e)
  {
    ReachableInv(s, maxConcurrent);
    var u, d := t, 0;
    if s.tasks[t].phase == Queued && s.free == 0 {
      assert WithPermit(s) != {};
      u :| u in WithPermit(s);
    }
    if s.tasks[u].phase == AwaitingLock && s.lock.Some? {
      u := s.lock.value;
    }
    if s.tasks[u].phase.Sleeping? {
      d := s.tasks[u].phase.deadline;
    }
    var e := match s.tasks[u].phase
      case Queued => TakePermit(u)
      case AwaitingLock => TakeLock(u)
      case Measuring => Measure(u)
      case Pausing(_) => Pause(u)
      case Sleeping(_) => Wake(u)
      case Stamping => Stamp(u)
      case Guarding => Release(u);
    assert Enabled(Apply(s, Tick(d)), e) && IsProgress(e);
  }
}
