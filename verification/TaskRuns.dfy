/** Concurrent calls of Run on one task (tasks/task.go), and the scheduler that spawns them, as one
    state machine over all interleavings. */
module TaskRuns {
  import opened Tasks

  const TWO_32: int := 0x1_0000_0000

  type Caller = nat

  /** How far a call of Run is. round tells a call that the scheduler spawned how many times the
      task had been rescheduled by then; -1 for other calls. */
  datatype Phase =
    | Wanting(round: int)
    | Locked(round: int)
    | InCallback(start: int)
    | Returned(start: int)
    | Rescheduled(start: int)

  /** starts are the times at which callbacks were begun, rounds counts the reschedulings. */
  datatype State = State(
    now: int,
    lastRunAt: int,
    nextRunAt: int,
    running: bool,
    lock: bool,
    count: int,
    callers: map<Caller, Phase>,
    acquired: nat,
    starts: seq<int>,
    rounds: nat)

  function Init(now: int, lastRunAt: int, nextRunAt: int): State {
    State(now, lastRunAt, nextRunAt, false, false, 0, map[], 0, [], 0)
  }

  datatype Step =
    | Advance(time: nat)
    | Call(caller: Caller)
    | Spawn(caller: Caller)
    | Acquire(caller: Caller)
    | GiveUp(caller: Caller)
    | Start(caller: Caller)
    | Finish(caller: Caller)
    | Reschedule(caller: Caller)
    | Release(caller: Caller)

  predicate Enabled(s: State, step: Step) {
    match step
    case Advance(_) => true
    case Call(c) => c !in s.callers
    case Spawn(c) => c !in s.callers && !s.running && Due(s.nextRunAt, s.now)
    case Acquire(c) => c in s.callers && s.callers[c].Wanting? && !s.lock
    case GiveUp(c) => c in s.callers && s.callers[c].Wanting?
    case Start(c) => c in s.callers && s.callers[c].Locked?
    case Finish(c) => c in s.callers && s.callers[c].InCallback?
    case Reschedule(c) => c in s.callers && s.callers[c].Returned?
    case Release(c) => c in s.callers && s.callers[c].Rescheduled?
  }

  function Do(period: int, s: State, step: Step): State
    requires Enabled(s, step)
  {
    match step
    case Advance(time) => s.(now := s.now + time)
    case Call(c) => s.(callers := s.callers[c := Wanting(-1)])
    case Spawn(c) => s.(callers := s.callers[c := Wanting(s.rounds)])
    case Acquire(c) => s.(callers := s.callers[c := Locked(s.callers[c].round)], lock := true,
                          acquired := s.acquired + 1)
    case GiveUp(c) => s.(callers := s.callers - {c})
    case Start(c) => s.(callers := s.callers[c := InCallback(s.now)], lastRunAt := s.now, running := true,
                        count := (s.count + 1) % TWO_32, starts := s.starts + [s.now])
    case Finish(c) => s.(callers := s.callers[c := Returned(s.callers[c].start)], running := false)
    case Reschedule(c) => s.(callers := s.callers[c := Rescheduled(s.callers[c].start)],
                             nextRunAt := s.lastRunAt + period, rounds := s.rounds + 1)
    case Release(c) => s.(callers := s.callers - {c}, lock := false)
  }

  predicate CanRun(period: int, s: State, steps: seq<Step>)
    decreases steps
  {
    steps == [] || (Enabled(s, steps[0]) && CanRun(period, Do(period, s, steps[0]), steps[1..]))
  }

  function After(period: int, s: State, steps: seq<Step>): State
    requires CanRun(period, s, steps)
    decreases steps
  {
    if steps == [] then s else After(period, Do(period, s, steps[0]), steps[1..])
  }

  // ----- What every step keeps -----

  predicate Active(s: State, c: Caller) {
    c in s.callers && !s.callers[c].Wanting?
  }

  /** The lock is held exactly while some call is past it, and never by two. */
  ghost predicate Exclusive(s: State) {
    && (forall c, d | Active(s, c) && Active(s, d) :: c == d)
    && (s.lock <==> exists c :: Active(s, c))
  }

  ghost predicate Consistent(period: int, s: State) {
    && (forall c | Active(s, c) && !s.callers[c].Locked? ::
          s.starts != [] && s.callers[c].start == s.lastRunAt == s.starts[|s.starts| - 1])
    && (forall c | Active(s, c) && s.callers[c].Rescheduled? :: s.nextRunAt == s.lastRunAt + period)
    && (s.running ==> s.lock && forall c | Active(s, c) :: s.callers[c].InCallback?)
    && (forall c | Active(s, c) && s.callers[c].InCallback? :: s.running)
    && (s.starts != [] && (!s.lock || exists c :: Active(s, c) && s.callers[c].Locked?) ==>
          s.nextRunAt == s.starts[|s.starts| - 1] + period)
    && (s.starts == [] ==> s.rounds == 0)
  }

  ghost predicate Counted(s: State) {
    && s.count == |s.starts| % TWO_32
    && |s.starts| <= s.acquired <= |s.starts| + 1
    && (s.acquired == |s.starts| + 1 ==> s.lock && forall c | Active(s, c) :: s.callers[c].Locked?)
    && (s.acquired == |s.starts| ==> forall c | Active(s, c) :: !s.callers[c].Locked?)
  }

  ghost predicate StillDue(s: State) {
    forall c | c in s.callers && (s.callers[c].Wanting? || s.callers[c].Locked?) ::
      s.callers[c].round <= s.rounds && (s.callers[c].round == s.rounds ==> Due(s.nextRunAt, s.now))
  }

  ghost predicate Inv(period: int, s: State) {
    Exclusive(s) && Consistent(period, s) && Counted(s) && StillDue(s)
  }

  lemma ActiveAfter(period: int, s: State, step: Step)
    requires Enabled(s, step)
    ensures forall c :: Active(Do(period, s, step), c)
                        <==> (Active(s, c) && step != Release(c)) || step == Acquire(c)
    ensures step.Start? || step.Finish? || step.Reschedule? || step.Release? ==> Active(s, step.caller)
  {}

  lemma ExclusiveStep(period: int, s: State, step: Step)
    requires Exclusive(s) && Enabled(s, step)
    ensures Exclusive(Do(period, s, step))
  {
    hide Active;
    ActiveAfter(period, s, step);
  }

  lemma ConsistentStep(period: int, s: State, step: Step)
    requires Exclusive(s) && Consistent(period, s) && Enabled(s, step)
    ensures Consistent(period, Do(period, s, step))
  {
    ActiveAfter(period, s, step);
    if step.Finish? || step.Release? || step.Reschedule? || step.Start? {
      assert Active(s, step.caller);
    }
  }

  lemma CountedStep(period: int, s: State, step: Step)
    requires Exclusive(s) && Counted(s) && Enabled(s, step)
    ensures Counted(Do(period, s, step))
  {
    ActiveAfter(period, s, step);
    if step.Start? {
      CountOne(|s.starts|);
    }
  }

  lemma CountOne(n: nat)
    ensures (n % TWO_32 + 1) % TWO_32 == (n + 1) % TWO_32
  {}

  lemma StillDueStep(period: int, s: State, step: Step)
    requires StillDue(s) && Enabled(s, step)
    ensures StillDue(Do(period, s, step))
  {}

  lemma InvStep(period: int, s: State, step: Step)
    requires Inv(period, s) && Enabled(s, step)
    ensures Inv(period, Do(period, s, step))
  {
    hide Exclusive, Consistent, Counted, StillDue;
    ExclusiveStep(period, s, step);
    ConsistentStep(period, s, step);
    CountedStep(period, s, step);
    StillDueStep(period, s, step);
  }

  lemma {:induction false} InvRun(period: int, s: State, steps: seq<Step>)
    requires Inv(period, s) && CanRun(period, s, steps)
    ensures Inv(period, After(period, s, steps))
    decreases steps
  {
    if steps != [] {
      InvStep(period, s, steps[0]);
      InvRun(period, Do(period, s, steps[0]), steps[1..]);
    }
  }

  lemma FromStart(period: int, now: int, last: int, next: int, steps: seq<Step>)
    requires CanRun(period, Init(now, last, next), steps)
    ensures Inv(period, After(period, Init(now, last, next), steps))
  {
    InvRun(period, Init(now, last, next), steps);
  }

  /** Under every interleaving at most one callback of a task is in flight, and running says so. */
  lemma OneCallback(period: int, now: int, last: int, next: int, steps: seq<Step>, c: Caller, d: Caller)
    requires CanRun(period, Init(now, last, next), steps)
    ensures var t := After(period, Init(now, last, next), steps);
      && (c in t.callers && t.callers[c].InCallback? && d in t.callers && t.callers[d].InCallback? ==> c == d)
      && (c in t.callers && t.callers[c].InCallback? ==> t.running)
  {
    FromStart(period, now, last, next, steps);
    var t := After(period, Init(now, last, next), steps);
    assert c in t.callers && t.callers[c].InCallback? ==> Active(t, c);
    assert d in t.callers && t.callers[d].InCallback? ==> Active(t, d);
  }

  /** RunCount is the number of times the lock was taken, modulo 2^32, whenever it is free. */
  lemma RunCount(period: int, now: int, last: int, next: int, steps: seq<Step>)
    requires CanRun(period, Init(now, last, next), steps)
    ensures var t := After(period, Init(now, last, next), steps);
      && t.count == |t.starts| % 0x1_0000_0000
      && (!t.lock ==> t.acquired == |t.starts|)
  {
    FromStart(period, now, last, next, steps);
  }

  /** When no run is under way, the next run is the start of the last one plus the period. */
  lemma NextAfterRun(period: int, now: int, last: int, next: int, steps: seq<Step>)
    requires CanRun(period, Init(now, last, next), steps)
    ensures var t := After(period, Init(now, last, next), steps);
      !t.lock && t.starts != [] ==> t.nextRunAt == t.starts[|t.starts| - 1] + period
  {
    FromStart(period, now, last, next, steps);
  }

  /** A run that the scheduler spawned is due when it begins exactly if no other run has
      rescheduled the task since, or if the period after the last start is over again. */
  lemma BeginsWhenDue(period: int, now: int, last: int, next: int, steps: seq<Step>, c: Caller)
    requires CanRun(period, Init(now, last, next), steps)
    requires var t := After(period, Init(now, last, next), steps);
      c in t.callers && t.callers[c].Locked? && t.callers[c].round >= 0
    ensures var t := After(period, Init(now, last, next), steps);
      Due(t.nextRunAt, t.now) <==>
      t.callers[c].round == t.rounds || (t.starts != [] && t.now > t.starts[|t.starts| - 1] + period)
  {
    hide CanRun, After;
    FromStart(period, now, last, next, steps);
    assert Active(After(period, Init(now, last, next), steps), c);
  }

  // ----- One due time, two runs -----

  lemma Cons(period: int, s: State, steps: seq<Step>)
    requires steps != [] && Enabled(s, steps[0]) && CanRun(period, Do(period, s, steps[0]), steps[1..])
    ensures CanRun(period, s, steps) && After(period, s, steps) == After(period, Do(period, s, steps[0]), steps[1..])
  {}

  lemma Nil(period: int, s: State)
    ensures CanRun(period, s, []) && After(period, s, []) == s
  {}

  /** Run does not look at the schedule again: a run spawned between the end of a callback and its
      rescheduling begins a second callback, at a time when the task is not due. */
  lemma RunsTwice(period: int, now: int)
    requires period > 0
    ensures var s := Init(now, now - 1, now - 1);
      var steps := [Spawn(0), Acquire(0), Start(0), Finish(0), Spawn(1), Reschedule(0), Release(0), Acquire(1), Start(1)];
      && CanRun(period, s, steps)
      && var t := After(period, s, steps);
         t.starts == [now, now] && !Due(t.nextRunAt, t.now)
  {
    hide CanRun, After;
    var s := Init(now, now - 1, now - 1);
    var s1 := Do(period, s, Spawn(0));
    var s2 := Do(period, s1, Acquire(0));
    var s3 := Do(period, s2, Start(0));
    var s4 := s.(lastRunAt := now, lock := true, count := 1, callers := map[0 := Returned(now)],
                 acquired := 1, starts := [now]);
    assert Do(period, s3, Finish(0)) == s4;
    SpawnedLate(period, now, s4);
    Cons(period, s3, [Finish(0), Spawn(1), Reschedule(0), Release(0), Acquire(1), Start(1)]);
    Cons(period, s2, [Start(0), Finish(0), Spawn(1), Reschedule(0), Release(0), Acquire(1), Start(1)]);
    Cons(period, s1, [Acquire(0), Start(0), Finish(0), Spawn(1), Reschedule(0), Release(0), Acquire(1), Start(1)]);
    Cons(period, s, [Spawn(0), Acquire(0), Start(0), Finish(0), Spawn(1), Reschedule(0), Release(0), Acquire(1), Start(1)]);
  }

  lemma SpawnedLate(period: int, now: int, s: State)
    requires period > 0 && s == State(now, now, now - 1, false, true, 1, map[0 := Returned(now)], 1, [now], 0)
    ensures var steps := [Spawn(1), Reschedule(0), Release(0), Acquire(1), Start(1)];
      && CanRun(period, s, steps)
      && var t := After(period, s, steps);
         t.starts == [now, now] && !Due(t.nextRunAt, t.now)
  {
    hide CanRun, After;
    var s1 := Do(period, s, Spawn(1));
    var s2 := Do(period, s1, Reschedule(0));
    var s3 := Do(period, s2, Release(0));
    var s4 := Do(period, s3, Acquire(1));
    Nil(period, Do(period, s4, Start(1)));
    Cons(period, s4, [Start(1)]);
    Cons(period, s3, [Acquire(1), Start(1)]);
    Cons(period, s2, [Release(0), Acquire(1), Start(1)]);
    Cons(period, s1, [Reschedule(0), Release(0), Acquire(1), Start(1)]);
    Cons(period, s, [Spawn(1), Reschedule(0), Release(0), Acquire(1), Start(1)]);
  }

  // ----- Runs begin and end -----

  /** How many steps of its own a call still needs. */
  function StepsLeft(p: Phase): nat {
    match p
    case Wanting(_) => 1
    case Locked(_) => 4
    case InCallback(_) => 3
    case Returned(_) => 2
    case Rescheduled(_) => 1
  }

  function NextOwn(p: Phase, c: Caller): Step {
    match p
    case Wanting(_) => GiveUp(c)
    case Locked(_) => Start(c)
    case InCallback(_) => Finish(c)
    case Returned(_) => Reschedule(c)
    case Rescheduled(_) => Release(c)
  }

  /** No call of Run is ever stuck: by its own steps alone, at most four, it returns; one that had the
      lock has freed it by then. */
  lemma {:induction false} RunReturns(period: int, s: State, c: Caller) returns (steps: seq<Step>)
    requires c in s.callers
    ensures CanRun(period, s, steps) && |steps| <= StepsLeft(s.callers[c])
    ensures forall step | step in steps :: !step.Advance? && step.caller == c
    ensures c !in After(period, s, steps).callers
    ensures Active(s, c) ==> !After(period, s, steps).lock
    decreases StepsLeft(s.callers[c])
  {
    hide CanRun, After;
    var step := NextOwn(s.callers[c], c);
    var t := Do(period, s, step);
    Nil(period, t);
    steps := [];
    if c in t.callers {
      steps := RunReturns(period, t, c);
    }
    Cons(period, s, [step] + steps);
    assert ([step] + steps)[1..] == steps;
    steps := [step] + steps;
  }

  /** A waiting call that finds the lock free runs the callback once, counts it, and leaves the task
      scheduled one period after its start, with the lock free again. */
  lemma RunRuns(period: int, s: State, c: Caller)
    requires c in s.callers && s.callers[c].Wanting? && !s.lock
    ensures var steps := [Acquire(c), Start(c), Finish(c), Reschedule(c), Release(c)];
      && CanRun(period, s, steps)
      && var t := After(period, s, steps);
         && t.starts == s.starts + [s.now] && t.lastRunAt == s.now && t.nextRunAt == s.now + period
         && t.count == (s.count + 1) % 0x1_0000_0000 && !t.lock && !t.running
         && t.callers == s.callers - {c}
  {
    hide CanRun, After;
    var s1 := Do(period, s, Acquire(c));
    var s2 := Do(period, s1, Start(c));
    var s3 := Do(period, s2, Finish(c));
    var s4 := Do(period, s3, Reschedule(c));
    var s5 := Do(period, s4, Release(c));
    Nil(period, s5);
    Cons(period, s4, [Release(c)]);
    Cons(period, s3, [Reschedule(c), Release(c)]);
    Cons(period, s2, [Finish(c), Reschedule(c), Release(c)]);
    Cons(period, s1, [Start(c), Finish(c), Reschedule(c), Release(c)]);
    Cons(period, s, [Acquire(c), Start(c), Finish(c), Reschedule(c), Release(c)]);
  }

  /** A task that is due and does not run is run: from every reachable state without a run under
      way the scheduler's call leads to a callback. */
  lemma DueTaskRuns(period: int, s: State, c: Caller)
    requires Inv(period, s) && c !in s.callers && !s.lock
    ensures Enabled(s, Spawn(c)) <==> s.now > s.nextRunAt
    ensures s.now > s.nextRunAt ==>
      var steps := [Spawn(c), Acquire(c), Start(c), Finish(c), Reschedule(c), Release(c)];
      && CanRun(period, s, steps) && After(period, s, steps).starts == s.starts + [s.now]
      && After(period, s, steps).callers == s.callers
  {
    hide CanRun, After;
    if s.now > s.nextRunAt {
      RunRuns(period, Do(period, s, Spawn(c)), c);
      Cons(period, s, [Spawn(c), Acquire(c), Start(c), Finish(c), Reschedule(c), Release(c)]);
    }
  }
}
