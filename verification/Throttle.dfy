/** The throttler (algorithms/throttle/throttle.go): its critical sections, the condition variable,
    the timers it starts and the clock as one state machine over all interleavings. */
module Throttle {
  import opened Wrappers

  /** Nanoseconds in an int64. */
  const MAX_DURATION: int := 0x7fff_ffff_ffff_ffff
  type Duration = d: int | -MAX_DURATION - 1 <= d <= MAX_DURATION witness 0

  type Caller = nat

  datatype Config = Config(period: Duration, trailing: bool)

  /** sleeping are the callers of Next inside Wait, woken those that a broadcast has released and
      that have yet to get the lock; timers are the deadlines of the pending broadcasts.
      signals counts the Triggers that set waiting, granted is when Next returned true. */
  datatype State = State(
    now: int,
    last: Option<int>,
    waiting: bool,
    stop: bool,
    sleeping: set<Caller>,
    woken: set<Caller>,
    timers: multiset<int>,
    signals: nat,
    granted: seq<int>)

  function Init(now: int): State {
    State(now, None, false, false, {}, {}, multiset{}, 0, [])
  }

  datatype Step =
    | Advance(time: nat)
    | Trigger
    | Next(caller: Caller)
    | Recheck(caller: Caller)
    | Fire(deadline: int)
    | Stop

  /** The time since last, which Sub cuts off at the longest duration. */
  function Since(now: int, last: Option<int>): int {
    if last.None? || now - last.value > MAX_DURATION then MAX_DURATION else now - last.value
  }

  predicate Enabled(s: State, step: Step) {
    match step
    case Advance(_) => true
    case Trigger => true
    case Next(c) => c !in s.sleeping && c !in s.woken
    case Recheck(c) => c in s.woken
    case Fire(d) => d in s.timers && d <= s.now
    case Stop => true
  }

  function Broadcast(s: State): State {
    s.(sleeping := {}, woken := s.woken + s.sleeping)
  }

  /** The loop and the tail of Next for a caller that has the lock. */
  function Turn(s: State, c: Caller): State {
    if !s.waiting && !s.stop then s.(sleeping := s.sleeping + {c}, woken := s.woken - {c})
    else if !s.stop then s.(waiting := false, last := Some(s.now), granted := s.granted + [s.now],
                            woken := s.woken - {c})
    else s.(woken := s.woken - {c})
  }

  function Do(c: Config, s: State, step: Step): State
    requires Enabled(s, step)
  {
    match step
    case Advance(time) => s.(now := s.now + time)
    case Trigger =>
      if s.waiting || s.stop then s
      else
        var delta := Since(s.now, s.last);
        if delta > c.period then Broadcast(s.(waiting := true, signals := s.signals + 1))
        else if c.trailing then
          s.(waiting := true, signals := s.signals + 1, timers := s.timers + multiset{s.now + (c.period - delta)})
        else s
    case Next(id) => Turn(s, id)
    case Recheck(id) => Turn(s, id)
    case Fire(d) => Broadcast(s.(timers := s.timers - multiset{d}))
    case Stop => Broadcast(s.(stop := true))
  }

  predicate CanRun(c: Config, s: State, steps: seq<Step>)
    decreases steps
  {
    steps == [] || (Enabled(s, steps[0]) && CanRun(c, Do(c, s, steps[0]), steps[1..]))
  }

  function After(c: Config, s: State, steps: seq<Step>): State
    requires CanRun(c, s, steps)
    decreases steps
  {
    if steps == [] then s else After(c, Do(c, s, steps[0]), steps[1..])
  }

  lemma Cons(c: Config, s: State, steps: seq<Step>)
    requires steps != [] && Enabled(s, steps[0]) && CanRun(c, Do(c, s, steps[0]), steps[1..])
    ensures CanRun(c, s, steps) && After(c, s, steps) == After(c, Do(c, s, steps[0]), steps[1..])
  {}

  lemma Nil(c: Config, s: State)
    ensures CanRun(c, s, []) && After(c, s, []) == s
  {}

  // ----- What every step keeps -----

  /** No wakeup is lost: while there is something to wake up for, whoever sleeps has a broadcast
      coming. */
  predicate Awake(s: State) {
    && s.sleeping !! s.woken
    && (s.stop ==> s.sleeping == {})
    && (s.waiting && s.sleeping != {} ==> |s.timers| > 0)
  }

  predicate Counted(s: State) {
    && s.signals == |s.granted| + (if s.waiting then 1 else 0)
    && (s.granted == [] ==> s.last == None)
    && (s.granted != [] ==> s.last == Some(s.granted[|s.granted| - 1]) && s.granted[|s.granted| - 1] <= s.now)
  }

  /** Consecutive grants are more than gap apart. */
  predicate Apart(granted: seq<int>, gap: int) {
    forall i | 0 <= i < |granted| - 1 :: granted[i + 1] - granted[i] > gap
  }

  predicate Leading(c: Config, s: State) {
    && Apart(s.granted, c.period)
    && (s.waiting && s.last.Some? ==> s.now - s.last.value > c.period)
  }

  predicate Inv(c: Config, s: State) {
    Awake(s) && Counted(s) && (!c.trailing ==> Leading(c, s) && s.timers == multiset{})
  }

  lemma InvStep(c: Config, s: State, step: Step)
    requires Inv(c, s) && Enabled(s, step)
    ensures Inv(c, Do(c, s, step))
  {}

  lemma {:induction false} InvRun(c: Config, s: State, steps: seq<Step>)
    requires Inv(c, s) && CanRun(c, s, steps)
    ensures Inv(c, After(c, s, steps))
    decreases steps
  {
    if steps != [] {
      InvStep(c, s, steps[0]);
      InvRun(c, Do(c, s, steps[0]), steps[1..]);
    }
  }

  /** In every run true returns never outnumber the Triggers that set waiting, and a caller asleep
      while there is work or a stop has a broadcast coming. */
  lemma NoLostWakeup(c: Config, now: int, steps: seq<Step>)
    requires CanRun(c, Init(now), steps)
    ensures var t := After(c, Init(now), steps);
      && |t.granted| <= t.signals <= |t.granted| + 1
      && (t.stop ==> t.sleeping == {})
      && (t.waiting && t.sleeping != {} ==> |t.timers| > 0)
  {
    InvRun(c, Init(now), steps);
  }

  /** Without trailing, true returns are more than one period apart. */
  lemma LeadingIsSpaced(c: Config, now: int, steps: seq<Step>)
    requires !c.trailing && CanRun(c, Init(now), steps)
    ensures Apart(After(c, Init(now), steps).granted, c.period)
  {
    InvRun(c, Init(now), steps);
  }

  /** After Stop nothing is granted any more. */
  lemma {:induction false} StopIsFinal(c: Config, s: State, steps: seq<Step>)
    requires s.stop && CanRun(c, s, steps)
    ensures After(c, s, steps).stop && After(c, s, steps).granted == s.granted
    decreases steps
  {
    if steps != [] {
      StopIsFinal(c, Do(c, s, steps[0]), steps[1..]);
    }
  }

  // ----- The wakeup arrives -----

  /** A released caller returns, with true exactly if there was no stop. */
  lemma Served(c: Config, s: State, id: Caller)
    requires Awake(s) && (s.waiting || s.stop) && id in s.woken
    ensures CanRun(c, s, [Recheck(id)])
    ensures var t := After(c, s, [Recheck(id)]);
      && |t.granted| == |s.granted| + (if s.stop then 0 else 1)
      && t.sleeping == s.sleeping && t.woken == s.woken - {id}
  {}

  lemma Pick<T>(m: multiset<T>) returns (x: T)
    requires |m| > 0
    ensures x in m
  {
    assert m != multiset{};
    x :| x in m;
  }

  /** Whenever there is work or a stop and someone is in Next, the clock, a timer and the caller
      alone bring one caller back, with true exactly if there was no stop. */
  lemma WakeupArrives(c: Config, s: State) returns (steps: seq<Step>)
    requires Inv(c, s) && (s.waiting || s.stop) && s.sleeping + s.woken != {}
    ensures forall step | step in steps :: step.Advance? || step.Fire? || step.Recheck?
    ensures CanRun(c, s, steps)
    ensures |After(c, s, steps).granted| == |s.granted| + (if s.stop then 0 else 1)
    ensures After(c, s, steps).sleeping + After(c, s, steps).woken < s.sleeping + s.woken
  {
    hide CanRun, After, Counted, Leading;
    if s.woken != {} {
      var id :| id in s.woken;
      steps := [Recheck(id)];
      Served(c, s, id);
    } else {
      var d := Pick(s.timers);
      var s1 := Do(c, s, Advance(if d <= s.now then 0 else d - s.now));
      var s2 := Do(c, s1, Fire(d));
      var id :| id in s2.woken;
      steps := [Advance(s1.now - s.now), Fire(d), Recheck(id)];
      Served(c, s2, id);
      Cons(c, s1, [Fire(d), Recheck(id)]);
      Cons(c, s, steps);
    }
  }

  // ----- A Trigger is answered -----

  /** More than a period has passed since Next last returned true, or it never did. */
  predicate PeriodOver(c: Config, s: State) {
    s.granted == [] || s.now - s.granted[|s.granted| - 1] > c.period
  }

  /** The step in which a caller of Next looks again, or calls it. */
  function LookStep(s: State, id: Caller): Step {
    if id in s.sleeping || id in s.woken then Recheck(id) else Next(id)
  }

  /** Trigger and the next look of a caller, asleep in Next or not, let it through exactly if the
      period is over; with trailing a caller that is not asleep is let through in any case. */
  lemma TriggerServes(c: Config, s: State, id: Caller)
    requires Inv(c, s) && !s.waiting && !s.stop && c.period < MAX_DURATION
    ensures var t := Do(c, s, Trigger); var look := LookStep(s, id);
      PeriodOver(c, s) || (c.trailing && id !in s.sleeping)
      <==> Enabled(t, look) && Do(c, t, look).granted == s.granted + [s.now]
  {}

  /** A Trigger changes nothing exactly if there is one already, after a Stop, or, without trailing,
      within the period; the longest period is never over. */
  lemma TriggerIgnored(c: Config, s: State)
    requires Inv(c, s)
    ensures Do(c, s, Trigger) == s
            <==> s.waiting || s.stop || (!c.trailing && (c.period == MAX_DURATION || !PeriodOver(c, s)))
  {}

  /** With trailing a Trigger within the period is remembered, with a timer for the end of it. */
  lemma TrailingTimer(c: Config, s: State)
    requires Inv(c, s) && c.trailing && !s.waiting && !s.stop && !PeriodOver(c, s)
    ensures Do(c, s, Trigger) == s.(waiting := true, signals := s.signals + 1,
                                    timers := s.timers + multiset{s.granted[|s.granted| - 1] + c.period})
  {}

  /** "One more time at the beginning of the next period": a sleeping caller is let through then. */
  lemma TrailingServes(c: Config, s: State, id: Caller)
    requires Inv(c, s) && c.trailing && !s.waiting && !s.stop && !PeriodOver(c, s) && id in s.sleeping
    ensures var end := s.granted[|s.granted| - 1] + c.period;
      var steps := [Trigger, Advance(end - s.now), Fire(end), Recheck(id)];
      CanRun(c, s, steps) && After(c, s, steps).granted == s.granted + [end]
  {
    hide CanRun, After;
    var end := s.granted[|s.granted| - 1] + c.period;
    TrailingTimer(c, s);
    var s1 := Do(c, s, Trigger);
    var s2 := Do(c, s1, Advance(end - s.now));
    var s3 := Do(c, s2, Fire(end));
    Nil(c, Do(c, s3, Recheck(id)));
    Cons(c, s3, [Recheck(id)]);
    Cons(c, s2, [Fire(end), Recheck(id)]);
    Cons(c, s1, [Advance(end - s.now), Fire(end), Recheck(id)]);
    Cons(c, s, [Trigger, Advance(end - s.now), Fire(end), Recheck(id)]);
  }

  // ----- Trailing -----

  /** Consecutive grants are at least gap apart. */
  predicate Spaced(granted: seq<int>, gap: int) {
    forall i | 0 <= i < |granted| - 1 :: granted[i + 1] - granted[i] >= gap
  }

  /** Callers are asleep in Next before they are signalled: no Next finds waiting already set, and
      no Trigger comes while a released caller has yet to get the lock. */
  predicate AsleepFirst(c: Config, s: State, steps: seq<Step>)
    requires CanRun(c, s, steps)
    decreases steps
  {
    steps == [] ||
    (&& (steps[0].Next? ==> !s.waiting)
     && (steps[0].Trigger? ==> s.woken == {})
     && AsleepFirst(c, Do(c, s, steps[0]), steps[1..]))
  }

  predicate Timely(c: Config, s: State) {
    && Spaced(s.granted, c.period)
    && |s.timers| <= 1 && (!s.waiting ==> s.timers == multiset{})
    && (s.last.Some? ==> forall d | d in s.timers :: d - s.last.value >= c.period)
    && (s.waiting && s.woken != {} && !s.stop ==>
          s.timers == multiset{} && (s.last.Some? ==> s.now - s.last.value >= c.period))
  }

  lemma TimelyStep(c: Config, s: State, step: Step)
    requires Counted(s) && Timely(c, s) && Enabled(s, step)
    requires (step.Next? ==> !s.waiting) && (step.Trigger? ==> s.woken == {})
    ensures Timely(c, Do(c, s, step)) && Counted(Do(c, s, step))
  {
    if step.Fire? {
      assert s.timers == multiset{step.deadline} + (s.timers - multiset{step.deadline});
    }
  }

  /** In both modes true returns are at least a period apart when the callers are asleep first. */
  lemma {:induction false} SpacedWhenAsleep(c: Config, s: State, steps: seq<Step>)
    requires Counted(s) && Timely(c, s) && CanRun(c, s, steps) && AsleepFirst(c, s, steps)
    ensures Spaced(After(c, s, steps).granted, c.period)
    decreases steps
  {
    if steps != [] {
      TimelyStep(c, s, steps[0]);
      SpacedWhenAsleep(c, Do(c, s, steps[0]), steps[1..]);
    }
  }

  /** With trailing a busy caller is let through at once, however short a time ago it was served. */
  lemma ServedEarly(c: Config, s: State)
    requires c.trailing && Since(s.now, s.last) <= c.period
    requires !s.waiting && !s.stop && s.sleeping == s.woken == {}
    ensures CanRun(c, s, [Trigger, Next(0)])
    ensures After(c, s, [Trigger, Next(0)]).granted == s.granted + [s.now]
  {}

  /** The second of two grants may come with no time between them. */
  lemma TrailingCanBeEarly(c: Config, now: int)
    requires c.trailing && c.period > 0
    ensures CanRun(c, Init(now), [Trigger, Next(0), Trigger, Next(0)])
    ensures After(c, Init(now), [Trigger, Next(0), Trigger, Next(0)]).granted == [now, now]
  {
    hide CanRun, After;
    var s1 := Do(c, Init(now), Trigger);
    var s2 := Do(c, s1, Next(0));
    ServedEarly(c, s2);
    Cons(c, s1, [Next(0), Trigger, Next(0)]);
    Cons(c, Init(now), [Trigger, Next(0), Trigger, Next(0)]);
  }

  /** Every run of this configuration keeps its true returns a period apart. */
  ghost predicate AlwaysSpaced(c: Config, now: int) {
    forall steps | CanRun(c, Init(now), steps) :: Spaced(After(c, Init(now), steps).granted, c.period)
  }

  predicate Ordered(s: State) {
    Counted(s) && Spaced(s.granted, 0)
  }

  lemma {:induction false} ClockOrder(c: Config, s: State, steps: seq<Step>)
    requires Ordered(s) && CanRun(c, s, steps)
    ensures Ordered(After(c, s, steps))
    decreases steps
  {
    if steps != [] {
      ClockOrder(c, Do(c, s, steps[0]), steps[1..]);
    }
  }

  /** "True at most once per period" holds of every run exactly without trailing, or when the
      period is not positive. */
  lemma SpacedExactly(c: Config, now: int)
    ensures AlwaysSpaced(c, now) <==> !c.trailing || c.period <= 0
  {
    hide CanRun, After;
    if c.trailing && c.period > 0 {
      TrailingCanBeEarly(c, now);
      assert !Spaced([now, now], c.period) by { assert [now, now][1] - [now, now][0] == 0; }
    } else {
      forall steps | CanRun(c, Init(now), steps)
        ensures Spaced(After(c, Init(now), steps).granted, c.period)
      {
        if c.trailing {
          ClockOrder(c, Init(now), steps);
        } else {
          LeadingIsSpaced(c, now, steps);
        }
      }
    }
  }

  // ----- The critical sections -----

  /** The fields under the lock. Each method is one critical section; s is the state of the whole
      system that it runs in. */
  class Throttler {
    const config: Config
    var last: Option<int>
    var waiting: bool
    var stop: bool

    constructor (config: Config, ghost now: int)
      ensures this.config == config && Represents(Init(now))
    {
      this.config, last, waiting, stop := config, None, false, false;
    }

    ghost predicate Represents(s: State)
      reads this
    {
      last == s.last && waiting == s.waiting && stop == s.stop
    }

    /** Trigger at time now: whether it broadcasts, and the delay of the timer that it starts. */
    method Trigger(now: int, ghost s: State) returns (broadcast: bool, delay: Option<int>)
      requires Represents(s) && s.now == now
      modifies this
      ensures Represents(Do(config, s, Step.Trigger))
      ensures Do(config, s, Step.Trigger).timers
              == s.timers + (if delay.Some? then multiset{now + delay.value} else multiset{})
      ensures Do(config, s, Step.Trigger).sleeping == (if broadcast then {} else s.sleeping)
    {
      broadcast, delay := false, None;
      if !waiting && !stop {
        var delta := Since(now, last);
        if delta > config.period {
          waiting := true;
          broadcast := true;
        } else if config.trailing {
          waiting := true;
          delay := Some(config.period - delta);
        }
      }
      assert s.timers + multiset{} == s.timers;
    }

    /** One turn of the loop of Next: None means that the caller goes (back) to sleep, a value is
        what Next returns. */
    method Check(now: int, ghost s: State, ghost caller: Caller) returns (result: Option<bool>)
      requires Represents(s) && s.now == now
      modifies this
      ensures var t := Turn(s, caller);
        && Represents(t)
        && (result.None? ==> caller in t.sleeping && t.granted == s.granted)
        && (result == Some(true) ==> t.granted == s.granted + [now])
        && (result == Some(false) ==> t.granted == s.granted && t.stop)
    {
      if !waiting && !stop {
        return None;
      }
      if !stop {
        waiting := false;
        last := Some(now);
      }
      result := Some(!stop);
    }

    /** Stop sets stop and broadcasts. */
    method Stop(ghost s: State)
      requires Represents(s)
      modifies this
      ensures Represents(Do(config, s, Step.Stop)) && Do(config, s, Step.Stop).sleeping == {}
    {
      stop := true;
    }
  }
}
