/** The calendar of a task (tasks/task.go) in a zone with a fixed offset. Instants are nanoseconds
    since the epoch, zone is what is added to get local time. */
module Tasks {
  import opened Wrappers

  const SECOND: int := 1_000_000_000
  const MINUTE: int := 60 * SECOND
  const HOUR: int := 60 * MINUTE
  const DAY: int := 24 * HOUR
  const WEEK: int := 7 * DAY

  const TWO_63: int := 0x8000_0000_0000_0000
  const TWO_64: int := 0x1_0000_0000_0000_0000

  type Uint64 = n: int | 0 <= n < TWO_64
  type Weekday = d: int | 0 <= d < 7

  datatype Unit = Never | Seconds | Minutes | Hours | Days | Weeks

  // ----- Periods -----

  /** The value an int64 has after overflow. */
  function Wrap(n: int): int {
    (n + TWO_63) % TWO_64 - TWO_63
  }

  function UnitLength(unit: Unit): int {
    match unit
    case Never => 0
    case Seconds => SECOND
    case Minutes => MINUTE
    case Hours => HOUR
    case Days => DAY
    case Weeks => WEEK
  }

  /** Duration multiplies step by step in int64. */
  function PeriodOf(interval: Uint64, unit: Unit): int {
    var n := Wrap(interval);
    match unit
    case Never => 0
    case Seconds => Wrap(n * SECOND)
    case Minutes => Wrap(n * MINUTE)
    case Hours => Wrap(n * HOUR)
    case Days => Wrap(Wrap(n * HOUR) * 24)
    case Weeks => Wrap(Wrap(Wrap(n * HOUR) * 24) * 7)
  }

  lemma WrapIs(n: int, k: int)
    ensures -TWO_63 <= Wrap(n) < TWO_63
    ensures Wrap(n + k * TWO_64) == Wrap(n)
  {
    var m := n + TWO_63;
    ModShift(m, k);
  }

  lemma ModShift(m: int, k: int)
    ensures (m + k * TWO_64) % TWO_64 == m % TWO_64
  {
    var q, r := m / TWO_64, m % TWO_64;
    assert m + k * TWO_64 == (q + k) * TWO_64 + r;
    DivModIs(m + k * TWO_64, q + k, r);
  }

  lemma DivModIs(m: int, q: int, r: int)
    requires m == q * TWO_64 + r && 0 <= r < TWO_64
    ensures m % TWO_64 == r
  {}

  lemma WrapFits(n: int)
    ensures Wrap(n) == n <==> -TWO_63 <= n < TWO_63
  {}

  lemma WrapMul(n: int, a: int)
    ensures Wrap(Wrap(n) * a) == Wrap(n * a)
  {
    var k := (n - Wrap(n)) / TWO_64;
    assert n == Wrap(n) + k * TWO_64 by { WrapDiff(n); }
    assert n * a == Wrap(n) * a + k * a * TWO_64 by {
      assert (Wrap(n) + k * TWO_64) * a == Wrap(n) * a + k * TWO_64 * a;
      assert k * TWO_64 * a == k * a * TWO_64;
    }
    WrapIs(Wrap(n) * a, k * a);
  }

  lemma WrapDiff(n: int)
    ensures n - Wrap(n) == (n - Wrap(n)) / TWO_64 * TWO_64
  {
    var m := n + TWO_63;
    assert m == m / TWO_64 * TWO_64 + m % TWO_64;
  }

  /** The period is the interval times the unit exactly when that is a representable duration. */
  lemma PeriodExact(interval: Uint64, unit: Unit)
    requires !unit.Never?
    ensures PeriodOf(interval, unit) == interval * UnitLength(unit)
            <==> interval * UnitLength(unit) < 0x8000_0000_0000_0000
  {
    PeriodWraps(interval, unit);
    WrapFits(interval * UnitLength(unit));
    assert interval * UnitLength(unit) >= 0;
  }

  lemma PeriodWraps(interval: Uint64, unit: Unit)
    requires !unit.Never?
    ensures PeriodOf(interval, unit) == Wrap(interval * UnitLength(unit))
  {
    hide Wrap;
    WrapMul(interval, UnitLength(if unit.Days? || unit.Weeks? then Hours else unit));
    WrapMul(interval * HOUR, 24);
    WrapMul(interval * HOUR * 24, 7);
    assert interval * HOUR * 24 == interval * DAY && interval * DAY * 7 == interval * WEEK;
  }

  // ----- Local days -----

  /** The local day of an instant, counted from the day of the epoch. */
  function DayOf(zone: int, t: int): int {
    (t + zone) / DAY
  }

  function Midnight(zone: int, day: int): int {
    day * DAY - zone
  }

  /** The day of the epoch was a Thursday. */
  function WeekdayOf(zone: int, t: int): Weekday {
    (DayOf(zone, t) + 4) % 7
  }

  function Clock(hour: int, min: int): int {
    hour * HOUR + min * MINUTE
  }

  predicate ValidTime(hour: int, min: int) {
    0 <= hour <= 23 && 0 <= min <= 59
  }

  /** The local clock shows hour:min sharp. */
  predicate AtClock(zone: int, t: int, hour: int, min: int) {
    (t + zone) % DAY == Clock(hour, min)
  }

  predicate OnWeekday(zone: int, t: int, day: Weekday, hour: int, min: int) {
    AtClock(zone, t, hour, min) && WeekdayOf(zone, t) == day
  }

  /** How many days ago it was startDay. */
  function DaysBack(zone: int, now: int, startDay: Weekday): int {
    var i := WeekdayOf(zone, now) - startDay;
    if i < 0 then 7 + i else i
  }

  /** The time of today, moved back to the last run before the first one. */
  function LastRun(unit: Unit, startDay: Weekday, zone: int, now: int, hour: int, min: int): int {
    var mock := Midnight(zone, DayOf(zone, now)) + Clock(hour, min);
    var today := WeekdayOf(zone, now);
    match unit
    case Days => if now <= mock then mock - DAY else mock
    case Weeks =>
      if startDay != today || now > mock then mock - DaysBack(zone, now, startDay) * DAY
      else mock - WEEK
    case _ => mock
  }

  /** The start of a task that has no last run. */
  function StartOf(unit: Unit, startDay: Weekday, zone: int, now: int): int {
    if unit.Weeks? then Midnight(zone, DayOf(zone, now) - DaysBack(zone, now, startDay)) else now
  }

  lemma DayBounds(zone: int, t: int)
    ensures Midnight(zone, DayOf(zone, t)) <= t < Midnight(zone, DayOf(zone, t)) + DAY
  {}

  /** The clock in nanoseconds. */
  lemma AtClockExactly(zone: int, t: int, hour: int, min: int)
    ensures AtClock(zone, t, hour, min)
            <==> (t + zone) % 86_400_000_000_000 == hour * 3_600_000_000_000 + min * 60_000_000_000
  {}

  lemma InstantIs(zone: int, day: int, clock: int)
    requires 0 <= clock < DAY
    ensures DayOf(zone, Midnight(zone, day) + clock) == day
    ensures (Midnight(zone, day) + clock + zone) % DAY == clock
  {}

  lemma ClockBounds(hour: int, min: int)
    requires ValidTime(hour, min)
    ensures 0 <= Clock(hour, min) < DAY
  {}

  /** An instant at a clock time is its day's midnight plus the clock time. */
  lemma AtClockIs(zone: int, t: int, hour: int, min: int)
    requires AtClock(zone, t, hour, min)
    ensures t == Midnight(zone, DayOf(zone, t)) + Clock(hour, min)
  {}

  /** The first run of a daily task is the least instant, not before now, that shows the time. */
  lemma DailyIsLeast(zone: int, now: int, startDay: Weekday, hour: int, min: int)
    requires ValidTime(hour, min)
    ensures var next := LastRun(Days, startDay, zone, now, hour, min) + DAY;
      && now <= next < now + DAY && AtClock(zone, next, hour, min)
      && forall t | now <= t && AtClock(zone, t, hour, min) :: next <= t
  {
    hide DayOf, Midnight, Clock, AtClock;
    var day, clock := DayOf(zone, now), Clock(hour, min);
    var next := LastRun(Days, startDay, zone, now, hour, min) + DAY;
    DayBounds(zone, now);
    ClockBounds(hour, min);
    OnDay(zone, if now <= Midnight(zone, day) + clock then day else day + 1, hour, min);
    MidnightStep(zone, day, 1);
    forall t | now <= t && AtClock(zone, t, hour, min) ensures next <= t {
      NotBefore(zone, now, t, hour, min);
    }
  }

  lemma OnDay(zone: int, day: int, hour: int, min: int)
    requires ValidTime(hour, min)
    ensures var t := Midnight(zone, day) + Clock(hour, min);
      AtClock(zone, t, hour, min) && DayOf(zone, t) == day
  {
    ClockBounds(hour, min);
    InstantIs(zone, day, Clock(hour, min));
  }

  lemma MidnightStep(zone: int, day: int, k: int)
    ensures Midnight(zone, day + k) == Midnight(zone, day) + k * DAY
  {}

  /** An instant at the clock time that is not before now is at least k days after today's. */
  lemma NotBefore(zone: int, now: int, t: int, hour: int, min: int)
    requires ValidTime(hour, min) && now <= t && AtClock(zone, t, hour, min)
    ensures var mock := Midnight(zone, DayOf(zone, now)) + Clock(hour, min);
      var k := DayOf(zone, t) - DayOf(zone, now);
      t == mock + k * DAY && 0 <= k && (now > mock ==> 1 <= k)
  {
    AtClockIs(zone, t, hour, min);
    DayBounds(zone, now);
    ClockBounds(hour, min);
  }

  /** The days from a day to the next startDay; from startDay itself 0, or 7 when it is too late. */
  function DaysAhead(day: int, startDay: Weekday, late: bool): int {
    var today := (day + 4) % 7;
    if startDay != today then (startDay - today + 7) % 7 else if late then 7 else 0
  }

  lemma AheadIsLeast(day: int, k: int, startDay: Weekday, late: bool)
    requires 0 <= k && (late ==> 1 <= k) && (day + k + 4) % 7 == startDay
    ensures DaysAhead(day, startDay, late) <= k
  {}

  lemma AheadIsDay(day: int, startDay: Weekday, late: bool)
    ensures (day + DaysAhead(day, startDay, late) + 4) % 7 == startDay
    ensures 0 <= DaysAhead(day, startDay, late) <= 7
    ensures late ==> 1 <= DaysAhead(day, startDay, late)
    ensures !late ==> DaysAhead(day, startDay, late) < 7
  {}

  lemma WeeklyAhead(zone: int, now: int, startDay: Weekday, hour: int, min: int)
    ensures var mock := Midnight(zone, DayOf(zone, now)) + Clock(hour, min);
      LastRun(Weeks, startDay, zone, now, hour, min) + WEEK
      == mock + DaysAhead(DayOf(zone, now), startDay, now > mock) * DAY
  {
    hide DayOf, Midnight, Clock;
  }

  lemma WeeklyBounds(zone: int, now: int, mock: int, ahead: int)
    requires Midnight(zone, DayOf(zone, now)) <= mock < Midnight(zone, DayOf(zone, now)) + DAY
    requires 0 <= ahead <= 7 && (now > mock ==> 1 <= ahead) && (now <= mock ==> ahead < 7)
    ensures now <= mock + ahead * DAY < now + WEEK
  {
    DayBounds(zone, now);
  }

  /** The first run of a weekly task is the least instant, not before now, on the day at the time. */
  lemma WeeklyIsLeast(zone: int, now: int, startDay: Weekday, hour: int, min: int)
    requires ValidTime(hour, min)
    ensures var next := LastRun(Weeks, startDay, zone, now, hour, min) + WEEK;
      && now <= next < now + WEEK && OnWeekday(zone, next, startDay, hour, min)
      && forall t | now <= t && OnWeekday(zone, t, startDay, hour, min) :: next <= t
  {
    hide DayOf, Midnight, Clock, AtClock, LastRun, DaysAhead;
    var day := DayOf(zone, now);
    var mock := Midnight(zone, day) + Clock(hour, min);
    var ahead := DaysAhead(day, startDay, now > mock);
    WeeklyAhead(zone, now, startDay, hour, min);
    AheadIsDay(day, startDay, now > mock);
    ClockBounds(hour, min);
    WeeklyBounds(zone, now, mock, ahead);
    MidnightStep(zone, day, ahead);
    OnDay(zone, day + ahead, hour, min);
    forall t | now <= t && OnWeekday(zone, t, startDay, hour, min) ensures mock + ahead * DAY <= t {
      NotBefore(zone, now, t, hour, min);
      AheadIsLeast(day, DayOf(zone, t) - day, startDay, now > mock);
    }
  }

  /** A weekly task without a time starts at the next midnight of its day after now. */
  lemma WeeklyAtMidnight(zone: int, now: int, startDay: Weekday)
    ensures var next := StartOf(Weeks, startDay, zone, now) + WEEK;
      && now < next <= now + WEEK && OnWeekday(zone, next, startDay, 0, 0)
      && forall t | now < t && OnWeekday(zone, t, startDay, 0, 0) :: next <= t
  {
    hide DayOf, Midnight, Clock, AtClock;
    var day := DayOf(zone, now);
    var back := DaysBack(zone, now, startDay);
    var next := StartOf(Weeks, startDay, zone, now) + WEEK;
    DayBounds(zone, now);
    MidnightStep(zone, day, -back);
    MidnightStep(zone, day, 7 - back);
    OnDay(zone, day + 7 - back, 0, 0);
    ClockZero();
    forall t | now < t && OnWeekday(zone, t, startDay, 0, 0) ensures next <= t {
      NotBefore(zone, now, t, 0, 0);
      AheadIsLeast(day, DayOf(zone, t) - day, startDay, true);
    }
  }

  lemma ClockZero()
    ensures Clock(0, 0) == 0
  {}

  // ----- The task -----

  class Task {
    var interval: Uint64
    var unit: Unit
    var startDay: Weekday
    var lastRunAt: Option<int>
    var nextRunAt: int
    var period: int
    var running: bool

    constructor AtIntervals(interval: Uint64, unit: Unit)
      ensures this.interval == interval && this.unit == unit && startDay == 0
      ensures lastRunAt == None && nextRunAt == 0 && period == 0 && !running
    {
      this.interval, this.unit, startDay := interval, unit, 0;
      lastRunAt, nextRunAt, period, running := None, 0, 0, false;
    }

    constructor OnWeekday(zone: int, now: int, day: Weekday, hour: int, min: int)
      requires ValidTime(hour, min)
      ensures interval == 1 && unit == Weeks && startDay == day && period == 0
      ensures lastRunAt == Some(LastRun(Weeks, day, zone, now, hour, min))
    {
      interval, unit, startDay := 1, Weeks, day;
      lastRunAt, nextRunAt, period, running := None, 0, 0, false;
      new;
      At(zone, now, hour, min);
    }

    constructor Daily(zone: int, now: int, hour: int, min: int)
      requires ValidTime(hour, min)
      ensures interval == 1 && unit == Days && startDay == 0 && period == 0
      ensures lastRunAt == Some(LastRun(Days, 0, zone, now, hour, min))
    {
      interval, unit, startDay := 1, Days, 0;
      lastRunAt, nextRunAt, period, running := None, 0, 0, false;
      new;
      At(zone, now, hour, min);
    }

    method At(zone: int, now: int, hour: int, min: int)
      modifies this`lastRunAt
      ensures lastRunAt == Some(LastRun(unit, startDay, zone, now, hour, min))
    {
      var mock := Midnight(zone, DayOf(zone, now)) + Clock(hour, min);
      if unit == Days {
        if now <= mock {
          mock := mock - DAY;
        }
      } else if unit == Weeks {
        var today := WeekdayOf(zone, now);
        if startDay != today || (now > mock && startDay == today) {
          var i := today - startDay;
          if i < 0 {
            i := 7 + i;
          }
          mock := mock - i * DAY;
        } else {
          mock := mock - 7 * DAY;
        }
      }
      lastRunAt := Some(mock);
    }

    /** The period is computed once. */
    method Duration() returns (d: int)
      modifies this`period
      ensures d == period == if old(period) == 0 then PeriodOf(interval, unit) else old(period)
    {
      if period == 0 {
        match unit {
          case Seconds => period := Wrap(Wrap(interval) * SECOND);
          case Minutes => period := Wrap(Wrap(interval) * MINUTE);
          case Hours => period := Wrap(Wrap(interval) * HOUR);
          case Days => period := Wrap(Wrap(Wrap(interval) * HOUR) * 24);
          case Weeks => period := Wrap(Wrap(Wrap(Wrap(interval) * HOUR) * 24) * 7);
          case Never =>
        }
      }
      d := period;
    }

    method ScheduleNextRun(zone: int, now: int)
      modifies this`lastRunAt, this`period, this`nextRunAt
      ensures period == if old(period) == 0 then PeriodOf(interval, unit) else old(period)
      ensures lastRunAt == Some(if old(lastRunAt).Some? then old(lastRunAt).value
                                else StartOf(unit, startDay, zone, now))
      ensures nextRunAt == lastRunAt.value + period
    {
      if lastRunAt.None? {
        var start := now;
        if unit == Weeks {
          var i := WeekdayOf(zone, now) - startDay;
          if i < 0 {
            i := 7 + i;
          }
          start := Midnight(zone, DayOf(zone, now) - i);
        }
        lastRunAt := Some(start);
      }
      var d := Duration();
      nextRunAt := lastRunAt.value + d;
    }
  }

  lemma OneDay()
    ensures PeriodOf(1, Days) == DAY && PeriodOf(1, Weeks) == WEEK
  {
    PeriodExact(1, Days);
    PeriodExact(1, Weeks);
  }

  /** A weekly task, scheduled: its next run is the least instant from now on that fits. */
  method PlanWeekly(zone: int, now: int, later: int, day: Weekday, hour: int, min: int) returns (task: Task)
    requires ValidTime(hour, min)
    ensures fresh(task) && now <= task.nextRunAt < now + WEEK
    ensures OnWeekday(zone, task.nextRunAt, day, hour, min)
    ensures forall t | now <= t && OnWeekday(zone, t, day, hour, min) :: task.nextRunAt <= t
  {
    hide *;
    OneDay();
    WeeklyIsLeast(zone, now, day, hour, min);
    task := new Task.OnWeekday(zone, now, day, hour, min);
    task.ScheduleNextRun(zone, later);
  }

  /** A daily task, scheduled. */
  method PlanDaily(zone: int, now: int, later: int, hour: int, min: int) returns (task: Task)
    requires ValidTime(hour, min)
    ensures fresh(task) && now <= task.nextRunAt < now + DAY
    ensures AtClock(zone, task.nextRunAt, hour, min)
    ensures forall t | now <= t && AtClock(zone, t, hour, min) :: task.nextRunAt <= t
  {
    hide *;
    OneDay();
    DailyIsLeast(zone, now, 0, hour, min);
    task := new Task.Daily(zone, now, hour, min);
    task.ScheduleNextRun(zone, later);
  }

  /** Nanoseconds in the unit of an interval. */
  predicate UnitIs(unit: Unit, nanos: int) {
    || (unit.Seconds? && nanos == 1_000_000_000)
    || (unit.Minutes? && nanos == 60_000_000_000)
    || (unit.Hours? && nanos == 3_600_000_000_000)
    || (unit.Days? && nanos == 86_400_000_000_000)
    || (unit.Weeks? && nanos == 604_800_000_000_000)
  }

  lemma UnitLengths(unit: Unit, nanos: int)
    requires UnitIs(unit, nanos)
    ensures UnitLength(unit) == nanos
  {}

  /** A task at intervals, scheduled: it first runs one interval from now; a task every so many
      weeks counts from the last midnight that began a Sunday. */
  method PlanEvery(zone: int, now: int, interval: Uint64, unit: Unit, nanos: int) returns (task: Task)
    requires UnitIs(unit, nanos) && interval * nanos < TWO_63
    ensures fresh(task)
    ensures !unit.Weeks? ==> task.nextRunAt == now + interval * nanos
    ensures unit.Weeks? ==>
      var start := task.nextRunAt - interval * nanos;
      && now - 604_800_000_000_000 < start <= now && OnWeekday(zone, start, 0, 0, 0)
      && forall t | start < t <= now :: !OnWeekday(zone, t, 0, 0, 0)
  {
    hide PeriodOf, OnWeekday;
    UnitLengths(unit, nanos);
    PeriodExact(interval, unit);
    WeeklyAtMidnight(zone, now, 0);
    task := new Task.AtIntervals(interval, unit);
    task.ScheduleNextRun(zone, now);
    if unit.Weeks? {
      ghost var start := StartOf(Weeks, 0, zone, now);
      WeekBefore(zone, start, 0);
      OnItsDay(zone, start, 0);
      WeeklyAtMidnight(zone, start, 0);
    }
  }

  /** Weekday and clock are the same a week earlier. */
  lemma WeekBefore(zone: int, t: int, day: Weekday)
    requires OnWeekday(zone, t + WEEK, day, 0, 0)
    ensures OnWeekday(zone, t, day, 0, 0)
  {
    hide DayOf, Midnight, Clock, AtClock;
    var d := DayOf(zone, t + WEEK);
    AtClockIs(zone, t + WEEK, 0, 0);
    MidnightStep(zone, d, -7);
    OnDay(zone, d - 7, 0, 0);
  }

  /** A midnight of the day is its own start. */
  lemma OnItsDay(zone: int, t: int, day: Weekday)
    requires OnWeekday(zone, t, day, 0, 0)
    ensures StartOf(Weeks, day, zone, t) == t
  {}

  /** The weekdays are those of the calendar: 1 January 1970 was a Thursday, 1 January 2000 a
      Saturday, 1 January 2001 a Monday, counted from Sunday. */
  lemma KnownDays(zone: int)
    ensures WeekdayOf(zone, 0 - zone) == 4
    ensures WeekdayOf(zone, 946_684_800 * 1_000_000_000 - zone) == 6
    ensures WeekdayOf(zone, 978_307_200 * 1_000_000_000 - zone) == 1
  {}

  /** The clock is after the next run. */
  predicate Due(nextRunAt: int, now: int) {
    now > nextRunAt
  }

  ghost predicate AlwaysDue(start: int, nextRunAt: int) {
    forall t | start < t :: Due(nextRunAt, t)
  }

  /** A task is due at every instant after its start exactly if its unit is Never, or if interval
      times unit, in 64 bits, is zero or has the sign bit set. */
  lemma DueAtOnce(start: int, interval: Uint64, unit: Unit)
    ensures var bits := interval * UnitLength(unit) % 0x1_0000_0000_0000_0000;
      AlwaysDue(start, start + PeriodOf(interval, unit))
      <==> unit.Never? || bits == 0 || bits >= 0x8000_0000_0000_0000
  {
    hide PeriodOf, UnitLength, Wrap;
    NeverPeriod(interval);
    assert unit.Never? ==> unit == Never;
    if !unit.Never? {
      PeriodWraps(interval, unit);
      WrapSign(interval * UnitLength(unit));
    }
    AlwaysDueIs(start, start + PeriodOf(interval, unit));
  }

  lemma AlwaysDueIs(start: int, next: int)
    ensures AlwaysDue(start, next) <==> next <= start
  {
    if start < next {
      assert !Due(next, next);
    }
  }

  lemma WrapSign(n: int)
    ensures Wrap(n) <= 0 <==> n % TWO_64 == 0 || n % TWO_64 >= TWO_63
  {
    var q, r := n / TWO_64, n % TWO_64;
    assert n == r + q * TWO_64;
    WrapIs(r, q);
  }

  lemma NeverPeriod(interval: Uint64)
    ensures PeriodOf(interval, Never) == 0
  {}
}
