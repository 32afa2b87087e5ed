/** The schedule text of a task (tasks/task.go). */
module TaskFormat {
  import opened Wrappers

  import opened Tasks
  import Oid

  /** What the tokens so far say; lastRun is set by a time of day. */
  datatype Plan = Plan(interval: Uint64, unit: Unit, startDay: Weekday, lastRun: Option<int>)

  const START := Plan(0, Never, 0, None)

  function Lower(c: char): char {
    if 'A' <= c <= 'Z' then ((c as int) + 32) as char else c
  }

  function ToLower(s: string): string {
    seq(|s|, i requires 0 <= i < |s| => Lower(s[i]))
  }

  function UnitOf(token: string): Option<Unit> {
    if token == "second" || token == "seconds" then Some(Seconds)
    else if token == "minute" || token == "minutes" then Some(Minutes)
    else if token == "hour" || token == "hours" then Some(Hours)
    else if token == "day" || token == "days" then Some(Days)
    else if token == "week" || token == "weeks" then Some(Weeks)
    else None
  }

  function DayName(day: Weekday): string {
    match day
    case 0 => "sunday"
    case 1 => "monday"
    case 2 => "tuesday"
    case 3 => "wednesday"
    case 4 => "thursday"
    case 5 => "friday"
    case _ => "saturday"
  }

  function DayOfToken(token: string): Option<Weekday> {
    if token == "sunday" then Some(0)
    else if token == "monday" then Some(1)
    else if token == "tuesday" then Some(2)
    else if token == "wednesday" then Some(3)
    else if token == "thursday" then Some(4)
    else if token == "friday" then Some(5)
    else if token == "saturday" then Some(6)
    else None
  }

  function ParseTime(t: string): Option<(int, int)> {
    var parts := Oid.Split(t, ':');
    if |parts| != 2 then None
    else
      var hour, min := Oid.Atoi(parts[0]), Oid.Atoi(parts[1]);
      if hour.Some? && min.Some? && ValidTime(hour.value, min.value) then Some((hour.value, min.value)) else None
  }

  /** ParseUint: digits only, within a uint64. */
  function ParseUint(t: string): Option<Uint64> {
    if t == "" || !Oid.AllDigits(t) || Oid.Value(t) >= TWO_64 then None else Some(Oid.Value(t))
  }

  /** One turn of the loop of parseTaskFormat. */
  function Token(p: Plan, t: string, zone: int, now: int): Option<Plan> {
    if t == "every" then
      if p.interval > 0 then None else Some(p.(interval := 1))
    else if UnitOf(t).Some? then Some(p.(unit := UnitOf(t).value))
    else if DayOfToken(t).Some? then
      if p.interval > 1 || p.unit != Never then None
      else Some(p.(unit := Weeks, startDay := DayOfToken(t).value))
    else if ':' in t then
      var time := ParseTime(t);
      if time.None? then None
      else if p.unit != Never && p.unit != Days && p.unit != Weeks then None
      else
        var unit := if p.unit == Never then Days else p.unit;
        Some(p.(unit := unit, lastRun := Some(LastRun(unit, p.startDay, zone, now, time.value.0, time.value.1))))
    else if p.interval > 1 then None
    else
      var n := ParseUint(t);
      if n.None? || n.value < 1 then None else Some(p.(interval := n.value))
  }

  function Tokens(ts: seq<string>, zone: int, now: int): Option<Plan> {
    if ts == [] then Some(START)
    else
      match Tokens(ts[..|ts| - 1], zone, now)
      case None => None
      case Some(p) => Token(p, ts[|ts| - 1], zone, now)
  }

  function Read(format: string, zone: int, now: int): Option<Plan> {
    Finished(Tokens(Oid.Split(ToLower(format), ' '), zone, now))
  }

  /** What is checked and filled in after the last token. */
  function Finished(p: Option<Plan>): Option<Plan> {
    if p.None? || p.value.unit == Never then None
    else Some(p.value.(interval := if p.value.interval == 0 then 1 else p.value.interval))
  }

  lemma TokensNext(ts: seq<string>, t: string, zone: int, now: int)
    ensures Tokens(ts + [t], zone, now) == match Tokens(ts, zone, now)
      case None => None
      case Some(p) => Token(p, t, zone, now)
  {}

  lemma {:induction false} TokensFail(ts: seq<string>, k: nat, zone: int, now: int)
    requires k <= |ts| && Tokens(ts[..k], zone, now).None?
    ensures Tokens(ts, zone, now).None?
  {
    if k < |ts| {
      assert ts[..|ts| - 1][..k] == ts[..k];
      TokensFail(ts[..|ts| - 1], k, zone, now);
    } else {
      assert ts[..k] == ts;
    }
  }

  /** parseTaskFormat: the task that the text describes, or an error. */
  method ParseTaskFormat(format: string, zone: int, now: int) returns (task: Option<Task>)
    ensures task.Some? <==> Read(format, zone, now).Some?
    ensures task.Some? ==> fresh(task.value) && task.value.period == 0 && !task.value.running
    ensures task.Some? ==> var j := task.value;
      Read(format, zone, now) == Some(Plan(j.interval, j.unit, j.startDay, j.lastRunAt))
  {
    hide Token, LastRun;
    var j := new Task.AtIntervals(0, Never);
    var ts := Oid.Split(ToLower(format), ' ');
    for i := 0 to |ts|
      invariant fresh(j) && j.period == 0 && !j.running
      invariant Tokens(ts[..i], zone, now) == Some(Plan(j.interval, j.unit, j.startDay, j.lastRunAt))
    {
      assert ts[..i + 1] == ts[..i] + [ts[i]];
      TokensNext(ts[..i], ts[i], zone, now);
      var ok := ReadToken(j, ts[i], zone, now);
      if !ok {
        TokensFail(ts, i + 1, zone, now);
        return None;
      }
    }
    assert ts[..|ts|] == ts;
    if j.interval == 0 {
      j.interval := 1;
    }
    if j.unit == Never {
      return None;
    }
    task := Some(j);
  }

  method ReadToken(j: Task, t: string, zone: int, now: int) returns (ok: bool)
    modifies j
    ensures j.period == old(j.period) && j.running == old(j.running)
    ensures var p := Token(Plan(old(j.interval), old(j.unit), old(j.startDay), old(j.lastRunAt)), t, zone, now);
      && (ok <==> p.Some?)
      && (ok ==> p == Some(Plan(j.interval, j.unit, j.startDay, j.lastRunAt)))
  {
    hide LastRun, ParseTime, ParseUint, UnitOf, DayOfToken;
    ok := false;
    if t == "every" {
      if j.interval > 0 {
        return;
      }
      j.interval := 1;
    } else if UnitOf(t).Some? {
      j.unit := UnitOf(t).value;
    } else if DayOfToken(t).Some? {
      if j.interval > 1 || j.unit != Never {
        return;
      }
      j.unit := Weeks;
      j.startDay := DayOfToken(t).value;
    } else if ':' in t {
      var time := ParseTime(t);
      if time.None? {
        return;
      }
      if j.unit == Never {
        j.unit := Days;
      } else if j.unit != Days && j.unit != Weeks {
        return;
      }
      j.At(zone, now, time.value.0, time.value.1);
    } else {
      if j.interval > 1 {
        return;
      }
      var n := ParseUint(t);
      if n.None? || n.value < 1 {
        return;
      }
      j.interval := n.value;
    }
    ok := true;
  }

  // ----- Texts that describe a schedule -----

  datatype Schedule =
    | Every(n: Uint64, unit: Unit, plural: bool)
    | DailyAt(hour: int, min: int)
    | WeeklyAt(day: Weekday, hour: int, min: int)

  predicate Proper(s: Schedule) {
    match s
    case Every(n, unit, _) => n >= 1 && unit != Never
    case DailyAt(hour, min) => ValidTime(hour, min)
    case WeeklyAt(_, hour, min) => ValidTime(hour, min)
  }

  function UnitName(unit: Unit, plural: bool): string {
    match unit
    case Never => "never"
    case Seconds => if plural then "seconds" else "second"
    case Minutes => if plural then "minutes" else "minute"
    case Hours => if plural then "hours" else "hour"
    case Days => if plural then "days" else "day"
    case Weeks => if plural then "weeks" else "week"
  }

  function TimeText(hour: int, min: int): string {
    Oid.Itoa(hour) + ":" + Oid.Itoa(min)
  }

  function Words(s: Schedule): seq<string> {
    match s
    case Every(n, unit, plural) => ["every", Oid.Itoa(n), UnitName(unit, plural)]
    case DailyAt(hour, min) => ["every", "day", TimeText(hour, min)]
    case WeeklyAt(day, hour, min) => ["every", DayName(day), TimeText(hour, min)]
  }

  function PlanOf(s: Schedule, zone: int, now: int): Plan {
    match s
    case Every(n, unit, _) => Plan(n, unit, 0, None)
    case DailyAt(hour, min) => Plan(1, Days, 0, Some(LastRun(Days, 0, zone, now, hour, min)))
    case WeeklyAt(day, hour, min) => Plan(1, Weeks, day, Some(LastRun(Weeks, day, zone, now, hour, min)))
  }

  function Text(s: Schedule): string {
    Oid.Join(Words(s), ' ')
  }

  predicate Plain(s: string) {
    forall i | 0 <= i < |s| :: s[i] != ' ' && Lower(s[i]) == s[i]
  }

  lemma NumeralIs(n: nat)
    requires n <= Oid.MAX_INT
    ensures Plain(Oid.Itoa(n)) && ':' !in Oid.Itoa(n) && Oid.Atoi(Oid.Itoa(n)) == Some(n)
  {
    Oid.AtoiOfItoa(n);
    var s := Oid.Itoa(n);
    assert forall i | 0 <= i < |s| :: Oid.IsDigit(s[i]);
  }

  /** Which times of day and which intervals are read. */
  lemma NumbersExactly(hour: int, min: int, n: nat)
    requires Oid.IsInt(hour) && Oid.IsInt(min)
    ensures ParseTime(TimeText(hour, min)) == if 0 <= hour <= 23 && 0 <= min <= 59 then Some((hour, min)) else None
    ensures ParseUint(Oid.Itoa(n)) == if n < 0x1_0000_0000_0000_0000 then Some(n) else None
  {
    hide Oid.Atoi;
    Oid.AtoiOfItoa(hour);
    Oid.AtoiOfItoa(min);
    Oid.ValueOfDigits(n);
    var a, b := Oid.Itoa(hour), Oid.Itoa(min);
    NoColon(hour);
    NoColon(min);
    Oid.SplitFirst(a, b, ':');
    Oid.SplitFirst(b, "", ':');
    assert TimeText(hour, min) == a + [':'] + b;
  }

  lemma NoColon(n: int)
    ensures ':' !in Oid.Itoa(n)
  {
    var s := Oid.Itoa(n);
    assert forall i | 0 <= i < |s| :: s[i] == '-' || Oid.IsDigit(s[i]);
  }

  /** No word starts with a digit. */
  lemma DigitFirst(t: string)
    requires t != "" && Oid.IsDigit(t[0])
    ensures t != "every" && UnitOf(t) == None && DayOfToken(t) == None
  {}

  lemma NumberToken(n: nat)
    ensures var t := Oid.Itoa(n);
      && Plain(t) && ':' !in t && t != "every" && UnitOf(t) == None && DayOfToken(t) == None
      && (n < TWO_64 ==> ParseUint(t) == Some(n))
  {
    hide UnitOf, DayOfToken;
    var t := Oid.Itoa(n);
    Oid.ValueOfDigits(n);
    assert forall i | 0 <= i < |t| :: Oid.IsDigit(t[i]);
    DigitFirst(t);
  }

  lemma TimeToken(hour: int, min: int)
    requires ValidTime(hour, min)
    ensures var t := TimeText(hour, min);
      && Plain(t) && ':' in t && t != "every" && UnitOf(t) == None && DayOfToken(t) == None
      && ParseTime(t) == Some((hour, min))
  {
    hide UnitOf, DayOfToken, Oid.Atoi;
    NumeralIs(hour);
    NumeralIs(min);
    var a, b := Oid.Itoa(hour), Oid.Itoa(min);
    var t := TimeText(hour, min);
    assert t == a + [':'] + b && t[|a|] == ':';
    Oid.SplitFirst(a, b, ':');
    Oid.SplitFirst(b, "", ':');
    DigitStart(hour);
    assert t[0] == a[0];
    DigitFirst(t);
  }

  lemma DigitStart(n: nat)
    ensures Oid.Itoa(n) != "" && Oid.IsDigit(Oid.Itoa(n)[0])
  {}

  lemma {:induction false} PlainJoin(parts: seq<string>)
    requires forall p | p in parts :: Plain(p)
    ensures ToLower(Oid.Join(parts, ' ')) == Oid.Join(parts, ' ')
    ensures forall p | p in parts :: ' ' !in p
  {
    if parts != [] {
      PlainJoin(parts[1..]);
      assert parts == [parts[0]] + parts[1..];
      LowerJoin(parts);
    }
  }

  lemma LowerJoin(parts: seq<string>)
    requires parts != [] && Plain(parts[0])
    requires ToLower(Oid.Join(parts[1..], ' ')) == Oid.Join(parts[1..], ' ')
    ensures ToLower(Oid.Join(parts, ' ')) == Oid.Join(parts, ' ')
  {}

  lemma PlainUnit(unit: Unit, plural: bool)
    ensures Plain(UnitName(unit, plural))
  {}

  lemma PlainDay(day: Weekday)
    ensures Plain(DayName(day))
  {}

  lemma PlainWords(s: Schedule)
    requires Proper(s)
    ensures forall w | w in Words(s) :: Plain(w)
  {
    assert Plain("every") && Plain("day");
    hide Plain, UnitOf, DayOfToken, ParseTime, ParseUint, UnitName, DayName, TimeText;
    match s
    case Every(n, unit, plural) =>
      NumberToken(n);
      PlainUnit(unit, plural);
    case DailyAt(hour, min) => TimeToken(hour, min);
    case WeeklyAt(day, hour, min) =>
      TimeToken(hour, min);
      PlainDay(day);
  }

  lemma ReadWords(s: Schedule, zone: int, now: int)
    requires Proper(s)
    ensures Tokens(Words(s), zone, now) == Some(PlanOf(s, zone, now))
  {
    hide Token;
    var w := Words(s);
    TokensNext([], w[0], zone, now);
    TokensNext([w[0]], w[1], zone, now);
    TokensNext([w[0], w[1]], w[2], zone, now);
    assert [] + [w[0]] == [w[0]] && [w[0]] + [w[1]] == [w[0], w[1]] && [w[0], w[1]] + [w[2]] == w;
    EveryToken(zone, now);
    SecondToken(s, zone, now);
    ThirdToken(s, zone, now);
  }

  lemma EveryToken(zone: int, now: int)
    ensures Token(START, "every", zone, now) == Some(START.(interval := 1))
  {}

  function AfterTwo(s: Schedule): Plan {
    match s
    case Every(n, _, _) => START.(interval := n)
    case DailyAt(_, _) => START.(interval := 1, unit := Days)
    case WeeklyAt(day, _, _) => START.(interval := 1, unit := Weeks, startDay := day)
  }

  lemma SecondToken(s: Schedule, zone: int, now: int)
    requires Proper(s)
    ensures Token(START.(interval := 1), Words(s)[1], zone, now) == Some(AfterTwo(s))
  {
    match s
    case Every(n, _, _) => NumberToken(n);
    case DailyAt(_, _) =>
    case WeeklyAt(day, _, _) => DayToken(day);
  }

  lemma DayToken(day: Weekday)
    ensures var t := DayName(day); t != "every" && UnitOf(t) == None && DayOfToken(t) == Some(day)
  {
    NotUnit(day);
  }

  lemma NotUnit(day: Weekday)
    ensures DayName(day) != "every" && UnitOf(DayName(day)) == None
  {}

  lemma ThirdToken(s: Schedule, zone: int, now: int)
    requires Proper(s)
    ensures Token(AfterTwo(s), Words(s)[2], zone, now) == Some(PlanOf(s, zone, now))
  {
    hide LastRun, DayOfToken, ParseTime, ParseUint;
    match s
    case Every(n, unit, plural) => UnitToken(unit, plural);
    case DailyAt(hour, min) => TimeToken(hour, min);
    case WeeklyAt(_, hour, min) => TimeToken(hour, min);
  }

  lemma UnitToken(unit: Unit, plural: bool)
    requires unit != Never
    ensures UnitName(unit, plural) != "every" && UnitOf(UnitName(unit, plural)) == Some(unit)
  {}

  /** Every schedule is read back from its text. */
  lemma RoundTrip(s: Schedule, zone: int, now: int)
    requires Proper(s)
    ensures Read(Text(s), zone, now) == Some(PlanOf(s, zone, now))
  {
    hide Token;
    PlainWords(s);
    ReadsTokens(Words(s));
    ReadWords(s, zone, now);
  }

  /** A weekly text gives a task that first runs at the least instant, from now on, that fits. */
  method ScheduleWeekly(day: Weekday, hour: int, min: int, zone: int, now: int, later: int) returns (task: Task)
    requires ValidTime(hour, min)
    ensures OnWeekday(zone, task.nextRunAt, day, hour, min) && now <= task.nextRunAt
    ensures forall t | now <= t && OnWeekday(zone, t, day, hour, min) :: task.nextRunAt <= t
  {
    hide LastRun, OnWeekday, Read, Text, PeriodOf;
    var s := WeeklyAt(day, hour, min);
    RoundTrip(s, zone, now);
    OneDay();
    WeeklyIsLeast(zone, now, day, hour, min);
    var parsed := ParseTaskFormat(Text(s), zone, now);
    task := parsed.value;
    task.ScheduleNextRun(zone, later);
  }

  /** A text with an interval gives a task that first runs one interval from now. */
  method ScheduleEvery(n: Uint64, unit: Unit, plural: bool, nanos: int, zone: int, now: int) returns (task: Task)
    requires n >= 1 && UnitIs(unit, nanos) && n * nanos < TWO_63 && !unit.Weeks?
    ensures task.nextRunAt == now + n * nanos
  {
    hide Read, Text, PeriodOf;
    var s := Every(n, unit, plural);
    RoundTrip(s, zone, now);
    UnitLengths(unit, nanos);
    PeriodExact(n, unit);
    var parsed := ParseTaskFormat(Text(s), zone, now);
    task := parsed.value;
    task.ScheduleNextRun(zone, now);
  }

  /** The names of the days in the order of the calendar, from Sunday on. */
  lemma DayOrder(day: Weekday)
    ensures DayOfToken(["sunday", "monday", "tuesday", "wednesday", "thursday", "friday", "saturday"][day]) == Some(day)
  {}

  // ----- A time of day and the unit -----

  predicate IsTime(t: string) {
    t != "every" && UnitOf(t).None? && DayOfToken(t).None? && ':' in t
  }

  /** The last unit word after the last time of day. */
  function UnitSince(ts: seq<string>): Option<Unit> {
    if ts == [] then None
    else
      var t := ts[|ts| - 1];
      if UnitOf(t).Some? then UnitOf(t)
      else if IsTime(t) then None
      else UnitSince(ts[..|ts| - 1])
  }

  predicate Calendar(unit: Unit) {
    unit == Days || unit == Weeks
  }

  /** The unit is the one of that word; without one it is a day or a week. */
  predicate UnitFits(p: Plan, since: Option<Unit>) {
    p.lastRun.Some? ==> if since.Some? then p.unit == since.value else Calendar(p.unit)
  }

  lemma UnitNever(t: string)
    ensures UnitOf(t) != Some(Never)
  {}

  lemma UnitStep(p: Plan, t: string, zone: int, now: int, since: Option<Unit>)
    requires UnitFits(p, since) && since != Some(Never)
    ensures var q := Token(p, t, zone, now);
      q.Some? ==> UnitFits(q.value, if UnitOf(t).Some? then UnitOf(t) else if IsTime(t) then None else since)
  {
    EveryIsNoUnit();
    hide LastRun, UnitOf, DayOfToken, ParseTime, ParseUint;
  }

  lemma EveryIsNoUnit()
    ensures UnitOf("every") == None
  {}

  lemma {:induction false} UnitSinceIs(ts: seq<string>, zone: int, now: int)
    ensures UnitSince(ts) != Some(Never)
    ensures Tokens(ts, zone, now).Some? ==> UnitFits(Tokens(ts, zone, now).value, UnitSince(ts))
  {
    if ts != [] {
      hide Token, UnitOf, IsTime, UnitFits;
      var n := |ts| - 1;
      UnitSinceIs(ts[..n], zone, now);
      UnitNever(ts[n]);
      if Tokens(ts[..n], zone, now).Some? {
        UnitStep(Tokens(ts[..n], zone, now).value, ts[n], zone, now, UnitSince(ts[..n]));
      }
    }
  }

  /** A task with a time of day has a unit of days or weeks exactly when the last unit word after
      the last time, if there is one, is such a unit: the unit is not checked again. */
  lemma TimeUnitExactly(format: string, zone: int, now: int)
    requires Read(format, zone, now).Some? && Read(format, zone, now).value.lastRun.Some?
    ensures var since := UnitSince(Oid.Split(ToLower(format), ' '));
      Calendar(Read(format, zone, now).value.unit) <==> since.None? || Calendar(since.value)
  {
    hide Tokens, UnitSince;
    UnitSinceIs(Oid.Split(ToLower(format), ' '), zone, now);
  }

  /** An hourly task with a time of day is accepted in one order of the words and refused in the
      other. */
  lemma TimeBeforeUnit(hour: int, min: int, zone: int, now: int)
    requires ValidTime(hour, min)
    ensures Read(Oid.Join(["every", TimeText(hour, min), "hours"], ' '), zone, now)
            == Some(Plan(1, Hours, 0, Some(LastRun(Days, 0, zone, now, hour, min))))
    ensures Read(Oid.Join(["every", "hours", TimeText(hour, min)], ' '), zone, now) == None
  {
    TimeToken(hour, min);
    PlainUnit(Hours, true);
    PlainEvery();
    TimeTokens(hour, min, zone, now);
    hide *;
    var t := TimeText(hour, min);
    ReadPlain("every", t, "hours", zone, now);
    ReadPlain("every", "hours", t, zone, now);
    Finishes(1, LastRun(Days, 0, zone, now, hour, min));
  }

  lemma Finishes(interval: Uint64, last: int)
    requires interval > 0
    ensures Finished(Some(Plan(interval, Hours, 0, Some(last)))) == Some(Plan(interval, Hours, 0, Some(last)))
    ensures Finished(None) == None
  {}

  lemma ReadPlain(a: string, b: string, c: string, zone: int, now: int)
    requires Plain(a) && Plain(b) && Plain(c)
    ensures Read(Oid.Join([a, b, c], ' '), zone, now) == Finished(Tokens([a, b, c], zone, now))
  {
    hide Plain, Tokens, Finished, Oid.Join;
    ReadsTokens([a, b, c]);
  }

  lemma TimeTokens(hour: int, min: int, zone: int, now: int)
    requires ValidTime(hour, min)
    ensures Tokens(["every", TimeText(hour, min), "hours"], zone, now)
            == Some(Plan(1, Hours, 0, Some(LastRun(Days, 0, zone, now, hour, min))))
    ensures Tokens(["every", "hours", TimeText(hour, min)], zone, now) == None
  {
    hide Token, LastRun, TimeText;
    var t := TimeText(hour, min);
    TokensNext([], "every", zone, now);
    TokensNext(["every"], t, zone, now);
    TokensNext(["every", t], "hours", zone, now);
    TokensNext(["every"], "hours", zone, now);
    TokensNext(["every", "hours"], t, zone, now);
    assert [] + ["every"] == ["every"] && ["every"] + [t] == ["every", t];
    assert ["every", t] + ["hours"] == ["every", t, "hours"];
    assert ["every"] + ["hours"] == ["every", "hours"] && ["every", "hours"] + [t] == ["every", "hours", t];
    EveryToken(zone, now);
    TimeAndHours(hour, min, zone, now);
  }

  lemma PlainEvery()
    ensures Plain("every") && Plain("hours")
  {}

  /** A text is read word by word. */
  lemma ReadsTokens(words: seq<string>)
    requires words != [] && forall w | w in words :: Plain(w)
    ensures Oid.Split(ToLower(Oid.Join(words, ' ')), ' ') == words
  {
    PlainJoin(words);
    Oid.SplitOfJoin(words, ' ');
  }

  lemma TimeAndHours(hour: int, min: int, zone: int, now: int)
    requires ValidTime(hour, min)
    ensures Token(START.(interval := 1), TimeText(hour, min), zone, now)
            == Some(Plan(1, Days, 0, Some(LastRun(Days, 0, zone, now, hour, min))))
    ensures forall p :: Token(p, "hours", zone, now) == Some(p.(unit := Hours))
    ensures Token(START.(interval := 1, unit := Hours), TimeText(hour, min), zone, now) == None
  {
    hide LastRun, DayOfToken, ParseTime, ParseUint;
    TimeToken(hour, min);
  }

  /** The texts of the repository's own tests, and how they are read. */
  lemma Examples(zone: int, now: int)
    ensures Read("every 1 second", zone, now) == Some(Plan(1, Seconds, 0, None))
    ensures Read("every 61 minutes", zone, now) == Some(Plan(61, Minutes, 0, None))
    ensures Read("every 2 hours", zone, now) == Some(Plan(2, Hours, 0, None))
    ensures Read("every day 11:15", zone, now) == Some(Plan(1, Days, 0, Some(LastRun(Days, 0, zone, now, 11, 15))))
    ensures Read("every tuesday 23:59", zone, now)
            == Some(Plan(1, Weeks, 2, Some(LastRun(Weeks, 2, zone, now, 23, 59))))
  {
    hide Read, LastRun;
    RoundTrip(Every(1, Seconds, false), zone, now);
    RoundTrip(Every(61, Minutes, true), zone, now);
    RoundTrip(Every(2, Hours, true), zone, now);
    RoundTrip(DailyAt(11, 15), zone, now);
    RoundTrip(WeeklyAt(2, 23, 59), zone, now);
    EverySecond();
    EveryMinutes();
    EveryHours();
    EveryDay();
    EveryTuesday();
  }

  lemma TwoDigits(n: nat)
    requires 10 <= n < 100
    ensures Oid.Itoa(n) == [Oid.Digit(n / 10), Oid.Digit(n % 10)]
  {
    assert Oid.Digits(n / 10) == [Oid.Digit(n / 10)];
    assert Oid.Digits(n) == [Oid.Digit(n / 10)] + [Oid.Digit(n % 10)];
  }

  lemma EverySecond()
    ensures Text(Every(1, Seconds, false)) == "every 1 second"
  {
    OneDigit(1);
    hide Oid.Join, Oid.Itoa;
    Oid.ThreeParts("every", "1", "second", ' ');
  }

  lemma EveryMinutes()
    ensures Text(Every(61, Minutes, true)) == "every 61 minutes"
  {
    TwoDigits(61);
    hide Oid.Join, Oid.Itoa;
    Oid.ThreeParts("every", "61", "minutes", ' ');
  }

  lemma EveryHours()
    ensures Text(Every(2, Hours, true)) == "every 2 hours"
  {
    OneDigit(2);
    hide Oid.Join, Oid.Itoa;
    Oid.ThreeParts("every", "2", "hours", ' ');
  }

  lemma EveryDay()
    ensures Text(DailyAt(11, 15)) == "every day 11:15"
  {
    TwoDigits(11);
    TwoDigits(15);
    hide Oid.Join, Oid.Itoa;
    Oid.ThreeParts("every", "day", "11:15", ' ');
  }

  lemma EveryTuesday()
    ensures Text(WeeklyAt(2, 23, 59)) == "every tuesday 23:59"
  {
    TwoDigits(23);
    TwoDigits(59);
    hide Oid.Join, Oid.Itoa;
    Oid.ThreeParts("every", "tuesday", "23:59", ' ');
  }

  lemma OneDigit(n: nat)
    requires n < 10
    ensures Oid.Itoa(n) == [Oid.Digit(n)]
  {}

  // ----- Upper and lower case -----

  /** The same letter in upper or lower case, or the same character. */
  predicate SameLetter(c: char, d: char) {
    c == d || ('A' <= c <= 'Z' && d as int == c as int + 32) || ('A' <= d <= 'Z' && c as int == d as int + 32)
  }

  /** The case of the letters does not matter. */
  lemma IgnoresCase(a: string, b: string, zone: int, now: int)
    requires |a| == |b| && forall i | 0 <= i < |a| :: SameLetter(a[i], b[i])
    ensures Read(a, zone, now) == Read(b, zone, now)
  {
    assert ToLower(a) == ToLower(b);
  }

  // ----- Which texts are accepted -----

  datatype Word = EveryWord | UnitWord | DayWord | TimeWord | NumberWord

  function WordKind(t: string): Word {
    if t == "every" then EveryWord
    else if UnitOf(t).Some? then UnitWord
    else if DayOfToken(t).Some? then DayWord
    else if ':' in t then TimeWord
    else NumberWord
  }

  predicate Saw(ts: seq<string>, kind: Word) {
    exists i | 0 <= i < |ts| :: WordKind(ts[i]) == kind
  }

  /** A number other than one. */
  predicate SawBig(ts: seq<string>) {
    exists i | 0 <= i < |ts| :: WordKind(ts[i]) == NumberWord && ParseUint(ts[i]) != Some(1)
  }

  /** The last unit word. */
  function LastUnit(ts: seq<string>): Option<Unit> {
    if ts == [] then None
    else if UnitOf(ts[|ts| - 1]).Some? then UnitOf(ts[|ts| - 1])
    else LastUnit(ts[..|ts| - 1])
  }

  /** The last number. */
  function LastNumber(ts: seq<string>): Option<Uint64> {
    if ts == [] then None
    else if WordKind(ts[|ts| - 1]) == NumberWord then ParseUint(ts[|ts| - 1])
    else LastNumber(ts[..|ts| - 1])
  }

  /** The last weekday. */
  function LastDay(ts: seq<string>): Option<Weekday> {
    if ts == [] then None
    else if WordKind(ts[|ts| - 1]) == DayWord then DayOfToken(ts[|ts| - 1])
    else LastDay(ts[..|ts| - 1])
  }

  /** What a word asks of the words before it: every comes before any number and once, a weekday
      before all units, weekdays, times and numbers but one, a number after no other number but one;
      a time of day is well formed and follows no other unit than days and weeks. */
  predicate GoodWord(before: seq<string>, t: string) {
    match WordKind(t)
    case EveryWord => !Saw(before, EveryWord) && !Saw(before, NumberWord)
    case UnitWord => true
    case DayWord => !Saw(before, UnitWord) && !Saw(before, DayWord) && !Saw(before, TimeWord) && !SawBig(before)
    case TimeWord => ParseTime(t).Some? && (LastUnit(before).None? || Calendar(LastUnit(before).value))
    case NumberWord => ParseUint(t).Some? && ParseUint(t).value >= 1 && !SawBig(before)
  }

  predicate AllGood(ts: seq<string>) {
    forall j | 0 <= j < |ts| :: GoodWord(ts[..j], ts[j])
  }

  /** What the plan keeps of the words. */
  predicate Summary(p: Plan, ts: seq<string>) {
    && p.interval == (if Saw(ts, NumberWord) then LastNumber(ts).GetOr(0) else if Saw(ts, EveryWord) then 1 else 0)
    && (Saw(ts, NumberWord) ==> p.interval > 0) && (p.interval > 1 <==> SawBig(ts))
    && p.unit == (if LastUnit(ts).Some? then LastUnit(ts).value
                  else if Saw(ts, DayWord) then Weeks else if Saw(ts, TimeWord) then Days else Never)
    && p.startDay == LastDay(ts).GetOr(0)
    && (p.lastRun.Some? <==> Saw(ts, TimeWord))
    && (LastUnit(ts).Some? <==> Saw(ts, UnitWord)) && LastUnit(ts) != Some(Never)
  }

  lemma SawNext(ts: seq<string>, t: string)
    ensures forall kind :: Saw(ts + [t], kind) <==> Saw(ts, kind) || WordKind(t) == kind
    ensures SawBig(ts + [t]) <==> SawBig(ts) || (WordKind(t) == NumberWord && ParseUint(t) != Some(1))
    ensures LastUnit(ts + [t]) == if UnitOf(t).Some? then UnitOf(t) else LastUnit(ts)
    ensures LastNumber(ts + [t]) == if WordKind(t) == NumberWord then ParseUint(t) else LastNumber(ts)
    ensures LastDay(ts + [t]) == if WordKind(t) == DayWord then DayOfToken(t) else LastDay(ts)
  {
    hide WordKind, ParseUint, UnitOf, DayOfToken;
    var all := ts + [t];
    assert all[..|all| - 1] == ts && all[|ts|] == t;
    assert forall i | 0 <= i < |ts| :: all[i] == ts[i];
    forall kind ensures Saw(all, kind) <==> Saw(ts, kind) || WordKind(t) == kind {
      if i :| 0 <= i < |ts| && WordKind(ts[i]) == kind {
        assert WordKind(all[i]) == kind;
      }
    }
    if i :| 0 <= i < |ts| && WordKind(ts[i]) == NumberWord && ParseUint(ts[i]) != Some(1) {
      assert WordKind(all[i]) == NumberWord && ParseUint(all[i]) != Some(1);
    }
  }

  lemma GoodNext(p: Plan, ts: seq<string>, t: string, zone: int, now: int)
    requires Summary(p, ts)
    ensures Token(p, t, zone, now).Some? <==> GoodWord(ts, t)
    ensures Token(p, t, zone, now).Some? ==> Summary(Token(p, t, zone, now).value, ts + [t])
  {
    SawNext(ts, t);
    UnitNever(t);
    EveryIsNoUnit();
    hide Saw, SawBig, LastUnit, LastNumber, LastDay, LastRun, ParseTime, ParseUint, UnitOf, DayOfToken;
  }

  lemma AllGoodNext(ts: seq<string>, t: string)
    ensures AllGood(ts + [t]) <==> AllGood(ts) && GoodWord(ts, t)
  {
    hide GoodWord;
    var all := ts + [t];
    assert all[..|ts|] == ts && all[|ts|] == t;
    assert forall j | 0 <= j < |ts| :: all[..j] == ts[..j] && all[j] == ts[j];
    if AllGood(all) {
      forall j | 0 <= j < |ts| ensures GoodWord(ts[..j], ts[j]) {
        assert GoodWord(all[..j], all[j]);
      }
    }
  }

  lemma NothingSeen()
    ensures Summary(START, []) && AllGood([])
  {}

  lemma {:induction false} TokensGood(ts: seq<string>, zone: int, now: int)
    ensures Tokens(ts, zone, now).Some? <==> AllGood(ts)
    ensures Tokens(ts, zone, now).Some? ==> Summary(Tokens(ts, zone, now).value, ts)
  {
    hide Token, Summary, AllGood, GoodWord;
    if ts == [] {
      NothingSeen();
    } else {
      var n := |ts| - 1;
      TokensGood(ts[..n], zone, now);
      assert ts == ts[..n] + [ts[n]];
      AllGoodNext(ts[..n], ts[n]);
      if Tokens(ts[..n], zone, now).Some? {
        GoodNext(Tokens(ts[..n], zone, now).value, ts[..n], ts[n], zone, now);
      }
    }
  }

  /** Exactly the texts are accepted whose words are all good and that name a unit, a weekday or a
      time of day. The interval is the last number, or one; the unit the last that is named, or weeks
      with a weekday and days with a time alone; and there is a last run exactly with a time. */
  lemma AcceptedExactly(format: string, zone: int, now: int)
    ensures var ts := Oid.Split(ToLower(format), ' '); var p := Read(format, zone, now);
      && (p.Some? <==> AllGood(ts) && (Saw(ts, UnitWord) || Saw(ts, DayWord) || Saw(ts, TimeWord)))
      && (p.Some? ==>
            && p.value.interval == LastNumber(ts).GetOr(1) >= 1
            && p.value.unit == (if Saw(ts, UnitWord) then LastUnit(ts).GetOr(Never)
                                else if Saw(ts, DayWord) then Weeks else Days)
            && p.value.startDay == LastDay(ts).GetOr(0)
            && (p.value.lastRun.Some? <==> Saw(ts, TimeWord)))
  {
    hide Tokens, AllGood, Saw, SawBig, LastUnit, LastNumber, LastDay;
    var ts := Oid.Split(ToLower(format), ' ');
    TokensGood(ts, zone, now);
    NumberIsSeen(ts);
  }

  lemma {:induction false} NumberIsSeen(ts: seq<string>)
    ensures LastNumber(ts).Some? ==> Saw(ts, NumberWord)
  {
    hide WordKind, ParseUint;
    if ts != [] {
      var n := |ts| - 1;
      NumberIsSeen(ts[..n]);
      if i :| 0 <= i < n && WordKind(ts[..n][i]) == NumberWord {
        assert WordKind(ts[i]) == NumberWord;
      }
    }
  }
}
