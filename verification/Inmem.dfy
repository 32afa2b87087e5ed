/** The in-memory sink (metrics/inmem.go) against the plain history of its calls. Times are
    integers, calls are atomic. */
module Inmem {
  import opened Wrappers

  import opened Aggregates

  datatype Kind = Counter | Sample

  /** A recorded value: in the interval that starts at start, for a flattened key. */
  datatype Place = Place(start: int, kind: Kind, key: string)

  /** A call at time now: it begins the current interval if need be, and may record a value. */
  datatype Call = Call(now: int, put: Option<Put>)
  datatype Put = Put(kind: Kind, key: string, value: real)

  // ----- The history -----

  function Truncate(now: int, interval: int): int
    requires interval > 0
  {
    now - now % interval
  }

  /** What a call records for a place. */
  function Recorded(c: Call, interval: int, at: Place): seq<real>
    requires interval > 0
  {
    if c.put.Some? && at == Place(Truncate(c.now, interval), c.put.value.kind, c.put.value.key)
    then [c.put.value.value] else []
  }

  /** The values recorded for a place, in order. */
  function Values(calls: seq<Call>, interval: int, at: Place): seq<real>
    requires interval > 0
  {
    if calls == [] then []
    else
      var n := |calls| - 1;
      Values(calls[..n], interval, at) + Recorded(calls[n], interval, at)
  }

  /** The starts of the intervals that were begun, in order. */
  function Starts(calls: seq<Call>, interval: int): seq<int>
    requires interval > 0
  {
    if calls == [] then []
    else
      var n := |calls| - 1;
      var before, start := Starts(calls[..n], interval), Truncate(calls[n].now, interval);
      if before != [] && before[|before| - 1] == start then before else before + [start]
  }

  predicate Ordered(calls: seq<Call>) {
    forall i, j | 0 <= i < j < |calls| :: calls[i].now <= calls[j].now
  }

  predicate Increasing(s: seq<int>) {
    forall i, j | 0 <= i < j < |s| :: s[i] < s[j]
  }

  lemma Snoc(calls: seq<Call>, c: Call, interval: int)
    requires interval > 0
    ensures forall at :: Values(calls + [c], interval, at)
                         == Values(calls, interval, at) + Recorded(c, interval, at)
    ensures var before, start := Starts(calls, interval), Truncate(c.now, interval);
      Starts(calls + [c], interval) == if before != [] && before[|before| - 1] == start then before else before + [start]
  {}

  lemma TruncateOrder(a: int, b: int, interval: int)
    requires interval > 0 && a <= b
    ensures Truncate(a, interval) <= Truncate(b, interval)
    ensures Truncate(a, interval) <= a < Truncate(a, interval) + interval
  {
    var p, q := a / interval, b / interval;
    assert a == p * interval + a % interval && b == q * interval + b % interval;
    Monotone(p, q, interval, a % interval, b % interval);
  }

  /** Two calls fall in one interval exactly if the clock is in the same cell of the grid of
      multiples of interval; the interval starts with the cell. */
  lemma TruncateExactly(a: int, b: int, interval: int)
    requires interval > 0
    ensures Truncate(a, interval) % interval == 0
    ensures Truncate(a, interval) == Truncate(b, interval) <==> a / interval == b / interval
  {
    var p, q := a / interval, b / interval;
    assert a == p * interval + a % interval && b == q * interval + b % interval;
    CellStart(p, interval);
    NotAbove(p, q, interval);
    NotAbove(q, p, interval);
  }

  lemma CellStart(p: int, n: int)
    requires n > 0
    ensures (p * n) % n == 0
  {
    var r := (p * n) % n;
    var d := p - p * n / n;
    assert d * n == r;
    Scale(d - 1, n);
    Scale(-d, n);
    assert (d - 1) * n == r - n;
  }

  lemma Monotone(p: int, q: int, n: int, r: int, s: int)
    requires n > 0 && 0 <= r < n && 0 <= s < n && p * n + r <= q * n + s
    ensures p * n <= q * n
  {
    NotAbove(p, q, n);
  }

  lemma NotAbove(p: int, q: int, n: int)
    requires n > 0
    ensures p > q ==> p * n >= q * n + n
    ensures p <= q ==> p * n <= q * n
  {
    Scale(p - q - 1, n);
    Scale(q - p, n);
    assert (p - q - 1) * n == p * n - q * n - n && (q - p) * n == q * n - p * n;
  }

  lemma Scale(k: int, n: int)
    requires n > 0
    ensures k >= 0 ==> k * n >= 0
  {}

  /** Calls in the order of a clock begin intervals with increasing starts. */
  lemma {:induction false} StartsIncrease(calls: seq<Call>, interval: int)
    requires interval > 0 && Ordered(calls)
    ensures Increasing(Starts(calls, interval))
    ensures calls != [] <==> Starts(calls, interval) != []
    ensures calls != [] ==>
      var s := Starts(calls, interval); s[|s| - 1] == Truncate(calls[|calls| - 1].now, interval)
  {
    if calls != [] {
      var n := |calls| - 1;
      StartsIncrease(calls[..n], interval);
      if n > 0 {
        TruncateOrder(calls[n - 1].now, calls[n].now, interval);
      }
    }
  }

  /** A value was recorded for a place only in an interval that was begun. */
  lemma {:induction false} PlacesStarted(calls: seq<Call>, interval: int, at: Place)
    requires interval > 0
    ensures Values(calls, interval, at) != [] ==> at.start in Starts(calls, interval)
  {
    if calls != [] {
      PlacesStarted(calls[..|calls| - 1], interval, at);
    }
  }

  function Last<T>(s: seq<T>, n: nat): seq<T> {
    if |s| <= n then s else s[|s| - n..]
  }

  lemma LastSnoc<T>(s: seq<T>, x: T, n: nat)
    requires n > 0
    ensures var t := Last(s, n) + [x];
      Last(s + [x], n) == if |t| >= n then t[|t| - n..] else t
    ensures Last(s + [x], n) != [] && Last(s + [x], n)[|Last(s + [x], n)| - 1] == x
    ensures s != [] ==> Last(s, n) != [] && Last(s, n)[|Last(s, n)| - 1] == s[|s| - 1]
    ensures s == [] ==> Last(s, n) == []
  {}

  lemma LastLength<T>(s: seq<T>, n: nat)
    ensures |Last(s, n)| <= n && (|s| <= n ==> |Last(s, n)| == |s|)
  {}

  lemma NotYet(s: seq<int>, x: int)
    requires Increasing(s) && (s != [] ==> s[|s| - 1] < x)
    ensures x !in s
  {}

  /** A call without a value, later than all others, begins its interval or finds it as the last. */
  lemma Touched(calls: seq<Call>, now: int, interval: int)
    requires interval > 0 && Ordered(calls) && (calls != [] ==> calls[|calls| - 1].now <= now)
    ensures Ordered(calls + [Call(now, None)])
    ensures forall at :: Values(calls + [Call(now, None)], interval, at) == Values(calls, interval, at)
    ensures var before, start := Starts(calls, interval), Truncate(now, interval);
      && Starts(calls + [Call(now, None)], interval)
         == (if before != [] && before[|before| - 1] == start then before else before + [start])
      && (before == [] || before[|before| - 1] != start ==>
            forall kind, key :: Values(calls, interval, Place(start, kind, key)) == [])
  {
    hide Values, Starts, Truncate;
    Snoc(calls, Call(now, None), interval);
    StartsIncrease(calls, interval);
    var before, start := Starts(calls, interval), Truncate(now, interval);
    if calls != [] {
      TruncateOrder(calls[|calls| - 1].now, now, interval);
    }
    if before == [] || before[|before| - 1] != start {
      NotYet(before, start);
      forall kind, key ensures Values(calls, interval, Place(start, kind, key)) == [] {
        PlacesStarted(calls, interval, Place(start, kind, key));
      }
    }
  }

  // ----- The sink -----

  class IntervalMetrics {
    const start: int
    var counters: map<string, AggregateSample>
    var samples: map<string, AggregateSample>

    constructor (start: int)
      ensures this.start == start && counters == map[] && samples == map[]
    {
      this.start, counters, samples := start, map[], map[];
    }

    function Table(kind: Kind): map<string, AggregateSample>
      reads this
    {
      if kind.Counter? then counters else samples
    }
  }

  /** The retained intervals are the last maxIntervals that were begun. */
  ghost predicate Retained(intervals: seq<IntervalMetrics>, calls: seq<Call>, interval: int, maxIntervals: nat)
    requires interval > 0
  {
    StartAt(intervals, Last(Starts(calls, interval), maxIntervals))
  }

  /** There is one aggregate for every place with values, and it is that of their list. */
  ghost predicate Represented(aggregates: map<Place, AggregateSample>, calls: seq<Call>, interval: int, denom: real)
    requires interval > 0 && denom != 0.0
    reads aggregates.Values
  {
    && (forall at :: at in aggregates <==> Values(calls, interval, at) != [])
    && (forall at | at in aggregates :: aggregates[at].Holds(Values(calls, interval, at), denom))
    && (forall p, q | p in aggregates && q in aggregates && aggregates[p] == aggregates[q] :: p == q)
  }

  /** The same values need the same aggregates. */
  lemma SameValues(aggregates: map<Place, AggregateSample>, a: seq<Call>, b: seq<Call>, interval: int, denom: real)
    requires interval > 0 && denom != 0.0 && Represented(aggregates, a, interval, denom)
    requires forall at :: Values(a, interval, at) == Values(b, interval, at)
    ensures Represented(aggregates, b, interval, denom)
  {}

  /** One more value for one place. */
  lemma OneMore(aggregates: map<Place, AggregateSample>, a: seq<Call>, b: seq<Call>, interval: int, denom: real,
                at: Place, v: real)
    requires interval > 0 && denom != 0.0 && at in aggregates && aggregates[at].Holds(Values(b, interval, at), denom)
    requires forall p :: Values(b, interval, p) == if p == at then Values(a, interval, p) + [v] else Values(a, interval, p)
    requires forall p | p != at :: p in aggregates <==> Values(a, interval, p) != []
    requires forall p | p in aggregates && p != at :: aggregates[p].Holds(Values(a, interval, p), denom)
    requires forall p, q | p in aggregates && q in aggregates && aggregates[p] == aggregates[q] :: p == q
    ensures Represented(aggregates, b, interval, denom)
  {}

  ghost predicate StartAt(intervals: seq<IntervalMetrics>, starts: seq<int>) {
    && |intervals| == |starts|
    && forall i | 0 <= i < |starts| :: intervals[i].start == starts[i]
  }

  /** A table of an interval holds the aggregates of its places. */
  ghost predicate InTable(t: map<string, AggregateSample>, start: int, kind: Kind,
                          aggregates: map<Place, AggregateSample>) {
    forall key :: (key in t <==> Place(start, kind, key) in aggregates)
                  && (key in t ==> t[key] == aggregates[Place(start, kind, key)])
  }

  ghost predicate Filed(m: IntervalMetrics, aggregates: map<Place, AggregateSample>)
    reads m
  {
    InTable(m.counters, m.start, Counter, aggregates) && InTable(m.samples, m.start, Sample, aggregates)
  }

  /** The table of a place after an aggregate is put there, and any other table. */
  lemma TableSet(t: map<string, AggregateSample>, start: int, kind: Kind,
                 aggregates: map<Place, AggregateSample>, at: Place, agg: AggregateSample)
    requires InTable(t, start, kind, aggregates)
    ensures InTable(if start == at.start && kind == at.kind then t[at.key := agg] else t, start, kind, aggregates[at := agg])
  {}

  class InmemSink {
    const interval: int
    const maxIntervals: nat
    const rateDenom: real
    var intervals: seq<IntervalMetrics>
    /** The calls so far, the aggregate of every place that ever had a value, and the objects. */
    ghost var calls: seq<Call>
    ghost var repr: set<object>
    ghost var aggregates: map<Place, AggregateSample>

    ghost predicate Valid()
      reads this, repr
    {
      && Shape() && Ordered(calls)
      && Retained(intervals, calls, interval, maxIntervals)
      && Represented(aggregates, calls, interval, rateDenom)
      && forall m | m in intervals :: Filed(m, aggregates)
    }

    ghost predicate Shape()
      reads this
    {
      && (forall m | m in intervals :: m in repr) && aggregates.Values <= repr && this !in repr
      && interval > 0 && maxIntervals > 0 && rateDenom != 0.0 && rateDenom == interval as real / 1000000000.0
    }

    constructor (interval: int, retain: int)
      requires 0 < interval <= retain
      ensures Valid() && calls == [] && fresh(repr)
      ensures this.interval == interval && maxIntervals == retain / interval
    {
      this.interval, maxIntervals, rateDenom := interval, retain / interval, interval as real / 1000000000.0;
      intervals, calls, aggregates, repr := [], [], map[], {};
      new;
      RateDenom(interval);
    }
  
    /** createInterval: a new interval; only the last maxIntervals stay. */
    method CreateInterval(intv: int) returns (m: IntervalMetrics)
      requires maxIntervals > 0 && |intervals| <= maxIntervals
      modifies this`intervals, this`repr
      ensures fresh(m) && m.start == intv && m.counters == map[] && m.samples == map[]
      ensures intervals == Last(old(intervals) + [m], maxIntervals) && repr == old(repr) + {m}
    {
      m := new IntervalMetrics(intv);
      intervals := intervals + [m];
      var n := |intervals|;
      if n >= maxIntervals {
        intervals := intervals[n - maxIntervals..];
      }
      repr := repr + {m};
    }

    /** getInterval. */
    method CurrentInterval(now: int) returns (m: IntervalMetrics)
      requires Valid() && (calls != [] ==> calls[|calls| - 1].now <= now)
      modifies this
      ensures Valid() && fresh(repr - old(repr))
      ensures calls == old(calls) + [Call(now, None)] && aggregates == old(aggregates)
      ensures intervals != [] && m == intervals[|intervals| - 1] && m.start == Truncate(now, interval)
    {
      hide Ordered, Values, Starts, Truncate, Last, StartAt, Filed, AggregateSample.Holds, Represented, Retained;
      var intv := Truncate(now, interval);
      Current(intv);
      Touched(calls, now, interval);
      SameValues(aggregates, calls, calls + [Call(now, None)], interval, rateDenom);
      if |intervals| > 0 && intervals[|intervals| - 1].start == intv {
        StillRetained(now);
        m := intervals[|intervals| - 1];
      } else {
        ghost var kept := intervals;
        NotRecorded(intv);
        m := CreateInterval(intv);
        NewFiled(m, aggregates);
        NowRetained(kept, m, calls, now);
      }
      calls := calls + [Call(now, None)];
    }

    lemma StillRetained(now: int)
      requires Valid() && Ordered(calls) && (calls != [] ==> calls[|calls| - 1].now <= now)
      requires |intervals| > 0 && intervals[|intervals| - 1].start == Truncate(now, interval)
      ensures Retained(intervals, calls + [Call(now, None)], interval, maxIntervals)
    {
      hide Values, Truncate, Last, Starts, StartAt, Represented, Filed, Ordered;
      Current(Truncate(now, interval));
      Touched(calls, now, interval);
    }

    lemma NowRetained(kept: seq<IntervalMetrics>, m: IntervalMetrics, calls: seq<Call>, now: int)
      requires interval > 0 && maxIntervals > 0 && Ordered(calls) && (calls != [] ==> calls[|calls| - 1].now <= now)
      requires Retained(kept, calls, interval, maxIntervals) && m.start == Truncate(now, interval)
      requires var s := Starts(calls, interval); s == [] || s[|s| - 1] != m.start
      ensures var after := Last(kept + [m], maxIntervals);
        && Retained(after, calls + [Call(now, None)], interval, maxIntervals)
        && after != [] && after[|after| - 1] == m && forall k | k in after :: k in kept || k == m
    {
      hide Ordered, Values, Starts, Truncate, Last, StartAt;
      var starts := Starts(calls, interval);
      Touched(calls, now, interval);
      LastSnoc(starts, m.start, maxIntervals);
      LastLength(starts, maxIntervals);
      KeptLength(kept, Last(starts, maxIntervals));
      Shifted(kept, m, Last(starts, maxIntervals), maxIntervals);
    }

    lemma NotRecorded(intv: int)
      requires Valid()
      requires forall kind, key :: Values(calls, interval, Place(intv, kind, key)) == []
      ensures forall kind, key :: Place(intv, kind, key) !in aggregates
    {}

    /** IncrCounter and AddSample, which differ in the table they use. */
    method Record(now: int, put: Put)
      requires Valid() && (calls != [] ==> calls[|calls| - 1].now <= now)
      modifies this, repr
      ensures Valid() && fresh(repr - old(repr))
      ensures calls == old(calls) + [Call(now, Some(put))]
    {
      hide Values, Starts, Truncate, Retained, Represented, Filed;
      ghost var before := calls;
      var m := CurrentInterval(now);
      Recording(before, now, put, interval);
      Enter(m, put, before + [Call(now, Some(put))]);
    }

    /** One more value in a retained interval. */
    method Enter(m: IntervalMetrics, put: Put, ghost after: seq<Call>)
      requires Valid() && m in intervals && Ordered(after) && Starts(after, interval) == Starts(calls, interval)
      requires var here := Place(m.start, put.kind, put.key);
        forall at :: Values(after, interval, at)
                     == if at == here then Values(calls, interval, at) + [put.value] else Values(calls, interval, at)
      modifies this, repr
      ensures Valid() && fresh(repr - old(repr)) && calls == after
    {
      hide Ordered, Values, Starts, Truncate, Last, StartAt, Filed, AggregateSample.Holds, Represented;
      ghost var before, at := calls, Place(m.start, put.kind, put.key);
      var agg := Find(m, put.kind, put.key);
      agg.Ingest(put.value, rateDenom, Values(before, interval, at));
      calls := after;
      OneMore(aggregates, before, after, interval, rateDenom, at, put.value);
    }

    /** The aggregate for a key in the current interval, empty if it is new. */
    method Find(m: IntervalMetrics, kind: Kind, key: string) returns (agg: AggregateSample)
      requires Valid() && m in intervals
      modifies this`aggregates, this`repr, m
      ensures var at := Place(m.start, kind, key);
        && aggregates == old(aggregates)[at := agg] && repr == old(repr) + {agg}
        && rateDenom != 0.0 && agg.Holds(Values(calls, interval, at), rateDenom)
        && (if at in old(aggregates) then agg == old(aggregates)[at] else fresh(agg))
      ensures forall n | n in intervals :: Filed(n, aggregates)
      ensures var at := Place(m.start, kind, key);
        && (forall p | p != at :: p in aggregates <==> Values(calls, interval, p) != [])
        && (forall p | p in aggregates && p != at ::
              aggregates[p] != agg && aggregates[p].Holds(Values(calls, interval, p), rateDenom))
        && (forall p, q | p in aggregates && q in aggregates && aggregates[p] == aggregates[q] :: p == q)
    {
      hide Ordered, Values, Starts, Truncate, Last, InTable, AggregateSample.Holds;
      ghost var at := Place(m.start, kind, key);
      ghost var known := aggregates;
      Tables(m, kind, key);
      Distinct(m);
      if key in m.Table(kind) {
        agg := m.Table(kind)[key];
      } else {
        agg := new AggregateSample();
        if kind.Counter? {
          m.counters := m.counters[key := agg];
        } else {
          m.samples := m.samples[key := agg];
        }
      }
      aggregates, repr := aggregates[at := agg], repr + {agg};
      assert m.counters == if kind.Counter? then old(m.counters)[key := agg] else old(m.counters);
      assert m.samples == if kind.Counter? then old(m.samples) else old(m.samples)[key := agg];
      forall n | n in intervals ensures Filed(n, aggregates) {
        TableSet(if n == m then old(m.counters) else n.counters, n.start, Counter, known, at, agg);
        TableSet(if n == m then old(m.samples) else n.samples, n.start, Sample, known, at, agg);
      }
    }

    lemma Tables(m: IntervalMetrics, kind: Kind, key: string)
      requires Valid() && m in intervals
      ensures var at := Place(m.start, kind, key);
        && (key in m.Table(kind) <==> at in aggregates)
        && (key in m.Table(kind) ==> m.Table(kind)[key] == aggregates[at])
        && (at !in aggregates ==> Values(calls, interval, at) == [])
    {}

    /** Two retained intervals have different starts. */
    lemma Distinct(m: IntervalMetrics)
      requires Valid() && m in intervals
      ensures forall n | n in intervals && n != m :: n.start != m.start
    {
      hide Values, Starts, Truncate, Represented, Filed;
      StartsIncrease(calls, interval);
    }

    /** What the sink holds for a key in a retained interval is the aggregate of exactly the values
        recorded there, with the rate per second, the mean and the sample variance of those. */
    lemma Report(m: IntervalMetrics, kind: Kind, key: string)
      requires Valid() && m in intervals
      ensures var v := Values(calls, interval, Place(m.start, kind, key));
        && (key in m.Table(kind) <==> v != [])
        && (v != [] ==> m.Table(kind)[key].Describes(v, interval))
    {
      hide Values, Starts, AggregateSample.Describes;
      Tables(m, kind, key);
      if key in m.Table(kind) {
        var v := Values(calls, interval, Place(m.start, kind, key));
        var a := m.Table(kind)[key];
        assert a.Holds(v, rateDenom);
        a.Described(v, rateDenom, interval);
      }
    }

    /** The retained intervals are the last min(n, maxIntervals) of the n begun, in increasing order. */
    lemma History()
      requires Valid()
      ensures var starts := Starts(calls, interval);
        && |intervals| == (if |starts| < maxIntervals then |starts| else maxIntervals)
        && (forall i | 0 <= i < |intervals| :: intervals[i].start == starts[|starts| - |intervals| + i])
        && (forall i, j | 0 <= i < j < |intervals| :: intervals[i].start < intervals[j].start)
    {
      hide Starts, Values, Represented, Filed;
      StartsIncrease(calls, interval);
    }

    /** The last interval is the last one begun. */
    lemma Current(intv: int)
      requires Valid()
      ensures interval > 0 && maxIntervals > 0 && |intervals| <= maxIntervals && Ordered(calls)
      ensures var starts := Starts(calls, interval);
        (|intervals| > 0 && intervals[|intervals| - 1].start == intv)
        <==> (starts != [] && starts[|starts| - 1] == intv)
      ensures StartAt(intervals, Last(Starts(calls, interval), maxIntervals))
      ensures |Last(Starts(calls, interval), maxIntervals)| <= maxIntervals
    {
      LastSnoc(Starts(calls, interval), intv, maxIntervals);
    }
  }

  lemma NewFiled(m: IntervalMetrics, aggregates: map<Place, AggregateSample>)
    requires m.counters == map[] && m.samples == map[]
    requires forall kind, key :: Place(m.start, kind, key) !in aggregates
    ensures Filed(m, aggregates)
  {}

  lemma KeptLength(kept: seq<IntervalMetrics>, starts: seq<int>)
    requires StartAt(kept, starts)
    ensures |kept| == |starts|
  {}

  /** The starts of the retained intervals after one more. */
  lemma Shifted(kept: seq<IntervalMetrics>, m: IntervalMetrics, starts: seq<int>, n: nat)
    requires n > 0 && |starts| <= n && StartAt(kept, starts)
    ensures var t := starts + [m.start];
      var u := if |t| >= n then t[|t| - n..] else t;
      var after := Last(kept + [m], n);
      && StartAt(after, u)
      && after != [] && after[|after| - 1] == m && forall k | k in after :: k in kept || k == m
  {}

  /** A sink after any calls in the order of the clock: its history is those calls. */
  method Replay(interval: int, retain: int, calls: seq<Call>) returns (sink: InmemSink)
    requires 0 < interval <= retain && Ordered(calls)
    ensures fresh(sink) && sink.Valid() && sink.calls == calls
    ensures sink.interval == interval && sink.maxIntervals == retain / interval
  {
    hide InmemSink.Valid;
    sink := new InmemSink(interval, retain);
    for i := 0 to |calls|
      invariant sink.Valid() && sink.calls == calls[..i] && fresh(sink.repr)
      invariant sink.interval == interval && sink.maxIntervals == retain / interval
    {
      assert calls[..i + 1] == calls[..i] + [calls[i]];
      if calls[i].put.Some? {
        sink.Record(calls[i].now, calls[i].put.value);
      } else {
        var _ := sink.CurrentInterval(calls[i].now);
      }
    }
    assert calls[..|calls|] == calls;
  }

  /** A call that records a value instead of none. */
  lemma Recording(calls: seq<Call>, now: int, put: Put, interval: int)
    requires interval > 0 && Ordered(calls + [Call(now, None)])
    ensures var a, b := calls + [Call(now, None)], calls + [Call(now, Some(put))];
      var here := Place(Truncate(now, interval), put.kind, put.key);
      && Ordered(b) && Starts(b, interval) == Starts(a, interval)
      && forall at :: Values(b, interval, at) == if at == here then Values(a, interval, at) + [put.value] else Values(a, interval, at)
  {}

  lemma RateDenom(interval: int)
    requires interval > 0
    ensures interval as real / 1000000000.0 != 0.0
  {}
}
