/** The batching loop of the statsd sink (metrics/statsd.go). */
module Statsd {
  const MAX_LEN := 1400

  datatype Mode = Connecting | Collecting | Waiting | Stopped

  /** What the loop gets from outside, one at a time: the result of a dial, a metric from the queue
      and whether a packet could be written just then, the closed queue, a tick, the end of a wait. */
  datatype Input =
    | Dial(ok: bool)
    | Dequeue(metric: string, ok: bool)
    | Closed
    | Tick(ok: bool)
    | WaitOver

  datatype Packet = Packet(data: string, ok: bool)

  datatype State = State(mode: Mode, buf: string, packets: seq<Packet>)

  const START := State(Connecting, "", [])

  predicate Enabled(s: State, i: Input) {
    match s.mode
    case Connecting => i.Dial?
    case Collecting => i.Dequeue? || i.Closed? || i.Tick?
    case Waiting => i.Dequeue? || i.Closed? || i.WaitOver?
    case Stopped => false
  }

  /** A write resets the buffer; when it fails the connection is given up. */
  function Written(s: State, ok: bool): State {
    State(if ok then s.mode else Waiting, "", s.packets + [Packet(s.buf, ok)])
  }

  function Step(s: State, i: Input): State
    requires Enabled(s, i)
  {
    match i
    case Dial(ok) => State(if ok then Collecting else Waiting, "", s.packets)
    case Closed => s.(mode := Stopped)
    case WaitOver => s.(mode := Connecting)
    case Tick(ok) => if s.buf == "" then s else Written(s, ok)
    case Dequeue(m, ok) =>
      if s.mode.Waiting? then s
      else
        var t := if |m| + |s.buf| > MAX_LEN then Written(s, ok) else s;
        if t.mode.Waiting? then t else t.(buf := t.buf + m)
  }

  predicate Possible(inputs: seq<Input>)
    decreases |inputs|, 0
  {
    inputs == [] ||
    (var n := |inputs| - 1; Possible(inputs[..n]) && Enabled(After(inputs[..n]), inputs[n]))
  }

  /** The state after the inputs. */
  function After(inputs: seq<Input>): State
    requires Possible(inputs)
    decreases |inputs|, 1
  {
    if inputs == [] then START
    else Step(After(inputs[..|inputs| - 1]), inputs[|inputs| - 1])
  }

  lemma AfterNext(inputs: seq<Input>, n: nat)
    requires n < |inputs| && Possible(inputs[..n + 1])
    ensures Possible(inputs[..n]) && Enabled(After(inputs[..n]), inputs[n])
    ensures After(inputs[..n + 1]) == Step(After(inputs[..n]), inputs[n])
  {
    assert inputs[..n + 1][..n] == inputs[..n];
  }

  lemma {:induction false} PossiblePrefix(inputs: seq<Input>, n: nat)
    requires n <= |inputs| && Possible(inputs)
    ensures Possible(inputs[..n])
  {
    if n < |inputs| {
      assert inputs[..|inputs| - 1][..n] == inputs[..n];
      PossiblePrefix(inputs[..|inputs| - 1], n);
    } else {
      assert inputs[..n] == inputs;
    }
  }

  /** The metrics taken from the queue, in order. */
  function Dequeued(inputs: seq<Input>): seq<string> {
    if inputs == [] then []
    else
      var n := |inputs| - 1;
      Dequeued(inputs[..n]) + (if inputs[n].Dequeue? then [inputs[n].metric] else [])
  }

  // ----- What happens to the metrics -----

  /** What became of a group of metrics that follow each other: sent or lost in one packet, still
      in the buffer, or dropped without a write. full: the write was forced by the next metric. */
  datatype Fate = Sent(full: bool) | Failed(full: bool) | Open | Dropped
  datatype Group = Group(metrics: seq<string>, fate: Fate)

  function Concat(metrics: seq<string>): string {
    if metrics == [] then "" else Concat(metrics[..|metrics| - 1]) + metrics[|metrics| - 1]
  }

  function Flatten(groups: seq<Group>): seq<string> {
    if groups == [] then [] else Flatten(groups[..|groups| - 1]) + groups[|groups| - 1].metrics
  }

  function Packets(groups: seq<Group>): seq<Packet> {
    if groups == [] then []
    else
      var g := groups[|groups| - 1];
      Packets(groups[..|groups| - 1])
      + (if g.fate.Sent? || g.fate.Failed? then [Packet(Concat(g.metrics), g.fate.Sent?)] else [])
  }

  lemma Snoc(groups: seq<Group>, g: Group)
    ensures Flatten(groups + [g]) == Flatten(groups) + g.metrics
    ensures Packets(groups + [g]) == Packets(groups)
      + (if g.fate.Sent? || g.fate.Failed? then [Packet(Concat(g.metrics), g.fate.Sent?)] else [])
  {}

  lemma ConcatSnoc(metrics: seq<string>, m: string)
    ensures Concat(metrics + [m]) == Concat(metrics) + m
  {}

  predicate Fits(g: Group) {
    |Concat(g.metrics)| <= MAX_LEN || |g.metrics| == 1
  }

  predicate Forced(f: Fate) {
    (f.Sent? || f.Failed?) && f.full
  }

  /** A forced packet had no room for the next metric; a packet sent by a tick is not empty. */
  predicate Reason(groups: seq<Group>, k: nat)
    requires k < |groups|
  {
    var g := groups[k];
    if Forced(g.fate) then
      && k + 1 < |groups| && groups[k + 1].metrics != []
      && |groups[k + 1].metrics[0]| + |Concat(g.metrics)| > MAX_LEN
    else (g.fate.Sent? || g.fate.Failed?) ==> Concat(g.metrics) != ""
  }

  /** groups account for every metric that was dequeued, for every packet and for the buffer. */
  ghost predicate Account(inputs: seq<Input>, s: State, groups: seq<Group>) {
    && Flatten(groups) == Dequeued(inputs)
    && Packets(groups) == s.packets
    && (forall k | 0 <= k < |groups| :: Fits(groups[k]) && Reason(groups, k))
    && (forall k | 0 <= k < |groups| :: groups[k].fate.Open? <==> s.mode.Collecting? && k == |groups| - 1)
    && (if s.mode.Collecting? then groups != [] && s.buf == Concat(groups[|groups| - 1].metrics)
        else s.mode.Stopped? || s.buf == "")
  }

  lemma DequeuedNext(inputs: seq<Input>, i: Input)
    ensures Dequeued(inputs + [i]) == Dequeued(inputs) + (if i.Dequeue? then [i.metric] else [])
  {}

  /** Closing the last group and opening or dropping others after it keeps the account of the
      groups before it. */
  lemma Replace(groups: seq<Group>, last: Group)
    requires groups != []
    requires forall k | 0 <= k < |groups| :: Reason(groups, k)
    requires groups[|groups| - 1].metrics <= last.metrics
    ensures var t := groups[..|groups| - 1] + [last]; forall k | 0 <= k < |groups| - 1 :: Reason(t, k)
  {
    var n := |groups| - 1;
    var t := groups[..n] + [last];
    forall k | 0 <= k < n ensures Reason(t, k) {
      assert Reason(groups, k) && t[k] == groups[k];
    }
  }

  lemma Extend(groups: seq<Group>, g: Group)
    requires forall k | 0 <= k < |groups| - 1 :: Reason(groups, k)
    requires groups != [] ==>
      var last := groups[|groups| - 1];
      if Forced(last.fate) then g.metrics != [] && |g.metrics[0]| + |Concat(last.metrics)| > MAX_LEN
      else (last.fate.Sent? || last.fate.Failed? ==> Concat(last.metrics) != "")
    ensures forall k | 0 <= k < |groups| :: Reason(groups + [g], k)
  {
    var t := groups + [g];
    forall k | 0 <= k < |groups| ensures Reason(t, k) {
      assert t[k] == groups[k];
      if k < |groups| - 1 { assert Reason(groups, k); }
    }
  }

  lemma Relast(groups: seq<Group>, last: Group)
    requires groups != [] && groups[|groups| - 1].fate.Open?
    ensures var front := groups[..|groups| - 1];
      && groups == front + [groups[|groups| - 1]]
      && Flatten(groups) == Flatten(front) + groups[|groups| - 1].metrics
      && Packets(groups) == Packets(front)
  {}

  /** One more metric goes into the buffer. */
  lemma Buffered(inputs: seq<Input>, s: State, groups: seq<Group>, i: Input) returns (next: seq<Group>)
    requires Account(inputs, s, groups) && s.mode.Collecting? && i.Dequeue? && Enabled(s, i)
    requires |i.metric| + |s.buf| <= MAX_LEN
    ensures Account(inputs + [i], Step(s, i), next)
  {
    hide Flatten, Packets, Dequeued, Possible, Concat;
    var n := |groups| - 1;
    var last := groups[n];
    next := groups[..n] + [Group(last.metrics + [i.metric], Open)];
    DequeuedNext(inputs, i);
    Relast(groups, last);
    Snoc(groups[..n], next[n]);
    ConcatSnoc(last.metrics, i.metric);
    Replace(groups, next[n]);
    assert Flatten(next) == Flatten(groups) + [i.metric];
  }

  /** The buffer is written, and a group follows: the next one or the metric that is lost. */
  lemma Flush(groups: seq<Group>, fate: Fate, g: Group) returns (next: seq<Group>)
    requires groups != [] && groups[|groups| - 1].fate.Open? && (fate.Sent? || fate.Failed?)
    requires forall k | 0 <= k < |groups| :: Fits(groups[k]) && Reason(groups, k)
    requires forall k | 0 <= k < |groups| - 1 :: !groups[k].fate.Open?
    requires !Forced(g.fate) && !g.fate.Sent? && !g.fate.Failed? && Fits(g)
    requires var data := Concat(groups[|groups| - 1].metrics);
      if fate.full then g.metrics != [] && |g.metrics[0]| + |data| > MAX_LEN else data != ""
    ensures |next| == |groups| + 1 && next[|groups|] == g
    ensures forall k | 0 <= k < |groups| - 1 :: next[k] == groups[k]
    ensures next[|groups| - 1] == Group(groups[|groups| - 1].metrics, fate)
    ensures forall k | 0 <= k < |next| :: Fits(next[k]) && Reason(next, k)
    ensures Flatten(next) == Flatten(groups) + g.metrics
    ensures Packets(next) == Packets(groups) + [Packet(Concat(groups[|groups| - 1].metrics), fate.Sent?)]
  {
    hide Reason, Fits, Flatten, Packets;
    var n := |groups| - 1;
    var closed := Group(groups[n].metrics, fate);
    next := groups[..n] + [closed] + [g];
    Relast(groups, closed);
    Snoc(groups[..n], closed);
    Snoc(groups[..n] + [closed], g);
    Replace(groups, closed);
    Extend(groups[..n] + [closed], g);
    ReasonLast(next);
    SameMetricsFit(groups[n], closed);
  }

  lemma ReasonLast(groups: seq<Group>)
    requires groups != []
    ensures !groups[|groups| - 1].fate.Sent? && !groups[|groups| - 1].fate.Failed? ==>
      Reason(groups, |groups| - 1)
  {}

  lemma SameMetricsFit(g: Group, h: Group)
    requires g.metrics == h.metrics
    ensures Fits(g) <==> Fits(h)
  {}

  /** A group is added that is not written. */
  lemma Add(groups: seq<Group>, g: Group)
    requires forall k | 0 <= k < |groups| :: Reason(groups, k)
    requires groups != [] ==> !Forced(groups[|groups| - 1].fate)
    requires !g.fate.Sent? && !g.fate.Failed?
    ensures forall k | 0 <= k < |groups| + 1 :: Reason(groups + [g], k)
  {
    assert groups != [] ==> Reason(groups, |groups| - 1);
    Extend(groups, g);
    ReasonLast(groups + [g]);
  }

  lemma NotForced(groups: seq<Group>)
    requires forall k | 0 <= k < |groups| :: Reason(groups, k)
    ensures groups != [] ==> !Forced(groups[|groups| - 1].fate)
  {
    assert groups != [] ==> Reason(groups, |groups| - 1);
  }

  lemma Single(m: string)
    ensures Concat([m]) == m && Concat([]) == ""
  {}

  /** A packet is forced out by the next metric. */
  lemma ForcedOut(inputs: seq<Input>, s: State, groups: seq<Group>, i: Input) returns (next: seq<Group>)
    requires Account(inputs, s, groups) && s.mode.Collecting? && i.Dequeue? && Enabled(s, i)
    requires |i.metric| + |s.buf| > MAX_LEN
    ensures Account(inputs + [i], Step(s, i), next)
  {
    hide Flatten, Packets, Reason, Dequeued, Possible;
    Single(i.metric);
    DequeuedNext(inputs, i);
    if i.ok {
      next := Flush(groups, Sent(true), Group([i.metric], Open));
    } else {
      next := Flush(groups, Failed(true), Group([i.metric], Dropped));
    }
  }

  /** The ticker writes what there is. */
  lemma Ticked(inputs: seq<Input>, s: State, groups: seq<Group>, i: Input) returns (next: seq<Group>)
    requires Account(inputs, s, groups) && i.Tick? && Enabled(s, i)
    ensures Account(inputs + [i], Step(s, i), next)
  {
    hide Flatten, Packets, Reason, Dequeued, Possible;
    Single("");
    DequeuedNext(inputs, i);
    if s.buf == "" {
      next := groups;
    } else if i.ok {
      next := Flush(groups, Sent(false), Group([], Open));
    } else {
      next := Flush(groups, Failed(false), Group([], Dropped));
    }
  }

  /** A dial, the end of a wait, the closed queue and a metric that is dropped while waiting. */
  lemma Others(inputs: seq<Input>, s: State, groups: seq<Group>, i: Input) returns (next: seq<Group>)
    requires Account(inputs, s, groups) && Enabled(s, i)
    requires i.Dial? || i.WaitOver? || i.Closed? || (i.Dequeue? && s.mode.Waiting?)
    ensures Account(inputs + [i], Step(s, i), next)
  {
    hide Flatten, Packets, Reason, Dequeued, Possible;
    Single("");
    DequeuedNext(inputs, i);
    NotForced(groups);
    if i.Closed? && s.mode.Collecting? {
      var n := |groups| - 1;
      var last := Group(groups[n].metrics, Dropped);
      next := groups[..n] + [last];
      Relast(groups, last);
      Snoc(groups[..n], last);
      Replace(groups, last);
      ReasonLast(next);
    } else if (i.Dial? && i.ok) || i.Dequeue? {
      var g := if i.Dial? then Group([], Open) else Group([i.metric], Dropped);
      next := groups + [g];
      Snoc(groups, g);
      Add(groups, g);
    } else {
      next := groups;
    }
  }

  /** Whatever the dials, writes and ticks do, every metric that was dequeued is in exactly one
      group, in order, and the packets are the written groups: no metric is split or written twice,
      a packet is longer than MAX_LEN only for a single metric, and is written before its time
      only when the next metric does not fit. */
  lemma {:induction false} Accounted(inputs: seq<Input>) returns (groups: seq<Group>)
    requires Possible(inputs)
    ensures Account(inputs, After(inputs), groups)
  {
    if inputs == [] {
      groups := [];
    } else {
      hide Account;
      var n := |inputs| - 1;
      var before, s, i := inputs[..n], After(inputs[..n]), inputs[n];
      assert inputs == before + [i];
      groups := Accounted(before);
      Modes(before, s, groups, i);
      if s.mode.Collecting? && i.Dequeue? {
        if |i.metric| + |s.buf| <= MAX_LEN {
          groups := Buffered(before, s, groups, i);
        } else {
          groups := ForcedOut(before, s, groups, i);
        }
      } else if i.Tick? {
        groups := Ticked(before, s, groups, i);
      } else {
        groups := Others(before, s, groups, i);
      }
    }
  }

  lemma Modes(inputs: seq<Input>, s: State, groups: seq<Group>, i: Input)
    requires Enabled(s, i)
    ensures i.Dequeue? ==> s.mode.Collecting? || s.mode.Waiting?
    ensures i.Dial? || i.WaitOver? || i.Closed? || i.Tick? || i.Dequeue?
  {}

  lemma {:induction false} GroupOfPacket(groups: seq<Group>, k: nat) returns (g: Group)
    requires k < |Packets(groups)|
    ensures g in groups && Packets(groups)[k].data == Concat(g.metrics)
  {
    var n := |groups| - 1;
    if k < |Packets(groups[..n])| {
      g := GroupOfPacket(groups[..n], k);
    } else {
      g := groups[n];
    }
  }

  lemma {:induction false} MetricOfGroup(groups: seq<Group>, g: Group, m: string)
    requires g in groups && m in g.metrics
    ensures m in Flatten(groups)
  {
    var n := |groups| - 1;
    assert groups == groups[..n] + [groups[n]];
    if g in groups[..n] {
      MetricOfGroup(groups[..n], g, m);
    }
  }

  /** A packet or a buffer is longer than 1400 bytes only if it is one metric. */
  predicate Small(data: string, inputs: seq<Input>) {
    |data| <= 1400 || data in Dequeued(inputs)
  }

  lemma SmallGroup(inputs: seq<Input>, groups: seq<Group>, g: Group)
    requires Flatten(groups) == Dequeued(inputs) && g in groups && Fits(g)
    ensures Small(Concat(g.metrics), inputs)
  {
    if |g.metrics| == 1 {
      Single(g.metrics[0]);
      assert g.metrics == [g.metrics[0]];
      MetricOfGroup(groups, g, g.metrics[0]);
    }
  }

  /** The packets and the buffer of every run keep to the packet size. */
  lemma PacketSize(inputs: seq<Input>)
    requires Possible(inputs)
    ensures forall p | p in After(inputs).packets :: Small(p.data, inputs)
    ensures After(inputs).mode.Collecting? ==> Small(After(inputs).buf, inputs)
  {
    hide After, Possible, Small, Fits, Reason, Packets, Flatten, Dequeued;
    var s := After(inputs);
    var groups := Accounted(inputs);
    forall p | p in s.packets ensures Small(p.data, inputs) {
      var k: nat :| k < |s.packets| && s.packets[k] == p;
      var g := GroupOfPacket(groups, k);
      SmallGroup(inputs, groups, g);
    }
    if s.mode.Collecting? {
      SmallGroup(inputs, groups, groups[|groups| - 1]);
    }
  }

  // ----- One connection -----

  /** Metrics and ticks on a connection whose writes succeed. */
  predicate Smooth(more: seq<Input>) {
    forall i | i in more :: (i.Dequeue? || i.Tick?) && i.ok
  }

  function Data(packets: seq<Packet>): string {
    if packets == [] then "" else Data(packets[..|packets| - 1]) + packets[|packets| - 1].data
  }

  lemma DataSnoc(packets: seq<Packet>, p: Packet)
    ensures Data(packets + [p]) == Data(packets) + p.data
  {}

  lemma PossibleNext(inputs: seq<Input>, i: Input)
    requires Possible(inputs) && Enabled(After(inputs), i)
    ensures Possible(inputs + [i]) && After(inputs + [i]) == Step(After(inputs), i)
  {}

  /** On a connection without a write error, what is written and what is in the buffer are the
      dequeued metrics, in their order. */
  lemma {:induction false} ConnectionDelivers(inputs: seq<Input>, more: seq<Input>)
    requires Possible(inputs) && After(inputs).mode.Collecting? && Smooth(more)
    ensures Possible(inputs + more) && After(inputs + more).mode.Collecting?
    ensures After(inputs).packets <= After(inputs + more).packets
    ensures Data(After(inputs + more).packets) + After(inputs + more).buf
            == Data(After(inputs).packets) + After(inputs).buf + Concat(Dequeued(more))
  {
    if more == [] {
      assert inputs + more == inputs;
    } else {
      hide After, Possible, Data, Concat, Dequeued;
      var n := |more| - 1;
      var front, i := more[..n], more[n];
      assert more == front + [i];
      ConnectionDelivers(inputs, front);
      assert inputs + more == inputs + front + [i];
      PossibleNext(inputs + front, i);
      DequeuedNext(front, i);
      OneDelivered(After(inputs + front), i, Data(After(inputs).packets) + After(inputs).buf, Dequeued(front));
    }
  }

  lemma OneDelivered(s: State, i: Input, before: string, metrics: seq<string>)
    requires s.mode.Collecting? && (i.Dequeue? || i.Tick?) && i.ok
    requires Data(s.packets) + s.buf == before + Concat(metrics)
    ensures Enabled(s, i) && Step(s, i).mode.Collecting? && s.packets <= Step(s, i).packets
    ensures Data(Step(s, i).packets) + Step(s, i).buf
            == before + Concat(metrics + (if i.Dequeue? then [i.metric] else []))
  {
    hide Data, Concat;
    DataSnoc(s.packets, Packet(s.buf, true));
    if i.Dequeue? {
      ConcatSnoc(metrics, i.metric);
      assert before + (Concat(metrics) + i.metric) == before + Concat(metrics) + i.metric;
      assert Data(s.packets) + (s.buf + i.metric) == Data(s.packets) + s.buf + i.metric;
      assert "" + i.metric == i.metric;
    } else {
      assert Data(s.packets) + s.buf + "" == Data(s.packets) + s.buf;
      assert metrics + [] == metrics;
    }
  }

  lemma NothingMissing(d0: string, c: string, d: string, b: string)
    requires d + b == d0 + "" + c
    ensures d == d0 + c <==> b == ""
  {
    assert d0 + "" == d0;
    assert |d + b| == |d| + |b|;
  }

  /** Shutdown loses what is in the buffer: everything was written exactly if the buffer was empty
      when the queue was closed. */
  lemma ShutdownLosesBuffer(inputs: seq<Input>, more: seq<Input>)
    requires Possible(inputs) && After(inputs).mode.Collecting? && After(inputs).buf == "" && Smooth(more)
    ensures Possible(inputs + more + [Closed])
    ensures Data(After(inputs + more + [Closed]).packets) == Data(After(inputs).packets) + Concat(Dequeued(more))
            <==> After(inputs + more).buf == ""
  {
    hide Data, Concat, Dequeued, After, Possible;
    ConnectionDelivers(inputs, more);
    PossibleNext(inputs + more, Closed);
    NothingMissing(Data(After(inputs).packets), Concat(Dequeued(more)),
                   Data(After(inputs + more).packets), After(inputs + more).buf);
  }

  /** An empty packet goes out exactly when a metric longer than a packet meets an empty buffer. */
  lemma EmptyPacket(s: State, i: Input)
    requires Enabled(s, i)
    ensures s.packets < Step(s, i).packets && Step(s, i).packets[|s.packets|].data == ""
            <==> s.mode.Collecting? && i.Dequeue? && s.buf == "" && |i.metric| > MAX_LEN
  {}

  /** It happens: with the first metric of a connection. */
  lemma EmptyPacketSent(metric: string)
    requires |metric| > MAX_LEN
    ensures Possible([Dial(true), Dequeue(metric, true)])
    ensures After([Dial(true), Dequeue(metric, true)]) == State(Collecting, metric, [Packet("", true)])
  {
    PossibleNext([], Dial(true));
    PossibleNext([Dial(true)], Dequeue(metric, true));
    assert [] + [Dial(true)] == [Dial(true)];
    assert [Dial(true)] + [Dequeue(metric, true)] == [Dial(true), Dequeue(metric, true)];
    assert "" + metric == metric && [] + [Packet("", true)] == [Packet("", true)];
  }

  /** A tick sends everything that was dequeued on the connection before it. */
  lemma TickSendsAll(inputs: seq<Input>, more: seq<Input>)
    requires Possible(inputs) && After(inputs).mode.Collecting? && Smooth(more)
    ensures Possible(inputs + more + [Tick(true)])
    ensures var t := After(inputs + more + [Tick(true)]);
      && t.mode.Collecting? && t.buf == ""
      && Data(t.packets) == Data(After(inputs).packets) + After(inputs).buf + Concat(Dequeued(more))
  {
    hide Data, Concat, Dequeued, After, Possible;
    ConnectionDelivers(inputs, more);
    PossibleNext(inputs + more, Tick(true));
    OneDelivered(After(inputs + more), Tick(true), Data(After(inputs).packets) + After(inputs).buf, Dequeued(more));
    var t := After(inputs + more + [Tick(true)]);
    assert Data(t.packets) + "" == Data(t.packets) && Dequeued(more) + [] == Dequeued(more);
  }

  /** Metrics are batched: as long as they fit into 1400 bytes none is sent before a tick. */
  lemma {:induction false} Batched(inputs: seq<Input>, metrics: seq<string>)
    requires Possible(inputs) && After(inputs).mode.Collecting?
    requires |After(inputs).buf| + |Concat(metrics)| <= 1400
    ensures var t := inputs + Queue(metrics);
      Possible(t) && After(t) == After(inputs).(buf := After(inputs).buf + Concat(metrics))
  {
    hide Possible, After;
    if metrics == [] {
      assert inputs + [] == inputs && After(inputs).buf + "" == After(inputs).buf;
    } else {
      var n := |metrics| - 1;
      var front, m := metrics[..n], metrics[n];
      assert |Concat(metrics)| == |Concat(front)| + |m|;
      Batched(inputs, front);
      var t := inputs + Queue(front);
      PossibleNext(t, Dequeue(m, true));
      assert Queue(metrics) == Queue(front) + [Dequeue(m, true)];
      assert inputs + Queue(metrics) == t + [Dequeue(m, true)];
      assert After(inputs).buf + Concat(front) + m == After(inputs).buf + Concat(metrics);
    }
  }

  /** The metrics one after the other. */
  function Queue(metrics: seq<string>): seq<Input> {
    seq(|metrics|, i requires 0 <= i < |metrics| => Dequeue(metrics[i], true))
  }

  // ----- The loop goes on -----

  /** The loop ends exactly when the queue is closed, whatever fails. */
  lemma {:induction false} StopsExactly(inputs: seq<Input>)
    requires Possible(inputs)
    ensures After(inputs).mode.Stopped? <==> Closed in inputs
  {
    if inputs != [] {
      var n := |inputs| - 1;
      StopsExactly(inputs[..n]);
      assert inputs == inputs[..n] + [inputs[n]];
    }
  }

  /** The metrics that the queue holds are never left there: a failed dial or write is followed by a
      wait in which they are taken and dropped, and by another dial. */
  lemma FailureWaits(s: State, i: Input)
    requires Enabled(s, i)
    ensures i == Dial(false) ==> Step(s, i).mode.Waiting?
    ensures s.packets < Step(s, i).packets && !Step(s, i).packets[|s.packets|].ok ==> Step(s, i).mode.Waiting?
    ensures s.mode.Waiting? ==> forall m, ok :: Enabled(s, Dequeue(m, ok)) && Step(s, Dequeue(m, ok)) == s
  {}

  /** From every wait the loop connects again, with an empty buffer; the packets before are kept. */
  lemma Reconnects(inputs: seq<Input>)
    requires Possible(inputs) && After(inputs).mode.Waiting?
    ensures Possible(inputs + [WaitOver, Dial(true)])
    ensures After(inputs + [WaitOver, Dial(true)]) == State(Collecting, "", After(inputs).packets)
  {
    hide Possible, After;
    PossibleNext(inputs, WaitOver);
    PossibleNext(inputs + [WaitOver], Dial(true));
    assert inputs + [WaitOver] + [Dial(true)] == inputs + [WaitOver, Dial(true)];
  }

  /** Then everything that is dequeued is delivered by the next tick. */
  lemma DeliversAfterFailure(inputs: seq<Input>, more: seq<Input>)
    requires Possible(inputs) && After(inputs).mode.Waiting? && Smooth(more)
    ensures var all := inputs + [WaitOver, Dial(true)] + more + [Tick(true)];
      && Possible(all) && After(all).mode.Collecting? && After(all).buf == ""
      && Data(After(all).packets) == Data(After(inputs).packets) + Concat(Dequeued(more))
  {
    hide Data, Concat, Dequeued, After, Possible;
    Reconnects(inputs);
    TickSendsAll(inputs + [WaitOver, Dial(true)], more);
    var sent := Data(After(inputs).packets);
    assert sent + "" == sent;
  }

  // ----- The loop -----

  /** One connection: metrics are packed until a write fails or the queue is closed. */
  method Collect(inputs: seq<Input>, start: nat, sent: seq<Packet>)
    returns (n: nat, packets: seq<Packet>, buf: string, mode: Mode)
    requires start <= |inputs| && Possible(inputs)
    requires Possible(inputs[..start]) && After(inputs[..start]) == State(Collecting, "", sent)
    ensures start <= n <= |inputs| && Possible(inputs[..n])
    ensures After(inputs[..n]) == State(mode, buf, packets)
    ensures mode.Waiting? || mode.Stopped? || n == |inputs|
    ensures !mode.Connecting? && (mode.Waiting? ==> buf == "")
  {
    hide Possible, After;
    n, packets, buf, mode := start, sent, "", Collecting;
    while n < |inputs| && mode.Collecting?
      invariant start <= n <= |inputs| && Possible(inputs[..n])
      invariant After(inputs[..n]) == State(mode, buf, packets)
      invariant mode.Collecting? || mode.Stopped? || (mode.Waiting? && buf == "")
      decreases |inputs| - n
    {
      PossiblePrefix(inputs, n + 1);
      AfterNext(inputs, n);
      match inputs[n] {
        case Closed =>
          mode := Stopped;
        case Dequeue(metric, ok) =>
          if |metric| + |buf| > MAX_LEN {
            packets, buf := packets + [Packet(buf, ok)], "";
            if !ok {
              mode := Waiting;
            }
          }
          if mode.Collecting? {
            buf := buf + metric;
          }
        case Tick(ok) =>
          if buf != "" {
            packets, buf := packets + [Packet(buf, ok)], "";
            if !ok {
              mode := Waiting;
            }
          }
      }
      n := n + 1;
    }
  }

  /** Between two connections the queue is emptied. */
  method Wait(inputs: seq<Input>, start: nat, packets: seq<Packet>) returns (n: nat, mode: Mode)
    requires start <= |inputs| && Possible(inputs)
    requires Possible(inputs[..start]) && After(inputs[..start]) == State(Waiting, "", packets)
    ensures start <= n <= |inputs| && Possible(inputs[..n])
    ensures After(inputs[..n]) == State(mode, "", packets)
    ensures mode.Connecting? || mode.Stopped? || n == |inputs|
  {
    hide Possible, After;
    n, mode := start, Waiting;
    while n < |inputs| && mode.Waiting?
      invariant start <= n <= |inputs| && Possible(inputs[..n])
      invariant After(inputs[..n]) == State(mode, "", packets)
      invariant mode.Waiting? || mode.Connecting? || mode.Stopped?
      decreases |inputs| - n
    {
      PossiblePrefix(inputs, n + 1);
      AfterNext(inputs, n);
      match inputs[n] {
        case Closed => mode := Stopped;
        case WaitOver => mode := Connecting;
        case Dequeue(_, _) =>
      }
      n := n + 1;
    }
  }

  /** flushMetrics, as far as the inputs take it. */
  method FlushMetrics(inputs: seq<Input>) returns (packets: seq<Packet>, buf: string, mode: Mode)
    requires Possible(inputs)
    ensures State(mode, buf, packets) == After(inputs)
  {
    hide Possible, After;
    var n := 0;
    packets, buf, mode := [], "", Connecting;
    Started(inputs);
    while n < |inputs| && !mode.Stopped?
      invariant n <= |inputs| && Possible(inputs[..n])
      invariant After(inputs[..n]) == State(mode, buf, packets)
      invariant mode.Connecting? || mode.Stopped? || n == |inputs|
      invariant mode.Connecting? ==> buf == ""
      decreases |inputs| - n
    {
      PossiblePrefix(inputs, n + 1);
      AfterNext(inputs, n);
      mode := if inputs[n].ok then Collecting else Waiting;
      n := n + 1;
      if mode.Collecting? {
        n, packets, buf, mode := Collect(inputs, n, packets);
      }
      if mode.Waiting? {
        n, mode := Wait(inputs, n, packets);
      }
    }
    if n < |inputs| {
      PossiblePrefix(inputs, n + 1);
      AfterNext(inputs, n);
    }
    assert inputs[..|inputs|] == inputs;
  }

  lemma Started(inputs: seq<Input>)
    ensures Possible(inputs[..0]) && After(inputs[..0]) == START
  {}
}
