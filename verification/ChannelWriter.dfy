/** The background writer (xlog/logrotate/channelwriter.go): callers of Write, the listener, the
    ticker and callers of Stop as one state machine, whose runs are all interleavings. */
module ChannelWriter {
  type Bytes = seq<nat>
  type Buffer = nat
  type Call = nat

  /** The bound of the write channel, whether dest has a Flush method, and whether it is ticked. */
  datatype Config = Config(depth: nat, canFlush: bool, ticks: bool)

  /** A call of Write before its send is done: with a buffer, then with the bytes copied to it. */
  datatype Write = Got(buffer: Buffer, data: Bytes) | Copied(buffer: Buffer, data: Bytes)

  datatype Listener =
    | Selecting
    | Received(buffer: Buffer)
    | Written(buffer: Buffer)
    | Draining
    | DrainReceived(buffer: Buffer)
    | Drained
    | Exiting
    | Done

  /** The call of Stop that wins the compare-and-swap. */
  datatype Stopper = NotCalled | Sending | Waiting | Returned

  datatype Event = Wrote(data: Bytes) | Flushed

  /** mem is what the buffers hold, accepted the data of the completed sends in their order. */
  datatype State = State(
    mem: map<Buffer, Bytes>,
    pool: set<Buffer>,
    writes: map<Call, Write>,
    queue: seq<Buffer>,
    accepted: seq<Bytes>,
    listener: Listener,
    stopper: Stopper,
    running: bool,
    dest: seq<Event>)

  const INIT := State(map[], {}, map[], [], [], Selecting, NotCalled, true, [])

  datatype Step =
    | Get(call: Call, data: Bytes, buffer: Buffer)
    | Copy(call: Call)
    | Send(call: Call)
    | HandOver(call: Call)
    | Forget(buffer: Buffer)
    | Tick
    | Receive
    | WriteOut
    | Put
    | StopWins
    | StopLoses
    | StopMeets
    | FindEmpty
    | LastFlush
    | StoppedMeets

  /** The pool hands out a pooled buffer or a new one; it may also forget a pooled one, which is
      what happens to a pooled buffer that is too small for the append. */
  predicate Enabled(c: Config, s: State, step: Step) {
    match step
    case Get(w, _, b) => w !in s.writes && (b in s.pool || b !in s.mem)
    case Copy(w) => w in s.writes && s.writes[w].Got?
    case Send(w) => w in s.writes && s.writes[w].Copied? && |s.queue| < c.depth
    case HandOver(w) => w in s.writes && s.writes[w].Copied? && c.depth == 0
                        && (s.listener.Selecting? || s.listener.Draining?)
    case Forget(b) => b in s.pool
    case Tick => s.listener.Selecting? && c.canFlush && c.ticks
    case Receive => (s.listener.Selecting? || s.listener.Draining?) && s.queue != []
    case WriteOut => s.listener.Received? || s.listener.DrainReceived?
    case Put => s.listener.Written?
    case StopWins => s.running
    case StopLoses => !s.running
    case StopMeets => s.listener.Selecting? && s.stopper.Sending?
    case FindEmpty => s.listener.Draining? && s.queue == []
    case LastFlush => s.listener.Drained?
    case StoppedMeets => s.listener.Exiting? && s.stopper.Waiting?
  }

  function Take(l: Listener, b: Buffer): Listener {
    if l.Draining? then DrainReceived(b) else Received(b)
  }

  function BytesOf(mem: map<Buffer, Bytes>, b: Buffer): Bytes {
    if b in mem then mem[b] else []
  }

  function Do(c: Config, s: State, step: Step): State
    requires Enabled(c, s, step)
  {
    match step
    case Get(w, d, b) => s.(pool := s.pool - {b}, writes := s.writes[w := Got(b, d)],
                            mem := s.mem[b := BytesOf(s.mem, b)])
    case Copy(w) => var p := s.writes[w];
                    s.(mem := s.mem[p.buffer := p.data], writes := s.writes[w := Copied(p.buffer, p.data)])
    case Send(w) => s.(writes := s.writes - {w}, queue := s.queue + [s.writes[w].buffer],
                       accepted := s.accepted + [s.writes[w].data])
    case HandOver(w) => s.(writes := s.writes - {w}, listener := Take(s.listener, s.writes[w].buffer),
                           accepted := s.accepted + [s.writes[w].data])
    case Forget(b) => s.(pool := s.pool - {b})
    case Tick => s.(dest := s.dest + [Flushed])
    case Receive => s.(queue := s.queue[1..], listener := Take(s.listener, s.queue[0]))
    case WriteOut => s.(dest := s.dest + [Wrote(BytesOf(s.mem, s.listener.buffer))],
                        listener := if s.listener.Received? then Written(s.listener.buffer) else Draining)
    case Put => s.(pool := s.pool + {s.listener.buffer}, listener := Selecting)
    case StopWins => s.(running := false, stopper := Sending)
    case StopLoses => s
    case StopMeets => s.(stopper := Waiting, listener := Draining)
    case FindEmpty => s.(listener := Drained)
    case LastFlush => s.(dest := s.dest + (if c.canFlush then [Flushed] else []), listener := Exiting)
    case StoppedMeets => s.(stopper := Returned, listener := Done)
  }

  predicate CanRun(c: Config, s: State, steps: seq<Step>)
    decreases steps
  {
    steps == [] || (Enabled(c, s, steps[0]) && CanRun(c, Do(c, s, steps[0]), steps[1..]))
  }

  function After(c: Config, s: State, steps: seq<Step>): State
    requires CanRun(c, s, steps)
    decreases steps
  {
    if steps == [] then s else After(c, Do(c, s, steps[0]), steps[1..])
  }

  /** The steps lead from s to t. */
  predicate Run(c: Config, s: State, steps: seq<Step>, t: State) {
    CanRun(c, s, steps) && After(c, s, steps) == t
  }

  /** The data of the calls of dest.Write, in their order. */
  function Output(dest: seq<Event>): seq<Bytes> {
    if dest == [] then []
    else
      var n := |dest| - 1;
      Output(dest[..n]) + (if dest[n].Wrote? then [dest[n].data] else [])
  }

  lemma OutputStep(dest: seq<Event>, e: Event)
    ensures Output(dest + [e]) == Output(dest) + (if e.Wrote? then [e.data] else [])
  {}

  // ----- Every buffer has one owner -----

  predicate Holds(l: Listener, b: Buffer) {
    (l.Received? || l.Written? || l.DrainReceived?) && l.buffer == b
  }

  /** No buffer is in two places: the pool, the channel, a call of Write, the listener's hand. */
  ghost predicate OneOwner(s: State) {
    && (forall b | b in s.pool :: b in s.mem && !Holds(s.listener, b))
    && (forall b | b in s.queue :: b in s.mem && b !in s.pool && !Holds(s.listener, b))
    && (forall i, j | 0 <= i < j < |s.queue| :: s.queue[i] != s.queue[j])
    && (forall w | w in s.writes :: Apart(s, s.writes[w].buffer))
    && (forall v, w | v in s.writes && w in s.writes && v != w :: s.writes[v].buffer != s.writes[w].buffer)
    && (forall b | Holds(s.listener, b) :: b in s.mem)
  }

  ghost predicate Apart(s: State, b: Buffer) {
    b in s.mem && b !in s.pool && b !in s.queue && !Holds(s.listener, b)
  }

  /** A copied buffer holds the data of its call. */
  ghost predicate CopiesKept(s: State) {
    forall w | w in s.writes && s.writes[w].Copied? :: BytesOf(s.mem, s.writes[w].buffer) == s.writes[w].data
  }

  function InHand(l: Listener): nat {
    if l.Received? || l.DrainReceived? then 1 else 0
  }

  /** What was accepted is the output, then the buffer in hand, then the channel. */
  ghost predicate Ledger(s: State) {
    var n := |Output(s.dest)|;
    && n + InHand(s.listener) + |s.queue| == |s.accepted|
    && Output(s.dest) == s.accepted[..n]
    && (InHand(s.listener) == 1 ==> BytesOf(s.mem, s.listener.buffer) == s.accepted[n])
    && (forall i | 0 <= i < |s.queue| ::
          BytesOf(s.mem, s.queue[i]) == s.accepted[n + InHand(s.listener) + i])
  }

  predicate InDrain(l: Listener) {
    l.Draining? || l.DrainReceived? || Finished(l)
  }

  /** The listener has found the channel empty. */
  predicate Finished(l: Listener) {
    l.Drained? || l.Exiting? || l.Done?
  }

  ghost predicate StopProtocol(c: Config, s: State) {
    && (s.running <==> s.stopper.NotCalled?)
    && (s.stopper.Waiting? || s.stopper.Returned? <==> InDrain(s.listener))
    && (s.stopper.Returned? <==> s.listener.Done?)
    && ((s.listener.Exiting? || s.listener.Done?) && c.canFlush ==>
          s.dest != [] && s.dest[|s.dest| - 1] == Flushed)
  }

  ghost predicate Inv(c: Config, s: State) {
    OneOwner(s) && CopiesKept(s) && Ledger(s) && StopProtocol(c, s) && |s.queue| <= c.depth
  }

  lemma OneOwnerStep(c: Config, s: State, step: Step)
    requires OneOwner(s) && Enabled(c, s, step)
    ensures OneOwner(Do(c, s, step))
  {
    match step
    case Get(_, _, _) => GetOwner(c, s, step);
    case Send(_) => SendOwner(c, s, step);
    case HandOver(_) => HandOverOwner(c, s, step);
    case Receive => ReceiveOwner(c, s, step);
    case Copy(_) => CopyOwner(c, s, step);
    case Put => PutOwner(c, s, step);
    case _ => SamePlaces(c, s, step);
  }

  lemma CopyOwner(c: Config, s: State, step: Step)
    requires OneOwner(s) && Enabled(c, s, step) && (step.Copy? || step.Forget?)
    ensures OneOwner(Do(c, s, step))
  {}

  lemma PutOwner(c: Config, s: State, step: Step)
    requires OneOwner(s) && Enabled(c, s, step) && step.Put?
    ensures OneOwner(Do(c, s, step))
  {}

  /** The other steps of the listener and those of Stop move no buffer. */
  lemma SamePlaces(c: Config, s: State, step: Step)
    requires OneOwner(s) && Enabled(c, s, step)
    requires !step.Get? && !step.Copy? && !step.Send? && !step.HandOver? && !step.Receive? && !step.Put?
    ensures OneOwner(Do(c, s, step))
  {}

  lemma GetOwner(c: Config, s: State, step: Step)
    requires OneOwner(s) && Enabled(c, s, step) && step.Get?
    ensures OneOwner(Do(c, s, step))
  {
  }

  lemma SendOwner(c: Config, s: State, step: Step)
    requires OneOwner(s) && Enabled(c, s, step) && step.Send?
    ensures OneOwner(Do(c, s, step))
  {
  }

  lemma HandOverOwner(c: Config, s: State, step: Step)
    requires OneOwner(s) && Enabled(c, s, step) && step.HandOver?
    ensures OneOwner(Do(c, s, step))
  {
  }

  lemma ReceiveOwner(c: Config, s: State, step: Step)
    requires OneOwner(s) && Enabled(c, s, step) && step.Receive?
    ensures OneOwner(Do(c, s, step))
  {
  }

  lemma CopiesStep(c: Config, s: State, step: Step)
    requires OneOwner(s) && CopiesKept(s) && Enabled(c, s, step)
    ensures CopiesKept(Do(c, s, step))
  {}

  lemma BufferLedger(c: Config, s: State, step: Step)
    requires OneOwner(s) && Ledger(s) && Enabled(c, s, step) && (step.Get? || step.Copy? || step.Forget?)
    ensures Ledger(Do(c, s, step))
  {
    hide Output;
  }

  lemma SendLedger(c: Config, s: State, step: Step)
    requires CopiesKept(s) && Ledger(s) && |s.queue| <= c.depth && Enabled(c, s, step)
    requires step.Send? || step.HandOver?
    ensures Ledger(Do(c, s, step))
  {
    hide Output;
  }

  lemma OutputLedger(c: Config, s: State, step: Step)
    requires Ledger(s) && Enabled(c, s, step)
    requires step.Tick? || step.WriteOut? || step.LastFlush?
    ensures Ledger(Do(c, s, step))
  {
    hide Output;
    var t := Do(c, s, step);
    OutputStep(s.dest, Flushed);
    assert s.dest + [] == s.dest;
    if step.WriteOut? {
      OutputStep(s.dest, t.dest[|s.dest|]);
    }
  }

  lemma ReceiveLedger(c: Config, s: State, step: Step)
    requires Ledger(s) && Enabled(c, s, step) && step.Receive?
    ensures Ledger(Do(c, s, step))
  {
    hide Output;
  }

  lemma LedgerStep(c: Config, s: State, step: Step)
    requires OneOwner(s) && CopiesKept(s) && Ledger(s) && |s.queue| <= c.depth && Enabled(c, s, step)
    ensures Ledger(Do(c, s, step))
  {
    hide Output, OneOwner, CopiesKept;
    if step.Get? || step.Copy? || step.Forget? {
      BufferLedger(c, s, step);
    } else if step.Send? || step.HandOver? {
      SendLedger(c, s, step);
    } else if step.Tick? || step.WriteOut? || step.LastFlush? {
      OutputLedger(c, s, step);
    } else if step.Receive? {
      ReceiveLedger(c, s, step);
    }
  }

  lemma InvStep(c: Config, s: State, step: Step)
    requires Inv(c, s) && Enabled(c, s, step)
    ensures Inv(c, Do(c, s, step))
  {
    hide OneOwner, CopiesKept, Ledger;
    OneOwnerStep(c, s, step);
    CopiesStep(c, s, step);
    LedgerStep(c, s, step);
  }

  // ----- Whole runs -----

  lemma {:induction false} InvRun(c: Config, s: State, steps: seq<Step>, t: State)
    requires Inv(c, s) && Run(c, s, steps, t)
    ensures Inv(c, t)
    decreases steps
  {
    if steps != [] {
      InvStep(c, s, steps[0]);
      InvRun(c, Do(c, s, steps[0]), steps[1..], t);
    }
  }

  /** t can be reached from a new writer. */
  ghost predicate Reachable(c: Config, t: State) {
    exists steps :: Run(c, INIT, steps, t)
  }

  lemma ReachableInv(c: Config, t: State)
    requires Reachable(c, t)
    ensures Inv(c, t)
  {
    hide Run, Enabled;
    var steps :| Run(c, INIT, steps, t);
    InvRun(c, INIT, steps, t);
  }

  /** Under every interleaving the output is a prefix of what was accepted, each write once and in
      the order of the sends; what is missing is in the listener's hand or in the channel. */
  lemma FifoExactlyOnce(c: Config, t: State)
    requires Reachable(c, t)
    ensures Output(t.dest) <= t.accepted
    ensures |t.accepted| == |Output(t.dest)| + InHand(t.listener) + |t.queue|
    ensures |t.queue| <= c.depth
  {
    ReachableInv(c, t);
  }

  /** No buffer that the pool may hand out is queued, being written, or held by a Write. */
  lemma NoAliasing(c: Config, t: State, b: Buffer)
    requires Reachable(c, t) && b in t.pool
    ensures b !in t.queue && !Holds(t.listener, b)
    ensures forall w | w in t.writes :: t.writes[w].buffer != b
  {
    ReachableInv(c, t);
  }

  /** accepted grows, and a stopped writer stays stopped. */
  lemma {:induction false} Grows(c: Config, s: State, steps: seq<Step>, t: State)
    requires Run(c, s, steps, t)
    ensures s.accepted <= t.accepted
    ensures !s.running ==> !t.running
    decreases steps
  {
    if steps != [] {
      Grows(c, Do(c, s, steps[0]), steps[1..], t);
    }
  }

  /** When the channel was found empty, the output had at least n writes. */
  ghost predicate AtLeast(s: State, n: nat) {
    n <= |s.accepted| && (Finished(s.listener) ==> n <= |Output(s.dest)|)
  }

  lemma OutputGrows(c: Config, s: State, step: Step)
    requires Enabled(c, s, step)
    ensures Output(s.dest) <= Output(Do(c, s, step).dest)
  {
    hide Output;
    OutputStep(s.dest, Flushed);
    if step.WriteOut? {
      OutputStep(s.dest, Wrote(BytesOf(s.mem, s.listener.buffer)));
    }
    assert s.dest + [] == s.dest;
  }

  lemma FinishedStep(c: Config, s: State, step: Step)
    requires Enabled(c, s, step)
    ensures Finished(Do(c, s, step).listener) ==> Finished(s.listener) || step.FindEmpty?
    ensures |s.accepted| <= |Do(c, s, step).accepted|
  {}

  lemma FoundEmptyHasAll(c: Config, s: State)
    requires Ledger(s) && Enabled(c, s, FindEmpty)
    ensures Output(s.dest) == s.accepted
  {
    hide Output;
  }

  lemma AtLeastStep(c: Config, s: State, step: Step, n: nat)
    requires Ledger(s) && Enabled(c, s, step) && AtLeast(s, n)
    ensures AtLeast(Do(c, s, step), n)
  {
    hide Ledger, Output, Enabled, Do, Finished;
    OutputGrows(c, s, step);
    FinishedStep(c, s, step);
    if step.FindEmpty? {
      FoundEmptyHasAll(c, s);
    }
  }

  lemma {:induction false} AtLeastRun(c: Config, s: State, steps: seq<Step>, t: State, n: nat)
    requires Inv(c, s) && Run(c, s, steps, t) && AtLeast(s, n)
    ensures Inv(c, t) && AtLeast(t, n)
    decreases steps
  {
    hide AtLeast, OneOwner, CopiesKept, Ledger, StopProtocol;
    if steps != [] {
      InvStep(c, s, steps[0]);
      AtLeastStep(c, s, steps[0], n);
      AtLeastRun(c, Do(c, s, steps[0]), steps[1..], t, n);
    }
  }

  /** When the Stop that won returns, everything accepted before it was called has been written,
      and flushed after that if dest can flush. */
  lemma StopDrains(c: Config, s: State, steps: seq<Step>, t: State)
    requires Reachable(c, s) && s.running
    requires Run(c, Do(c, s, StopWins), steps, t) && t.stopper.Returned?
    ensures s.accepted <= Output(t.dest)
    ensures c.canFlush ==> t.dest != [] && t.dest[|t.dest| - 1] == Flushed
  {
    hide Run, OneOwner, CopiesKept;
    ReachableInv(c, s);
    var s' := Do(c, s, StopWins);
    InvStep(c, s, StopWins);
    Grows(c, s', steps, t);
    AtLeastRun(c, s', steps, t, |s.accepted|);
    assert s.accepted <= t.accepted && Output(t.dest) <= t.accepted;
    assert s.accepted == t.accepted[..|s.accepted|];
  }

  lemma {:induction false} OutputFixed(c: Config, s: State, steps: seq<Step>, t: State)
    requires Finished(s.listener) && Run(c, s, steps, t)
    ensures Output(t.dest) == Output(s.dest)
    decreases steps
  {
    if steps != [] {
      var s' := Do(c, s, steps[0]);
      OutputStep(s.dest, Flushed);
      assert s.dest + [] == s.dest;
      OutputFixed(c, s', steps[1..], t);
    }
  }

  /** A write reaches dest exactly when it was accepted before the draining listener found the
      channel empty: in every later state the output is what was accepted by then. */
  lemma WrittenExactly(c: Config, s: State, steps: seq<Step>, t: State)
    requires Reachable(c, s) && Enabled(c, s, FindEmpty)
    requires Run(c, Do(c, s, FindEmpty), steps, t)
    ensures Output(t.dest) == s.accepted && s.accepted <= t.accepted
    ensures |t.accepted| == |s.accepted| + |t.queue|
  {
    hide Run, OneOwner, CopiesKept;
    ReachableInv(c, s);
    var s' := Do(c, s, FindEmpty);
    InvStep(c, s, FindEmpty);
    OutputFixed(c, s', steps, t);
    Grows(c, s', steps, t);
    FinishedRun(c, s', steps, t);
    InvRun(c, s', steps, t);
  }

  lemma {:induction false} FinishedRun(c: Config, s: State, steps: seq<Step>, t: State)
    requires Finished(s.listener) && Run(c, s, steps, t)
    ensures Finished(t.listener)
    decreases steps
  {
    if steps != [] {
      FinishedRun(c, Do(c, s, steps[0]), steps[1..], t);
    }
  }

  // ----- Stop returns -----

  /** A step of the listener or of the Stop that won, not a tick. */
  predicate StopStep(step: Step) {
    step.Receive? || step.WriteOut? || step.Put? || step.StopMeets? || step.FindEmpty?
    || step.LastFlush? || step.StoppedMeets?
  }

  /** How many steps of its own Stop still needs when nothing more is sent. */
  function StepsLeft(s: State): nat {
    2 * |s.queue| + match s.listener
                    case Received(_) => 6
                    case Written(_) => 5
                    case Selecting => 4
                    case DrainReceived(_) => 4
                    case Draining => 3
                    case Drained => 2
                    case Exiting => 1
                    case Done => 0
  }

  function NextStop(s: State): Step {
    match s.listener
    case Received(_) => WriteOut
    case Written(_) => Put
    case Selecting => StopMeets
    case DrainReceived(_) => WriteOut
    case Draining => if s.queue == [] then FindEmpty else Receive
    case Drained => LastFlush
    case _ => StoppedMeets
  }

  lemma NextStopProgress(c: Config, s: State)
    requires Inv(c, s) && (s.stopper.Sending? || s.stopper.Waiting?)
    ensures StopStep(NextStop(s)) && Enabled(c, s, NextStop(s))
    ensures StepsLeft(Do(c, s, NextStop(s))) < StepsLeft(s) && !Do(c, s, NextStop(s)).stopper.NotCalled?
  {
    hide OneOwner, CopiesKept, Ledger;
  }

  /** Once Stop has won it is never stuck: from every reachable state the listener alone can
      finish, in no more steps than the channel and its own state account for. */
  lemma {:induction false} StopReturns(c: Config, s: State) returns (steps: seq<Step>, t: State)
    requires Inv(c, s) && !s.stopper.NotCalled?
    ensures Run(c, s, steps, t) && t.stopper.Returned?
    ensures (forall step | step in steps :: StopStep(step)) && |steps| <= StepsLeft(s)
    decreases StepsLeft(s)
  {
    hide Inv, Enabled;
    if s.stopper.Returned? {
      steps, t := [], s;
    } else {
      var step := NextStop(s);
      NextStopProgress(c, s);
      InvStep(c, s, step);
      steps, t := StopReturns(c, Do(c, s, step));
      steps := [step] + steps;
    }
  }

  // ----- What Stop does not promise -----

  lemma Cons(c: Config, s: State, steps: seq<Step>)
    requires steps != [] && Enabled(c, s, steps[0]) && CanRun(c, Do(c, s, steps[0]), steps[1..])
    ensures CanRun(c, s, steps) && After(c, s, steps) == After(c, Do(c, s, steps[0]), steps[1..])
  {}

  lemma Nil(c: Config, s: State)
    ensures CanRun(c, s, []) && After(c, s, []) == s
  {}

  /** A Write whose send comes after the empty check returns, and its data is never written. */
  lemma WriteAfterDrainIsLost(data: Bytes)
    ensures Lost(Config(1, true, false), data,
                 [Get(0, data, 0), Copy(0), StopWins, StopMeets, FindEmpty, Send(0), LastFlush, StoppedMeets])
  {
    hide CanRun, After, Output;
    var c := Config(1, true, false);
    var s1 := Do(c, INIT, Get(0, data, 0));
    assert Do(c, s1, Copy(0)) == AtSend(data);
    LostAfter(data);
    Cons(c, s1, [Copy(0), StopWins, StopMeets, FindEmpty, Send(0), LastFlush, StoppedMeets]);
    Cons(c, INIT, [Get(0, data, 0), Copy(0), StopWins, StopMeets, FindEmpty, Send(0), LastFlush, StoppedMeets]);
    NoOutput();
  }

  function AtSend(data: Bytes): State {
    INIT.(mem := map[0 := data], writes := map[0 := Copied(0, data)])
  }

  function FoundEmpty(data: Bytes): State {
    AtSend(data).(running := false, stopper := Waiting, listener := Drained)
  }

  lemma LostAfter(data: Bytes)
    ensures var c, steps := Config(1, true, false), [StopWins, StopMeets, FindEmpty, Send(0), LastFlush, StoppedMeets];
            && CanRun(c, AtSend(data), steps)
            && After(c, AtSend(data), steps)
               == State(map[0 := data], {}, map[], [0], [data], Done, Returned, false, [Flushed])
  {
    hide CanRun, After;
    var c := Config(1, true, false);
    var s1 := Do(c, AtSend(data), StopWins);
    var s2 := Do(c, s1, StopMeets);
    assert Do(c, s2, FindEmpty) == FoundEmpty(data);
    SentLate(data);
    Cons(c, s2, [FindEmpty, Send(0), LastFlush, StoppedMeets]);
    Cons(c, s1, [StopMeets, FindEmpty, Send(0), LastFlush, StoppedMeets]);
    Cons(c, AtSend(data), [StopWins, StopMeets, FindEmpty, Send(0), LastFlush, StoppedMeets]);
  }

  lemma SentLate(data: Bytes)
    ensures var c, steps := Config(1, true, false), [Send(0), LastFlush, StoppedMeets];
            && CanRun(c, FoundEmpty(data), steps)
            && After(c, FoundEmpty(data), steps)
               == State(map[0 := data], {}, map[], [0], [data], Done, Returned, false, [Flushed])
  {
    hide CanRun, After;
    var c := Config(1, true, false);
    var s4 := Do(c, FoundEmpty(data), Send(0));
    var s5 := Do(c, s4, LastFlush);
    Nil(c, Do(c, s5, StoppedMeets));
    Cons(c, s5, [StoppedMeets]);
    Cons(c, s4, [LastFlush, StoppedMeets]);
    Cons(c, FoundEmpty(data), [Send(0), LastFlush, StoppedMeets]);
  }

  lemma NoOutput()
    ensures Output([Flushed]) == []
  {}

  /** The steps end with Stop returned, no Write open, and data accepted but not written. */
  ghost predicate Lost(c: Config, data: Bytes, steps: seq<Step>) {
    && CanRun(c, INIT, steps)
    && var t := After(c, INIT, steps);
       t.stopper.Returned? && t.accepted == [data] && t.writes == map[] && Output(t.dest) == []
  }

  /** A call of Stop in state s has returned in state t: the winner after its steps, any other call
      at once. */
  predicate StopDone(c: Config, s: State, steps: seq<Step>, t: State) {
    if s.running then Run(c, Do(c, s, StopWins), steps, t) && t.stopper.Returned?
    else steps == [] && t == Do(c, s, StopLoses)
  }

  /** Everything written is flushed, where dest can flush. */
  predicate AllFlushed(c: Config, dest: seq<Event>) {
    c.canFlush && dest != [] ==> dest[|dest| - 1] == Flushed
  }

  /** Whenever it returns, what was accepted before the call has been written, and flushed. */
  ghost predicate AlwaysDrained(c: Config, s: State) {
    forall steps, t | StopDone(c, s, steps, t) :: s.accepted <= Output(t.dest) && AllFlushed(c, t.dest)
  }

  /** "Stop() will block until the channel is drained and the output flushed" holds of a call
      exactly if the writer was still running, or if the channel was empty, no buffer was in the
      hand of the listener, and nothing had been written since the last flush. */
  lemma StopWaitsExactly(c: Config, s: State)
    requires Reachable(c, s)
    ensures AlwaysDrained(c, s)
            <==> s.running || (s.queue == [] && InHand(s.listener) == 0 && AllFlushed(c, s.dest))
  {
    hide Run, Output, Inv;
    FifoExactlyOnce(c, s);
    if s.running {
      forall steps, t | StopDone(c, s, steps, t) ensures s.accepted <= Output(t.dest) && AllFlushed(c, t.dest) {
        StopDrains(c, s, steps, t);
      }
    } else {
      assert StopDone(c, s, [], s);
    }
  }

  /** A second Stop returns at once, while accepted data is still unwritten. */
  lemma LosingStopDoesNotWait(data: Bytes)
    ensures var c, steps := Config(1, true, false), [Get(0, data, 0), Copy(0), Send(0), StopWins, StopLoses];
            && CanRun(c, INIT, steps)
            && After(c, INIT, steps).accepted == [data] && After(c, INIT, steps).dest == []
  {
    hide CanRun, After;
    var c := Config(1, true, false);
    var s2 := Do(c, Do(c, INIT, Get(0, data, 0)), Copy(0));
    var s3 := Do(c, s2, Send(0));
    Nil(c, Do(c, Do(c, s3, StopWins), StopLoses));
    Cons(c, Do(c, s3, StopWins), [StopLoses]);
    Cons(c, s3, [StopWins, StopLoses]);
    Cons(c, s2, [Send(0), StopWins, StopLoses]);
    Cons(c, Do(c, INIT, Get(0, data, 0)), [Copy(0), Send(0), StopWins, StopLoses]);
    Cons(c, INIT, [Get(0, data, 0), Copy(0), Send(0), StopWins, StopLoses]);
  }

  /** A second Stop returns at once, after the last write and before any flush. */
  lemma LosingStopDoesNotFlush(data: Bytes)
    ensures var c, steps := Config(1, true, false), [Get(0, data, 0), Copy(0), Send(0), StopWins, Receive, WriteOut, StopLoses];
            && CanRun(c, INIT, steps)
            && After(c, INIT, steps).accepted == [data] && After(c, INIT, steps).dest == [Wrote(data)]
  {
    hide CanRun, After;
    var c := Config(1, true, false);
    var s1 := Do(c, INIT, Get(0, data, 0));
    assert Do(c, s1, Copy(0)) == AtSend(data);
    UnflushedAfter(data);
    Cons(c, s1, [Copy(0), Send(0), StopWins, Receive, WriteOut, StopLoses]);
    Cons(c, INIT, [Get(0, data, 0), Copy(0), Send(0), StopWins, Receive, WriteOut, StopLoses]);
  }

  /** Stop is called, the buffer of the one Write is still in the channel. */
  function Queued(data: Bytes): State {
    State(map[0 := data], {}, map[], [0], [data], Selecting, Sending, false, [])
  }

  lemma UnflushedAfter(data: Bytes)
    ensures var c, steps := Config(1, true, false), [Send(0), StopWins, Receive, WriteOut, StopLoses];
            && CanRun(c, AtSend(data), steps)
            && After(c, AtSend(data), steps).accepted == [data] && After(c, AtSend(data), steps).dest == [Wrote(data)]
  {
    hide CanRun, After;
    var c := Config(1, true, false);
    var s3 := Do(c, AtSend(data), Send(0));
    assert Do(c, s3, StopWins) == Queued(data);
    QueuedUnflushed(data);
    Cons(c, s3, [StopWins, Receive, WriteOut, StopLoses]);
    Cons(c, AtSend(data), [Send(0), StopWins, Receive, WriteOut, StopLoses]);
  }

  lemma QueuedUnflushed(data: Bytes)
    ensures var c, steps := Config(1, true, false), [Receive, WriteOut, StopLoses];
            && CanRun(c, Queued(data), steps)
            && After(c, Queued(data), steps).accepted == [data] && After(c, Queued(data), steps).dest == [Wrote(data)]
  {
    hide CanRun, After;
    var c := Config(1, true, false);
    var s5 := Do(c, Queued(data), Receive);
    var s6 := Do(c, s5, WriteOut);
    Nil(c, s6);
    Cons(c, s6, [StopLoses]);
    Cons(c, s5, [WriteOut, StopLoses]);
    Cons(c, Queued(data), [Receive, WriteOut, StopLoses]);
  }

  // ----- The listener writes -----

  /** A step of the listener that takes a buffer on. */
  predicate WriteStep(step: Step) {
    step.Receive? || step.WriteOut? || step.Put?
  }

  /** The listener looks at the channel. */
  predicate AtSelect(l: Listener) {
    l.Selecting? || l.Draining?
  }

  /** How many such steps are left until the channel is empty. */
  function WorkLeft(s: State): nat {
    3 * |s.queue| + match s.listener
                    case Received(_) => 2
                    case Written(_) => 1
                    case DrainReceived(_) => 1
                    case _ => 0
  }

  function NextWrite(s: State): Step {
    match s.listener
    case Received(_) => WriteOut
    case DrainReceived(_) => WriteOut
    case Written(_) => Put
    case _ => Receive
  }

  lemma NextWriteProgress(c: Config, s: State)
    requires !Finished(s.listener) && WorkLeft(s) > 0
    ensures Enabled(c, s, NextWrite(s)) && WriteStep(NextWrite(s))
    ensures var t := Do(c, s, NextWrite(s));
      && WorkLeft(t) < WorkLeft(s) && !Finished(t.listener)
      && t.accepted == s.accepted && t.writes == s.writes && t.running == s.running
      && (InDrain(t.listener) <==> InDrain(s.listener))
  {}

  /** Whatever was accepted is written, before a Stop too: from every reachable state in which the
      listener has not finished, its own steps, a bounded number of them, bring it back to the
      empty channel, with all accepted data in the output. */
  lemma {:induction false} ListenerWrites(c: Config, s: State) returns (steps: seq<Step>, t: State)
    requires Inv(c, s) && !Finished(s.listener)
    ensures Run(c, s, steps, t) && Inv(c, t)
    ensures (forall step | step in steps :: WriteStep(step)) && |steps| <= WorkLeft(s)
    ensures Output(t.dest) == s.accepted == t.accepted
    ensures t.queue == [] && AtSelect(t.listener) && t.writes == s.writes && t.running == s.running
    ensures InDrain(t.listener) <==> InDrain(s.listener)
    decreases WorkLeft(s)
  {
    if WorkLeft(s) == 0 {
      steps, t := [], s;
    } else {
      hide Inv, Enabled, Do, WorkLeft;
      var step := NextWrite(s);
      NextWriteProgress(c, s);
      InvStep(c, s, step);
      steps, t := ListenerWrites(c, Do(c, s, step));
      steps := [step] + steps;
    }
  }

  /** A buffer that was written is used again: the next call of Write may get it. */
  lemma BuffersAreReused(c: Config, s: State, w: Call, data: Bytes)
    requires Inv(c, s) && s.listener.Written? && w !in s.writes
    ensures Enabled(c, s, Put) && Enabled(c, Do(c, s, Put), Get(w, data, s.listener.buffer))
  {}

  /** A tick flushes: from every reachable state before the drain, the listener's steps and one tick
      lead to a state in which all accepted data is written and flushed, if dest can flush and is
      ticked. */
  lemma TickFlushes(c: Config, s: State) returns (steps: seq<Step>, t: State)
    requires Inv(c, s) && !InDrain(s.listener) && c.canFlush && c.ticks
    ensures Run(c, s, steps, t) && forall step | step in steps :: WriteStep(step) || step == Tick
    ensures Output(t.dest) == s.accepted && AllFlushed(c, t.dest)
  {
    hide Inv, Output, CanRun, After;
    var before, u;
    before, u := ListenerWrites(c, s);
    t := Do(c, u, Tick);
    steps := before + [Tick];
    OutputStep(u.dest, Flushed);
    Nil(c, t);
    Cons(c, u, [Tick]);
    RunAppend(c, s, before, u, [Tick], t);
  }

  lemma {:induction false} RunAppend(c: Config, s: State, a: seq<Step>, t: State, b: seq<Step>, u: State)
    requires Run(c, s, a, t) && Run(c, t, b, u)
    ensures Run(c, s, a + b, u)
    decreases a
  {
    if a == [] {
      assert a + b == b;
    } else {
      assert (a + b)[1..] == a[1..] + b;
      RunAppend(c, Do(c, s, a[0]), a[1..], t, b, u);
    }
  }

  /** Flushing: never without a Flush method; without a ticker only once, at the end. */
  predicate FlushesRight(c: Config, s: State) {
    !c.canFlush || (!c.ticks && !s.listener.Exiting? && !s.listener.Done?) ==> Flushed !in s.dest
  }

  lemma {:induction false} FlushesAsConfigured(c: Config, s: State, steps: seq<Step>, t: State)
    requires FlushesRight(c, s) && Run(c, s, steps, t)
    ensures FlushesRight(c, t)
    decreases steps
  {
    if steps != [] {
      FlushesAsConfigured(c, Do(c, s, steps[0]), steps[1..], t);
    }
  }

  // ----- Writes after Stop -----

  lemma {:induction false} QueueFillsUp(c: Config, s: State, steps: seq<Step>, t: State, w: Call)
    requires Finished(s.listener) && Run(c, s, steps, t) && |s.queue| >= c.depth && w in s.writes
    ensures w in t.writes
    decreases steps
  {
    if steps != [] {
      QueueFillsUp(c, Do(c, s, steps[0]), steps[1..], t, w);
    }
  }

  /** A call of Write can return exactly while the listener has not found the channel empty, or the
      channel has room; otherwise it never does. */
  lemma WriteReturnsExactly(c: Config, s: State, w: Call)
    requires Reachable(c, s) && w in s.writes
    ensures (exists steps, t :: Run(c, s, steps, t) && w !in t.writes) <==> !Finished(s.listener) || |s.queue| < c.depth
  {
    hide Run, Inv;
    ReachableInv(c, s);
    if !Finished(s.listener) {
      var before, u := ListenerWrites(c, s);
      var more, t := WriteEnds(c, u, w);
      RunAppend(c, s, before, u, more, t);
    } else if |s.queue| < c.depth {
      var more, t := WriteEnds(c, s, w);
    } else {
      forall steps, t | Run(c, s, steps, t) ensures w in t.writes {
        QueueFillsUp(c, s, steps, t, w);
      }
    }
  }

  /** The last steps of a call of Write: its copy, and its send or the hand-over. */
  lemma WriteEnds(c: Config, s: State, w: Call) returns (steps: seq<Step>, t: State)
    requires w in s.writes && (|s.queue| < c.depth || (c.depth == 0 && AtSelect(s.listener)))
    ensures Run(c, s, steps, t) && w !in t.writes
  {
    hide CanRun, After;
    var s1 := if s.writes[w].Got? then Do(c, s, Copy(w)) else s;
    var last := if |s.queue| < c.depth then Send(w) else HandOver(w);
    t := Do(c, s1, last);
    Nil(c, t);
    Cons(c, s1, [last]);
    steps := [last];
    if s.writes[w].Got? {
      steps := [Copy(w), last];
      Cons(c, s, steps);
    }
  }
}
