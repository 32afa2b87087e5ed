/** The session pools (xpki/crypto11/sessions.go): concurrent and nested withSession calls. */
module Sessions {
  import opened Wrappers

  type Slot = nat
  type Handle = nat
  type CallId = nat

  const MAX_SESSIONS := 1024

  /** The pool channel of a slot. */
  datatype Pool = Pool(cap: nat, free: seq<Handle>)

  /** A call of withSession, perhaps made inside the function of another call: it has found no free
      session and is about to open one, or it holds one. pooled: there was a pool when it looked. */
  datatype Call =
    | Missed(slot: Slot, within: Option<CallId>, pooled: bool)
    | Held(slot: Slot, within: Option<CallId>, pooled: bool, handle: Handle)

  /** sessions are those ever opened for a slot, none is ever closed; peak is the largest number of
      calls of a slot that were at the same time between their select and their return. */
  datatype State = State(
    pools: map<Slot, Pool>,
    sessions: map<Slot, set<Handle>>,
    calls: map<CallId, Call>,
    next: CallId,
    peak: map<Slot, nat>)

  const INIT := State(map[], map[], map[], 0, map[])

  datatype Step =
    | Setup(slot: Slot, max: int)
    | Take(slot: Slot, within: Option<CallId>)
    | Miss(slot: Slot, within: Option<CallId>)
    | Opened(call: CallId, handle: Handle)
    | OpenFails(call: CallId)
    | Return(call: CallId)

  function Free(s: State, slot: Slot): seq<Handle> {
    if slot in s.pools then s.pools[slot].free else []
  }

  function SessionsOf(s: State, slot: Slot): set<Handle> {
    if slot in s.sessions then s.sessions[slot] else {}
  }

  function Peak(s: State, slot: Slot): nat {
    if slot in s.peak then s.peak[slot] else 0
  }

  predicate IsHeld(s: State, c: CallId) {
    c in s.calls && s.calls[c].Held?
  }

  predicate IsMissed(s: State, c: CallId) {
    c in s.calls && s.calls[c].Missed?
  }

  predicate Runs(s: State, within: Option<CallId>) {
    within.Some? ==> IsHeld(s, within.value)
  }

  /** A call returns after the calls made inside it, and only when the pool that it saw has room;
      without a pool it sends on a nil channel. */
  predicate Enabled(s: State, step: Step) {
    match step
    case Setup(_, _) => true
    case Take(slot, w) => Runs(s, w) && Free(s, slot) != []
    case Miss(slot, w) => Runs(s, w) && Free(s, slot) == []
    case Opened(c, h) => IsMissed(s, c) && h !in SessionsOf(s, s.calls[c].slot)
    case OpenFails(c) => IsMissed(s, c)
    case Return(c) =>
      && IsHeld(s, c) && (forall d | d in s.calls :: s.calls[d].within != Some(c))
      && s.calls[c].pooled && s.calls[c].slot in s.pools
      && var p := s.pools[s.calls[c].slot]; |p.free| < p.cap
  }

  /** The calls of a slot that hold a session, or those that are about to open one. */
  function Users(s: State, slot: Slot, held: bool): set<CallId> {
    set c | c in s.calls && s.calls[c].slot == slot && s.calls[c].Held? == held
  }

  function Load(s: State, slot: Slot): nat {
    |Users(s, slot, true)| + |Users(s, slot, false)|
  }

  function Max(a: nat, b: nat): nat {
    if a < b then b else a
  }

  /** A new call. */
  function Begin(s: State, call: Call): State {
    s.(calls := s.calls[s.next := call], next := s.next + 1,
       peak := s.peak[call.slot := Max(Peak(s, call.slot), Load(s, call.slot) + 1)])
  }

  function WithFree(s: State, slot: Slot, free: seq<Handle>): State
    requires slot in s.pools
  {
    s.(pools := s.pools[slot := s.pools[slot].(free := free)])
  }

  function Do(s: State, step: Step): State
    requires Enabled(s, step)
  {
    match step
    case Setup(slot, max) =>
      if slot in s.pools then s
      else s.(pools := s.pools[slot := Pool(if max <= 0 then MAX_SESSIONS else max, [])])
    case Take(slot, w) =>
      var free := s.pools[slot].free;
      Begin(WithFree(s, slot, free[1..]), Held(slot, w, true, free[0]))
    case Miss(slot, w) => Begin(s, Missed(slot, w, slot in s.pools))
    case Opened(c, h) =>
      var call := s.calls[c];
      s.(sessions := s.sessions[call.slot := SessionsOf(s, call.slot) + {h}],
         calls := s.calls[c := Held(call.slot, call.within, call.pooled, h)])
    case OpenFails(c) => s.(calls := s.calls - {c})
    case Return(c) =>
      var call := s.calls[c];
      WithFree(s, call.slot, s.pools[call.slot].free + [call.handle]).(calls := s.calls - {c})
  }

  predicate CanRun(s: State, steps: seq<Step>)
    decreases steps
  {
    steps == [] || (Enabled(s, steps[0]) && CanRun(Do(s, steps[0]), steps[1..]))
  }

  function After(s: State, steps: seq<Step>): State
    requires CanRun(s, steps)
    decreases steps
  {
    if steps == [] then s else After(Do(s, steps[0]), steps[1..])
  }

  // ----- Ownership -----

  predicate Has(calls: map<CallId, Call>, slot: Slot, c: CallId, h: Handle) {
    c in calls && calls[c].Held? && calls[c].slot == slot && calls[c].handle == h
  }

  /** The sessions of a slot: each is free or held by exactly one call. */
  ghost predicate Owned(sessions: set<Handle>, free: seq<Handle>, calls: map<CallId, Call>, slot: Slot) {
    && (forall h :: h in sessions <==> h in free || exists c :: Has(calls, slot, c, h))
    && (forall i, j | 0 <= i < j < |free| :: free[i] != free[j])
    && (forall c, h | Has(calls, slot, c, h) :: h !in free)
    && (forall c, d, h | Has(calls, slot, c, h) && Has(calls, slot, d, h) :: c == d)
  }

  ghost predicate OwnedAt(s: State, slot: Slot) {
    Owned(SessionsOf(s, slot), Free(s, slot), s.calls, slot)
  }

  /** opened = free + held, within the capacity, and no more than ever were needed at once. */
  predicate Balanced(s: State, slot: Slot) {
    && |SessionsOf(s, slot)| == |Free(s, slot)| + |Users(s, slot, true)|
    && (slot in s.pools ==> |s.pools[slot].free| <= s.pools[slot].cap)
    && |SessionsOf(s, slot)| + |Users(s, slot, false)| <= Peak(s, slot)
  }

  predicate Calls(s: State) {
    && (forall c | c in s.calls :: c < s.next && (s.calls[c].pooled ==> s.calls[c].slot in s.pools))
    && (forall c | c in s.calls && s.calls[c].within.Some? :: s.calls[c].within.value < c)
  }

  ghost predicate Inv(s: State) {
    Calls(s) && forall slot :: OwnedAt(s, slot) && Balanced(s, slot)
  }

  lemma CallsStep(s: State, step: Step)
    requires Calls(s) && Enabled(s, step)
    ensures Calls(Do(s, step))
  {}

  lemma SameOwned(sessions: set<Handle>, free: seq<Handle>, calls: map<CallId, Call>, after: map<CallId, Call>, slot: Slot)
    requires Owned(sessions, free, calls, slot)
    requires forall c, h :: Has(after, slot, c, h) <==> Has(calls, slot, c, h)
    ensures Owned(sessions, free, after, slot)
  {
    hide Has;
  }

  lemma TakeOwned(sessions: set<Handle>, free: seq<Handle>, calls: map<CallId, Call>, slot: Slot, n: CallId, call: Call)
    requires Owned(sessions, free, calls, slot) && n !in calls && free != []
    requires call.Held? && call.slot == slot && call.handle == free[0]
    ensures Owned(sessions, free[1..], calls[n := call], slot)
  {
    var after, h := calls[n := call], free[0];
    assert free == [h] + free[1..];
    assert forall c, k :: Has(after, slot, c, k) <==> Has(calls, slot, c, k) || (c == n && k == h);
    hide Has;
    forall k ensures k in sessions <==> k in free[1..] || exists c :: Has(after, slot, c, k) {
      if c :| Has(calls, slot, c, k) {
        assert Has(after, slot, c, k);
      }
      assert Has(after, slot, n, h);
    }
  }

  lemma OpenedOwned(sessions: set<Handle>, free: seq<Handle>, calls: map<CallId, Call>, slot: Slot, n: CallId, call: Call)
    requires Owned(sessions, free, calls, slot) && n in calls && calls[n].Missed?
    requires call.Held? && call.slot == slot && call.handle !in sessions
    ensures Owned(sessions + {call.handle}, free, calls[n := call], slot)
  {
    var after, h := calls[n := call], call.handle;
    assert forall c, k :: Has(after, slot, c, k) <==> Has(calls, slot, c, k) || (c == n && k == h);
    hide Has;
    forall k ensures k in sessions + {h} <==> k in free || exists c :: Has(after, slot, c, k) {
      if c :| Has(calls, slot, c, k) {
        assert Has(after, slot, c, k);
      }
      assert Has(after, slot, n, h);
    }
  }

  lemma ReturnOwned(sessions: set<Handle>, free: seq<Handle>, calls: map<CallId, Call>, slot: Slot, n: CallId)
    requires Owned(sessions, free, calls, slot) && n in calls && calls[n].Held? && calls[n].slot == slot
    ensures Owned(sessions, free + [calls[n].handle], calls - {n}, slot)
  {
    var after, h := calls - {n}, calls[n].handle;
    assert Has(calls, slot, n, h);
    assert forall c, k :: Has(after, slot, c, k) <==> Has(calls, slot, c, k) && c != n;
    hide Has;
    forall k ensures k in sessions <==> k in free + [h] || exists c :: Has(after, slot, c, k) {
      if c :| Has(calls, slot, c, k) {
        assert c != n ==> Has(after, slot, c, k);
      }
    }
  }

  lemma OwnedStep(s: State, step: Step, slot: Slot)
    requires Calls(s) && OwnedAt(s, slot) && Enabled(s, step)
    ensures OwnedAt(Do(s, step), slot)
  {
    hide Owned, Users, Load, Max;
    var t := Do(s, step);
    if step.Take? && step.slot == slot {
      TakeOwned(SessionsOf(s, slot), Free(s, slot), s.calls, slot, s.next, t.calls[s.next]);
    } else if step.Opened? && s.calls[step.call].slot == slot {
      OpenedOwned(SessionsOf(s, slot), Free(s, slot), s.calls, slot, step.call, t.calls[step.call]);
    } else if step.Return? && s.calls[step.call].slot == slot {
      ReturnOwned(SessionsOf(s, slot), Free(s, slot), s.calls, slot, step.call);
    } else {
      SameOwned(SessionsOf(s, slot), Free(s, slot), s.calls, t.calls, slot);
    }
  }

  /** How one step changes the calls of a slot. */
  lemma UsersStep(s: State, step: Step, slot: Slot, held: bool)
    requires Calls(s) && Enabled(s, step)
    ensures s.next !in Users(s, slot, held)
    ensures step.Setup? ==> Users(Do(s, step), slot, held) == Users(s, slot, held)
    ensures step.Take? || step.Miss? ==>
      Users(Do(s, step), slot, held)
      == if slot == step.slot && held == step.Take? then Users(s, slot, held) + {s.next} else Users(s, slot, held)
  {
    hide Load;
  }

  lemma UsersEnd(s: State, step: Step, slot: Slot, held: bool)
    requires Calls(s) && Enabled(s, step) && (step.Opened? || step.OpenFails? || step.Return?)
    ensures var here := s.calls[step.call].slot == slot;
      && (step.call in Users(s, slot, held) <==> here && held == step.Return?)
      && Users(Do(s, step), slot, held)
         == if !here then Users(s, slot, held)
            else if held == step.Return? then Users(s, slot, held) - {step.call}
            else if step.Opened? then Users(s, slot, held) + {step.call}
            else Users(s, slot, held)
  {
    hide Load;
  }

  lemma Sizes<T>(a: set<T>, x: T)
    ensures x !in a ==> |a + {x}| == |a| + 1
    ensures x in a ==> |a - {x}| == |a| - 1
  {}

  /** The numbers of calls of a slot before and after one step. */
  lemma Counts(s: State, step: Step, slot: Slot, held: bool)
    requires Calls(s) && Enabled(s, step)
    ensures |Users(Do(s, step), slot, held)| == |Users(s, slot, held)| + Change(s, step, slot, held)
    ensures Change(s, step, slot, held) == -1 ==> |Users(s, slot, held)| >= 1
  {
    hide Calls, Load, Users;
    var users := Users(s, slot, held);
    if step.Setup? || step.Take? || step.Miss? {
      UsersStep(s, step, slot, held);
      Sizes(users, s.next);
    } else {
      UsersEnd(s, step, slot, held);
      Sizes(users, step.call);
    }
  }

  function Change(s: State, step: Step, slot: Slot, held: bool): int
    requires Enabled(s, step)
  {
    match step
    case Setup(_, _) => 0
    case Take(here, _) => if here == slot && held then 1 else 0
    case Miss(here, _) => if here == slot && !held then 1 else 0
    case Opened(c, _) => if s.calls[c].slot != slot then 0 else if held then 1 else -1
    case OpenFails(c) => if s.calls[c].slot == slot && !held then -1 else 0
    case Return(c) => if s.calls[c].slot == slot && held then -1 else 0
  }

  lemma BalancedBegin(s: State, step: Step, slot: Slot)
    requires Calls(s) && Balanced(s, slot) && Enabled(s, step)
    requires step.Setup? || step.Take? || step.Miss?
    ensures Balanced(Do(s, step), slot)
  {
    hide Users, Calls;
    Counts(s, step, slot, true);
    Counts(s, step, slot, false);
    if step.Take? {
      LoadUnchanged(s, step);
    }
  }

  /** Load looks at the calls only. */
  lemma LoadUnchanged(s: State, step: Step)
    requires Enabled(s, step) && step.Take?
    ensures Load(WithFree(s, step.slot, s.pools[step.slot].free[1..]), step.slot) == Load(s, step.slot)
  {}

  lemma BalancedEnd(s: State, step: Step, slot: Slot)
    requires Calls(s) && Balanced(s, slot) && Enabled(s, step)
    requires step.Opened? || step.OpenFails? || step.Return?
    ensures Balanced(Do(s, step), slot)
  {
    hide Users, Calls, Load;
    Counts(s, step, slot, true);
    Counts(s, step, slot, false);
    if step.Opened? {
      Sizes(SessionsOf(s, slot), step.handle);
    }
  }

  lemma InvStep(s: State, step: Step)
    requires Inv(s) && Enabled(s, step)
    ensures Inv(Do(s, step))
  {
    hide OwnedAt, Balanced, Users, Calls;
    CallsStep(s, step);
    forall slot ensures OwnedAt(Do(s, step), slot) && Balanced(Do(s, step), slot) {
      OwnedStep(s, step, slot);
      if step.Setup? || step.Take? || step.Miss? {
        BalancedBegin(s, step, slot);
      } else {
        BalancedEnd(s, step, slot);
      }
    }
  }

  lemma {:induction false} InvRun(s: State, steps: seq<Step>)
    requires Inv(s) && CanRun(s, steps)
    ensures Inv(After(s, steps))
    decreases steps
  {
    if steps != [] {
      InvStep(s, steps[0]);
      InvRun(Do(s, steps[0]), steps[1..]);
    }
  }

  lemma StartInv()
    ensures Inv(INIT)
  {
    assert forall slot, held :: Users(INIT, slot, held) == {};
  }

  /** In every reachable state, nested calls and failed opens included, each opened session is in
      the pool or held by exactly one call; opened = free + held, the pool keeps its bound, and no
      more sessions are opened than calls were under way at the same time. */
  lemma ExclusiveUse(steps: seq<Step>, slot: Slot)
    requires CanRun(INIT, steps)
    ensures var t := After(INIT, steps);
      var all, free := SessionsOf(t, slot), Free(t, slot);
      && |all| == |free| + |Users(t, slot, true)| && |all| <= Peak(t, slot)
      && (slot in t.pools ==> |free| <= t.pools[slot].cap)
      && (forall h :: h in all <==> h in free || exists c :: Has(t.calls, slot, c, h))
      && (forall c, h | Has(t.calls, slot, c, h) :: h !in free)
      && (forall c, d, h | Has(t.calls, slot, c, h) && Has(t.calls, slot, d, h) :: c == d)
  {
    hide CanRun, After, Has, Users, Load, Calls;
    StartInv();
    InvRun(INIT, steps);
    var t := After(INIT, steps);
    assert OwnedAt(t, slot) && Balanced(t, slot);
  }

  // ----- Who can return -----

  /** The sessions of a slot when every call that is about to open one has done so. */
  function Committed(s: State, slot: Slot): nat {
    |SessionsOf(s, slot)| + |Users(s, slot, false)|
  }

  /** Every pool has places for all of them. */
  predicate Room(s: State) {
    forall slot | slot in s.pools :: Committed(s, slot) <= s.pools[slot].cap
  }

  /** Every call under way found a pool. */
  predicate AllPooled(s: State) {
    forall c | c in s.calls :: s.calls[c].pooled
  }

  predicate IsFinishing(step: Step) {
    step.Opened? || step.OpenFails? || step.Return?
  }

  /** Only the calls under way go on. */
  predicate Finishing(steps: seq<Step>) {
    forall step | step in steps :: IsFinishing(step)
  }

  lemma LastCall(s: State) returns (c: CallId)
    requires s.calls != map[]
    ensures c in s.calls && forall d | d in s.calls :: d <= c
  {
    var d :| d in s.calls;
    c := Highest(s.calls.Keys, d);
  }

  lemma {:induction false} Highest(calls: set<CallId>, d: CallId) returns (c: CallId)
    requires d in calls
    ensures c in calls && forall e | e in calls :: e <= c
    decreases |calls|
  {
    if e :| e in calls && e > d {
      var rest := calls - {d};
      c := Highest(rest, e);
      assert e in rest && calls == rest + {d};
    } else {
      c := d;
    }
  }

  /** The step that ends a call. */
  function End(s: State, c: CallId): Step
    requires c in s.calls
  {
    if s.calls[c].Held? then Return(c) else OpenFails(c)
  }

  lemma CanEnd(s: State, c: CallId)
    requires Inv(s) && Room(s) && AllPooled(s) && c in s.calls && forall d | d in s.calls :: d <= c
    ensures Enabled(s, End(s, c))
  {
    hide OwnedAt, Load;
    var slot := s.calls[c].slot;
    assert Balanced(s, slot);
    assert s.calls[c].Held? ==> c in Users(s, slot, true);
    assert s.calls[c].Held? ==> |Users(s, slot, true)| > 0;
  }

  /** What the end of a call or an open does to the pools and the sessions of a slot. */
  lemma FinishingStep(s: State, step: Step, slot: Slot)
    requires Enabled(s, step) && IsFinishing(step)
    ensures Do(s, step).pools.Keys == s.pools.Keys
    ensures slot in s.pools ==> Do(s, step).pools[slot].cap == s.pools[slot].cap
    ensures SessionsOf(Do(s, step), slot)
            == if step.Opened? && s.calls[step.call].slot == slot then SessionsOf(s, slot) + {step.handle}
               else SessionsOf(s, slot)
    ensures step.Opened? && s.calls[step.call].slot == slot ==> step.handle !in SessionsOf(s, slot)
  {
    hide Load, Users;
  }

  /** An open keeps the number of sessions committed to, a failed one lowers it. */
  lemma CommittedStep(s: State, step: Step, slot: Slot)
    requires Calls(s) && Enabled(s, step) && IsFinishing(step)
    ensures Committed(Do(s, step), slot)
            == Committed(s, slot) - (if step.OpenFails? && s.calls[step.call].slot == slot then 1 else 0)
    ensures Do(s, step).pools.Keys == s.pools.Keys
    ensures slot in s.pools ==> Do(s, step).pools[slot].cap == s.pools[slot].cap
  {
    Counts(s, step, slot, false);
    FinishingStep(s, step, slot);
    hide Users, Calls, Do, SessionsOf, Load;
    if step.Opened? {
      Sizes(SessionsOf(s, slot), step.handle);
    }
  }

  /** Calls end without new ones, so that places stay enough. */
  lemma RoomStep(s: State, step: Step)
    requires Calls(s) && Enabled(s, step) && IsFinishing(step) && Room(s) && AllPooled(s)
    ensures Room(Do(s, step)) && AllPooled(Do(s, step))
  {
    hide Calls, Committed;
    forall slot | slot in s.pools ensures Committed(Do(s, step), slot) <= Do(s, step).pools[slot].cap {
      CommittedStep(s, step, slot);
    }
    CommittedStep(s, step, 0);
  }

  lemma FewerCalls(s: State, c: CallId)
    requires c in s.calls && Enabled(s, End(s, c))
    ensures |Do(s, End(s, c)).calls| < |s.calls|
  {
    hide Users, Load;
    var t := Do(s, End(s, c));
    assert t.calls.Keys == s.calls.Keys - {c} && |s.calls.Keys - {c}| == |s.calls.Keys| - 1;
    assert |s.calls| == |s.calls.Keys| && |t.calls| == |t.calls.Keys|;
  }

  lemma {:induction false} EndCalls(s: State) returns (steps: seq<Step>)
    requires Inv(s) && Room(s) && AllPooled(s)
    ensures Finishing(steps) && CanRun(s, steps) && After(s, steps).calls == map[]
    decreases |s.calls|
  {
    hide OwnedAt, Balanced, Calls, Room, AllPooled, Enabled;
    if s.calls == map[] {
      steps := [];
    } else {
      var c := LastCall(s);
      CanEnd(s, c);
      RoomStep(s, End(s, c));
      FewerCalls(s, c);
      InvStep(s, End(s, c));
      var rest := EndCalls(Do(s, End(s, c)));
      steps := [End(s, c)] + rest;
      assert steps[1..] == rest;
    }
  }

  lemma {:induction false} RoomRun(s: State, steps: seq<Step>)
    requires Inv(s) && Room(s) && AllPooled(s) && Finishing(steps) && CanRun(s, steps)
    ensures Inv(After(s, steps)) && Room(After(s, steps)) && AllPooled(After(s, steps))
    decreases steps
  {
    hide OwnedAt, Balanced, Calls, Room, AllPooled, Enabled;
    if steps != [] {
      assert IsFinishing(steps[0]);
      RoomStep(s, steps[0]);
      InvStep(s, steps[0]);
      RoomRun(Do(s, steps[0]), steps[1..]);
    }
  }

  // ----- All pending opens succeed -----

  /** The calls that are about to open a session. */
  function Pending(s: State): set<CallId> {
    set c | c in s.calls && s.calls[c].Missed?
  }

  lemma {:induction false} FreshHandle(used: set<Handle>) returns (h: Handle)
    ensures forall k | k in used :: k < h
  {
    h := 0;
    if k :| k in used {
      var rest := used - {k};
      h := FreshHandle(rest);
      h := Max(h, k + 1);
      assert used == rest + {k};
    }
  }

  lemma OpenOne(s: State, c: CallId, h: Handle)
    requires Calls(s) && IsMissed(s, c) && h !in SessionsOf(s, s.calls[c].slot)
    ensures var t := Do(s, Opened(c, h));
      && Pending(t) < Pending(s) && t.pools == s.pools && t.calls.Keys == s.calls.Keys
      && forall d | d in s.calls :: t.calls[d].pooled == s.calls[d].pooled
  {
    hide Users, Load;
    assert c in Pending(s) && c !in Pending(Do(s, Opened(c, h)));
  }

  /** Every call that is about to open a session opens another one. */
  lemma {:induction false} OpenAll(s: State) returns (steps: seq<Step>)
    requires Inv(s)
    ensures Finishing(steps) && CanRun(s, steps)
    ensures var t := After(s, steps);
      && Pending(t) == {} && t.pools == s.pools && t.calls.Keys == s.calls.Keys
      && (forall d | d in s.calls :: t.calls[d].pooled == s.calls[d].pooled)
      && forall slot :: Committed(t, slot) == Committed(s, slot)
    decreases Pending(s)
  {
    hide OwnedAt, Balanced, Calls, Users, Committed, Do, Load;
    steps := [];
    if Pending(s) != {} {
      var c :| c in Pending(s);
      var h := FreshHandle(SessionsOf(s, s.calls[c].slot));
      var step := Opened(c, h);
      OpenOne(s, c, h);
      forall slot ensures Committed(Do(s, step), slot) == Committed(s, slot) {
        CommittedStep(s, step, slot);
      }
      InvStep(s, step);
      var rest := OpenAll(Do(s, step));
      steps := [step] + rest;
      assert steps[1..] == rest;
    }
  }

  lemma {:induction false} PoolsKeep(s: State, steps: seq<Step>, slot: Slot)
    requires CanRun(s, steps)
    ensures SessionsOf(s, slot) <= SessionsOf(After(s, steps), slot)
    ensures slot in s.pools ==> slot in After(s, steps).pools && After(s, steps).pools[slot].cap == s.pools[slot].cap
    decreases steps
  {
    if steps != [] {
      PoolsKeep(Do(s, steps[0]), steps[1..], slot);
    }
  }

  lemma Smaller<T>(a: set<T>, b: set<T>)
    requires a <= b
    ensures |a| <= |b|
  {
    assert b == a + (b - a);
  }

  /** A call that found no pool and holds a session never returns; it does not panic. */
  lemma {:induction false} NoPoolBlocks(s: State, steps: seq<Step>, c: CallId)
    requires CanRun(s, steps) && Calls(s) && IsHeld(s, c) && !s.calls[c].pooled
    ensures IsHeld(After(s, steps), c)
    decreases steps
  {
    if steps != [] {
      CallsStep(s, steps[0]);
      NoPoolBlocks(Do(s, steps[0]), steps[1..], c);
    }
  }

  /** A run in which a call finds no pool, opens a session and is stuck. */
  lemma NoPoolRun(h: Handle)
    ensures var steps := [Miss(0, None), Opened(0, h)];
      CanRun(INIT, steps) && IsHeld(After(INIT, steps), 0) && !After(INIT, steps).calls[0].pooled
  {
    hide CanRun, After;
    var s1 := Do(INIT, Miss(0, None));
    Nil(Do(s1, Opened(0, h)));
    Cons(s1, [Opened(0, h)]);
    Cons(INIT, [Miss(0, None), Opened(0, h)]);
  }

  ghost predicate AllCanReturn(s: State) {
    exists steps :: Finishing(steps) && CanRun(s, steps) && After(s, steps).calls == map[]
  }

  /** However the calls under way go on, whether their opens fail or succeed, all of them can return
      from there. */
  ghost predicate AlwaysReturns(s: State) {
    forall steps | Finishing(steps) && CanRun(s, steps) :: AllCanReturn(After(s, steps))
  }

  lemma AllReturned(s: State, steps: seq<Step>)
    requires Inv(s) && CanRun(s, steps) && After(s, steps).calls == map[] && Pending(s) == {}
    ensures Room(s) && AllPooled(s)
  {
    hide CanRun, After, OwnedAt, Calls;
    var t := After(s, steps);
    InvRun(s, steps);
    forall slot | slot in s.pools ensures Committed(s, slot) <= s.pools[slot].cap {
      PoolsKeep(s, steps, slot);
      assert Balanced(t, slot) && Users(t, slot, true) == {} && Users(s, slot, false) <= Pending(s);
      Smaller(SessionsOf(s, slot), SessionsOf(t, slot));
    }
    forall c | c in s.calls ensures s.calls[c].pooled {
      assert c !in Pending(s);
      if !s.calls[c].pooled {
        NoPoolBlocks(s, steps, c);
      }
    }
  }

  /** The calls under way are sure to return exactly if every call found a pool and every pool has
      places for the sessions of its slot and for those that are about to be opened. */
  lemma AllReturnExactly(steps: seq<Step>)
    requires CanRun(INIT, steps)
    ensures AlwaysReturns(After(INIT, steps)) <==> Room(After(INIT, steps)) && AllPooled(After(INIT, steps))
  {
    hide CanRun, After, Inv, Finishing, Room, AllPooled, Pending;
    var s := After(INIT, steps);
    StartInv();
    InvRun(INIT, steps);
    if Room(s) && AllPooled(s) {
      forall more | Finishing(more) && CanRun(s, more) ensures AllCanReturn(After(s, more)) {
        RoomRun(s, more);
        var rest := EndCalls(After(s, more));
      }
    }
    if AlwaysReturns(s) {
      MustHaveRoom(s);
    }
  }

  lemma MustHaveRoom(s: State)
    requires Inv(s) && AlwaysReturns(s)
    ensures Room(s) && AllPooled(s)
  {
    hide CanRun, After, Inv, Finishing, Pending, Committed;
    var opens := OpenAll(s);
    var t := After(s, opens);
    InvRun(s, opens);
    var rest :| Finishing(rest) && CanRun(t, rest) && After(t, rest).calls == map[];
    AllReturned(t, rest);
  }

  /** What callers can see to: with never more calls of a slot at once, between select and return,
      than its pool has places, all are sure to return. */
  lemma FewCallsReturn(steps: seq<Step>)
    requires CanRun(INIT, steps) && AllPooled(After(INIT, steps))
    requires var t := After(INIT, steps); forall slot | slot in t.pools :: Peak(t, slot) <= t.pools[slot].cap
    ensures AlwaysReturns(After(INIT, steps))
  {
    hide CanRun, After, OwnedAt, Calls, AllPooled, AlwaysReturns;
    var t := After(INIT, steps);
    StartInv();
    InvRun(INIT, steps);
    forall slot | slot in t.pools ensures Committed(t, slot) <= t.pools[slot].cap {
      assert Balanced(t, slot);
    }
    AllReturnExactly(steps);
  }

  /** Once a slot has opened more sessions than its pool has places, the surplus is held for
      ever: at every later time at least that many calls have not returned. */
  lemma SurplusNeverReturns(s: State, steps: seq<Step>, slot: Slot)
    requires Inv(s) && CanRun(s, steps) && slot in s.pools
    ensures |SessionsOf(s, slot)| - s.pools[slot].cap <= |Users(After(s, steps), slot, true)|
  {
    hide CanRun, After, OwnedAt, Calls, Users;
    var t := After(s, steps);
    InvRun(s, steps);
    PoolsKeep(s, steps, slot);
    assert Balanced(t, slot);
    Smaller(SessionsOf(s, slot), SessionsOf(t, slot));
  }

  // ----- What a call gets -----

  /** The first set-up of a slot decides: room for as many sessions as asked for, and for 1024 when
      that is not a positive number. Later ones change nothing. */
  lemma SetupDecides(s: State, slot: Slot, max: int, again: int, steps: seq<Step>)
    requires slot !in s.pools && CanRun(Do(s, Setup(slot, max)), steps)
    ensures var t := Do(s, Setup(slot, max)); var u := After(t, steps);
      && t.pools[slot].free == [] && t.calls == s.calls && t.sessions == s.sessions
      && slot in u.pools && u.pools[slot].cap == (if max > 0 then max else 1024)
      && Do(u, Setup(slot, again)) == u
  {
    hide CanRun, After;
    PoolsKeep(Do(s, Setup(slot, max)), steps, slot);
  }

  /** A call that may begin always can: it takes a free session without opening one, or, exactly
      when none is free, opens another, which is then its own. */
  lemma CallsBegin(s: State, slot: Slot, within: Option<CallId>, h: Handle)
    requires Inv(s) && Runs(s, within)
    ensures Enabled(s, Take(slot, within)) != Enabled(s, Miss(slot, within))
    ensures Enabled(s, Take(slot, within)) ==>
      var t := Do(s, Take(slot, within));
      && IsHeld(t, s.next) && t.calls[s.next].handle in SessionsOf(s, slot) && t.sessions == s.sessions
      && [t.calls[s.next].handle] + Free(t, slot) == Free(s, slot)
    ensures Enabled(s, Miss(slot, within)) && h !in SessionsOf(s, slot) ==>
      var t := Do(s, Miss(slot, within));
      && Enabled(t, Opened(s.next, h))
      && var u := Do(t, Opened(s.next, h));
         && IsHeld(u, s.next) && u.calls[s.next].handle == h && u.calls[s.next].within == within
         && SessionsOf(u, slot) == SessionsOf(s, slot) + {h}
  {
    hide Load, Max, Users, Balanced;
    assert OwnedAt(s, slot);
  }

  /** The session of a call that returns goes behind those that are free, so that free sessions are
      used in turn. */
  lemma ReturnedLast(s: State, c: CallId)
    requires Enabled(s, Return(c))
    ensures var slot := s.calls[c].slot;
      Free(Do(s, Return(c)), slot) == Free(s, slot) + [s.calls[c].handle] && c !in Do(s, Return(c)).calls
  {}

  /** The peak of a slot is what it is called: the largest load that the slot ever had. */
  lemma {:induction false} PeakIsReached(s: State, steps: seq<Step>, slot: Slot)
    requires CanRun(s, steps) && Calls(s) && Load(s, slot) <= Peak(s, slot)
    ensures var t := After(s, steps);
      && Load(t, slot) <= Peak(t, slot) && Peak(s, slot) <= Peak(t, slot)
      && (Peak(t, slot) > Peak(s, slot) ==>
            exists u :: Passed(s, steps, u) && Load(u, slot) == Peak(t, slot))
      && forall u | Passed(s, steps, u) :: Load(u, slot) <= Peak(t, slot)
    decreases steps
  {
    hide Load, Calls;
    if steps != [] {
      var s1 := Do(s, steps[0]);
      CallsStep(s, steps[0]);
      PeakStep(s, steps[0], slot);
      PeakIsReached(s1, steps[1..], slot);
      var t := After(s, steps);
      if Peak(t, slot) > Peak(s1, slot) {
        var u :| Passed(s1, steps[1..], u) && Load(u, slot) == Peak(t, slot);
        assert Passed(s, steps, u);
      } else if Peak(t, slot) > Peak(s, slot) {
        assert Passed(s, steps, s1) by { assert Passed(s1, steps[1..], s1); }
      }
    }
  }

  /** The run passes state u. */
  predicate Passed(s: State, steps: seq<Step>, u: State)
    requires CanRun(s, steps)
    decreases steps
  {
    s == u || (steps != [] && Passed(Do(s, steps[0]), steps[1..], u))
  }

  lemma PeakStep(s: State, step: Step, slot: Slot)
    requires Calls(s) && Enabled(s, step) && Load(s, slot) <= Peak(s, slot)
    ensures var t := Do(s, step);
      && Load(t, slot) <= Peak(t, slot) && Peak(s, slot) <= Peak(t, slot)
      && (Peak(t, slot) > Peak(s, slot) ==> Load(t, slot) == Peak(t, slot))
  {
    hide Users, Calls;
    Counts(s, step, slot, true);
    Counts(s, step, slot, false);
    if step.Take? {
      LoadUnchanged(s, step);
    }
  }

  // ----- Two runs that block -----

  lemma Cons(s: State, steps: seq<Step>)
    requires steps != [] && Enabled(s, steps[0]) && CanRun(Do(s, steps[0]), steps[1..])
    ensures CanRun(s, steps) && After(s, steps) == After(Do(s, steps[0]), steps[1..])
  {}

  lemma Nil(s: State)
    ensures CanRun(s, []) && After(s, []) == s
  {}

  /** A pool with one place, and never two calls that hold a session at the same time: the second
      call looks while the first holds its session, and opens another after it was given back. */
  lemma LateOpenBlocks(h: Handle, k: Handle)
    requires h != k
    ensures var steps := [Setup(0, 1), Miss(0, None), Opened(0, h), Miss(0, None), Return(0), Opened(1, k)];
      && CanRun(INIT, steps)
      && var t := After(INIT, steps); t.calls.Keys == {1} && !Enabled(t, Return(1))
  {
    hide CanRun, After, Users, Load, Max;
    var s1 := Do(INIT, Setup(0, 1));
    var s2 := Do(s1, Miss(0, None));
    var s3 := Do(s2, Opened(0, h));
    assert s3.calls == map[0 := Held(0, None, true, h)] && s3.pools == map[0 := Pool(1, [])];
    assert {} + {h} == {h} && s3.sessions == map[0 := {h}];
    LateOpen(s3, h, k);
    Cons(s2, [Opened(0, h), Miss(0, None), Return(0), Opened(1, k)]);
    Cons(s1, [Miss(0, None), Opened(0, h), Miss(0, None), Return(0), Opened(1, k)]);
    Cons(INIT, [Setup(0, 1), Miss(0, None), Opened(0, h), Miss(0, None), Return(0), Opened(1, k)]);
  }

  /** A second call on a pool with one place, while the first holds its session. */
  lemma SecondMiss(s: State, within: Option<CallId>, h: Handle)
    requires s.pools == map[0 := Pool(1, [])] && s.next == 1 && s.calls == map[0 := Held(0, None, true, h)]
    requires within.Some? ==> within.value == 0
    ensures Enabled(s, Miss(0, within))
    ensures var t := Do(s, Miss(0, within));
      t.pools == s.pools && t.sessions == s.sessions && t.calls == s.calls[1 := Missed(0, within, true)]
  {
    hide Load, Max;
  }

  lemma LateOpen(s: State, h: Handle, k: Handle)
    requires h != k && s.pools == map[0 := Pool(1, [])] && s.sessions == map[0 := {h}] && s.next == 1
    requires s.calls == map[0 := Held(0, None, true, h)]
    ensures var steps := [Miss(0, None), Return(0), Opened(1, k)];
      && CanRun(s, steps)
      && var t := After(s, steps); t.calls.Keys == {1} && !Enabled(t, Return(1))
  {
    hide CanRun, After, Users, Load, Begin;
    SecondMiss(s, None, h);
    var s1 := Do(s, Miss(0, None));
    var s2 := Do(s1, Return(0));
    var s3 := Do(s2, Opened(1, k));
    Nil(s3);
    Cons(s2, [Opened(1, k)]);
    Cons(s1, [Return(0), Opened(1, k)]);
    Cons(s, [Miss(0, None), Return(0), Opened(1, k)]);
    assert s3.pools[0].free == [h] && s3.calls[1] == Held(0, None, true, k);
  }

  /** A call nested in a call, on a pool with one place: the outer call never returns. */
  lemma NestedCallBlocks(h: Handle, k: Handle)
    requires h != k
    ensures var steps := [Setup(0, 1), Miss(0, None), Opened(0, h), Miss(0, Some(0)), Opened(1, k), Return(1)];
      && CanRun(INIT, steps)
      && var t := After(INIT, steps); t.calls.Keys == {0} && !Enabled(t, Return(0))
  {
    hide CanRun, After, Users, Load, Max;
    var s1 := Do(INIT, Setup(0, 1));
    var s2 := Do(s1, Miss(0, None));
    var s3 := Do(s2, Opened(0, h));
    assert s3.calls == map[0 := Held(0, None, true, h)] && s3.pools == map[0 := Pool(1, [])];
    assert {} + {h} == {h} && s3.sessions == map[0 := {h}];
    Nested(s3, h, k);
    Cons(s2, [Opened(0, h), Miss(0, Some(0)), Opened(1, k), Return(1)]);
    Cons(s1, [Miss(0, None), Opened(0, h), Miss(0, Some(0)), Opened(1, k), Return(1)]);
    Cons(INIT, [Setup(0, 1), Miss(0, None), Opened(0, h), Miss(0, Some(0)), Opened(1, k), Return(1)]);
  }

  lemma SecondOpens(s: State, h: Handle, k: Handle)
    requires h != k && s.pools == map[0 := Pool(1, [])] && s.sessions == map[0 := {h}]
    requires s.calls == map[0 := Held(0, None, true, h), 1 := Missed(0, Some(0), true)]
    ensures Enabled(s, Opened(1, k))
    ensures var t := Do(s, Opened(1, k));
      t.pools == s.pools && t.calls == map[0 := Held(0, None, true, h), 1 := Held(0, Some(0), true, k)]
  {}

  lemma Nested(s: State, h: Handle, k: Handle)
    requires h != k && s.pools == map[0 := Pool(1, [])] && s.sessions == map[0 := {h}] && s.next == 1
    requires s.calls == map[0 := Held(0, None, true, h)]
    ensures var steps := [Miss(0, Some(0)), Opened(1, k), Return(1)];
      && CanRun(s, steps)
      && var t := After(s, steps); t.calls.Keys == {0} && !Enabled(t, Return(0))
  {
    hide CanRun, After, Users, Load, Begin;
    SecondMiss(s, Some(0), h);
    var s1 := Do(s, Miss(0, Some(0)));
    assert s1.calls == map[0 := Held(0, None, true, h), 1 := Missed(0, Some(0), true)];
    SecondOpens(s1, h, k);
    var s2 := Do(s1, Opened(1, k));
    var s3 := Do(s2, Return(1));
    Nil(s3);
    Cons(s2, [Return(1)]);
    Cons(s1, [Opened(1, k), Return(1)]);
    Cons(s, [Miss(0, Some(0)), Opened(1, k), Return(1)]);
    assert s3.pools[0].free == [k];
  }
}
