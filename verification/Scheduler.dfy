/** The selection of the tasks to run (tasks/scheduler.go). */
module Scheduler {
  import opened Tasks

  /** What ShouldRun looks at. */
  datatype View = View(nextRunAt: int, running: bool)

  predicate Sorted(views: seq<View>) {
    forall i, j | 0 <= i < j < |views| :: views[i].nextRunAt <= views[j].nextRunAt
  }

  predicate ShouldRun(v: View, now: int) {
    !v.running && Due(v.nextRunAt, now)
  }

  /** Each task is asked at its own reading of the clock. */
  predicate Ticking(clock: seq<int>) {
    forall i, j | 0 <= i < j < |clock| :: clock[i] <= clock[j]
  }

  /** The first n tasks should run, and the one after them should not. */
  predicate Prefix(views: seq<View>, clock: seq<int>, n: nat)
    requires |clock| == |views|
  {
    && n <= |views|
    && (forall i | 0 <= i < n :: ShouldRun(views[i], clock[i]))
    && (n < |views| ==> !ShouldRun(views[n], clock[n]))
  }

  /** When no task runs, the prefix holds every task that was due at the start of the selection,
      and only tasks that are due at its end. */
  lemma IdleSelection(views: seq<View>, clock: seq<int>, n: nat, i: nat)
    requires |clock| == |views| && Sorted(views) && Ticking(clock) && Prefix(views, clock, n)
    requires forall v | v in views :: !v.running
    requires i < |views|
    ensures Due(views[i].nextRunAt, clock[0]) ==> i < n
    ensures i < n ==> Due(views[i].nextRunAt, clock[|clock| - 1])
  {}

  /** At one reading of the clock all tasks that should run are selected exactly if no running
      task comes before one of them: a running task cuts the selection short. */
  lemma CompleteExactly(views: seq<View>, now: int, n: nat)
    requires Sorted(views) && Prefix(views, seq(|views|, _ => now), n)
    ensures (forall i | 0 <= i < |views| && ShouldRun(views[i], now) :: i < n)
            <==> forall i, j | 0 <= i < j < |views| && views[i].running :: !ShouldRun(views[j], now)
  {}

  /** A running task that is due first hides one that should run. */
  lemma RunningTaskHides(now: int)
    ensures var views := [View(now - 2, true), View(now - 1, false)];
      Sorted(views) && Prefix(views, [now, now], 0) && ShouldRun(views[1], now)
  {}

  class Pool {
    var tasks: seq<Task>

    constructor ()
      ensures tasks == []
    {
      tasks := [];
    }

    method Add(task: Task)
      modifies this
      ensures tasks == old(tasks) + [task]
    {
      tasks := tasks + [task];
    }

    /** sort.Sort with Less and Swap: some order by next run. */
    method Sort()
      modifies this
      ensures multiset(tasks) == multiset(old(tasks)) && Sorted(ViewsOf(tasks))
    {
      var n := 0;
      while n < |tasks|
        invariant 0 <= n <= |tasks| && multiset(tasks) == multiset(old(tasks))
        invariant InOrder(tasks[..n])
      {
        tasks := Insert(tasks, n);
        n := n + 1;
      }
      assert tasks[..n] == tasks;
    }

    /** The tasks to run, from the front of the sorted list. */
    method GetRunnableTasks(clock: seq<int>) returns (runnable: seq<Task>)
      requires |clock| == |tasks|
      modifies this
      ensures multiset(tasks) == multiset(old(tasks)) && Sorted(ViewsOf(tasks))
      ensures runnable <= tasks && |clock| == |tasks|
      ensures Prefix(ViewsOf(tasks), clock, |runnable|)
    {
      ghost var before := tasks;
      Sort();
      SameLength(before, tasks);
      runnable := [];
      for i := 0 to |tasks|
        invariant |runnable| == i && runnable == tasks[..i]
        invariant forall k | 0 <= k < i :: ShouldRun(ViewsOf(tasks)[k], clock[k])
      {
        var j := tasks[i];
        if !j.running && Due(j.nextRunAt, clock[i]) {
          runnable := runnable + [j];
        } else {
          break;
        }
      }
    }
  }

  ghost function ViewsOf(tasks: seq<Task>): (v: seq<View>)
    reads tasks
    ensures |v| == |tasks|
    ensures forall i | 0 <= i < |tasks| :: v[i] == View(tasks[i].nextRunAt, tasks[i].running)
  {
    seq(|tasks|, i requires 0 <= i < |tasks| reads tasks => View(tasks[i].nextRunAt, tasks[i].running))
  }

  ghost predicate InOrder(tasks: seq<Task>)
    reads tasks
  {
    forall i, j | 0 <= i < j < |tasks| :: tasks[i].nextRunAt <= tasks[j].nextRunAt
  }

  lemma SameLength<T>(a: seq<T>, b: seq<T>)
    requires multiset(a) == multiset(b)
    ensures |a| == |b|
  {
    assert |multiset(a)| == |a| && |multiset(b)| == |b|;
  }

  /** Task n swapped down to its place among the sorted tasks before it. */
  method Insert(tasks: seq<Task>, n: nat) returns (result: seq<Task>)
    requires n < |tasks| && InOrder(tasks[..n])
    ensures |result| == |tasks| && multiset(result) == multiset(tasks)
    ensures InOrder(result[..n + 1])
  {
    hide InOrder, InOrderBut;
    result := tasks;
    var k := n;
    Ends(tasks, n, n);
    while k > 0 && result[k].nextRunAt < result[k - 1].nextRunAt
      invariant 0 <= k <= n && |result| == |tasks| && multiset(result) == multiset(tasks)
      invariant InOrderBut(result, n, k)
    {
      Swapped(result, n, k);
      SameMultiset(result, k - 1, k);
      result := result[k - 1 := result[k]][k := result[k - 1]];
      k := k - 1;
    }
    Ends(result, n, k);
  }

  /** The tasks up to n are in order but for task k, which may come too late. */
  ghost predicate InOrderBut(tasks: seq<Task>, n: nat, k: nat)
    requires n < |tasks|
    reads tasks
  {
    forall i, j | 0 <= i < j <= n && j != k :: tasks[i].nextRunAt <= tasks[j].nextRunAt
  }

  lemma Ends(tasks: seq<Task>, n: nat, k: nat)
    requires k <= n < |tasks|
    ensures InOrder(tasks[..n]) && k == n ==> InOrderBut(tasks, n, k)
    ensures InOrderBut(tasks, n, k) && (k == 0 || tasks[k - 1].nextRunAt <= tasks[k].nextRunAt) ==>
      InOrder(tasks[..n + 1])
  {}

  lemma Swapped(s: seq<Task>, n: nat, k: nat)
    requires 0 < k <= n < |s| && InOrderBut(s, n, k) && s[k].nextRunAt < s[k - 1].nextRunAt
    ensures InOrderBut(s[k - 1 := s[k]][k := s[k - 1]], n, k - 1)
  {}

  lemma SameMultiset<T>(s: seq<T>, i: nat, j: nat)
    requires i < j < |s|
    ensures multiset(s[i := s[j]][j := s[i]]) == multiset(s)
  {}

  /** When no task runs, a selection with one reading of the clock is exactly the due tasks. */
  method SelectIdle(pool: Pool, now: int) returns (runnable: seq<Task>)
    requires forall t | t in pool.tasks :: !t.running
    modifies pool
    ensures multiset(pool.tasks) == multiset(old(pool.tasks))
    ensures runnable <= pool.tasks && Sorted(ViewsOf(runnable))
    ensures forall t :: t in runnable <==> t in old(pool.tasks) && Due(t.nextRunAt, now)
  {
    ghost var before := pool.tasks;
    var clock := seq(|pool.tasks|, _ => now);
    runnable := pool.GetRunnableTasks(clock);
    SameMembers(before, pool.tasks);
    ghost var views := ViewsOf(pool.tasks);
    assert forall v | v in views :: !v.running by {
      forall i | 0 <= i < |views| ensures !views[i].running {
        assert pool.tasks[i] in before;
      }
    }
    forall i | 0 <= i < |views| ensures i < |runnable| <==> Due(views[i].nextRunAt, now) {
      IdleSelection(views, clock, |runnable|, i);
    }
  }

  lemma SameMembers<T>(a: seq<T>, b: seq<T>)
    requires multiset(a) == multiset(b)
    ensures forall x :: x in a <==> x in b
  {
    forall x ensures x in a <==> x in b {
      assert x in multiset(a) <==> x in multiset(b);
    }
  }
}
