/**
 The periodic task runner with a fixed set of tasks.  The clock counts nanoseconds; periods are whole
 milliseconds, and a task's next run is computed from the clock cut to milliseconds.
 */
module Scheduler {
  import opened Option

  const MS: nat := 1_000_000

  /** period in milliseconds, nextRun in nanoseconds */
  datatype Task = Task(period: nat, nextRun: nat)

  datatype Launch = Launch(task: nat, time: nat)

  /** launches is history. */
  datatype State = State(tasks: seq<Task>, clock: nat, launches: seq<Launch>)

  /** One iteration of the runner: sleep_until returns at `wake`, update reads the clock at `now`. */
  datatype Iteration = Iteration(task: nat, wake: nat, now: nat)

  /** std::min_element: the first of the tasks that are due earliest. */
  predicate IsMinElement(tasks: seq<Task>, i: nat) {
    i < |tasks| && (forall k | 0 <= k < |tasks| :: tasks[i].nextRun <= tasks[k].nextRun) &&
    forall k | 0 <= k < i :: tasks[i].nextRun < tasks[k].nextRun
  }

  predicate Enabled(s: State, it: Iteration) {
    IsMinElement(s.tasks, it.task) && s.clock <= it.wake <= it.now && s.tasks[it.task].nextRun <= it.wake
  }

  function Updated(task: Task, now: nat): Task {
    task.(nextRun := now / MS * MS + task.period * MS)
  }

  /** The next run is the last whole millisecond that is no later than a period from now. */
  lemma NextDue(task: Task, now: nat)
    ensures var due := Updated(task, now).nextRun;
      due % MS == 0 && due <= now + task.period * MS < due + MS && Updated(task, now).period == task.period
  {
    var ms := now / MS;
    assert (ms + task.period) * MS == ms * MS + task.period * MS;
    assert (ms + task.period) * MS % MS == 0;
  }

  function Next(s: State, it: Iteration): State
    requires Enabled(s, it)
  {
    State(s.tasks[it.task := Updated(s.tasks[it.task], it.now)], it.now, s.launches + [Launch(it.task, it.wake)])
  }

  ghost predicate IsRun(s: State, its: seq<Iteration>)
    decreases its
  {
    its != [] ==> Enabled(s, its[0]) && IsRun(Next(s, its[0]), its[1..])
  }

  ghost function Run(s: State, its: seq<Iteration>): State
    requires IsRun(s, its)
    decreases its
  {
    if its == [] then s else Run(Next(s, its[0]), its[1..])
  }

  // ----- Launches of one task are a period apart

  /** The next run of a task lies a period, in whole milliseconds, behind each of its launches, and any two
      launches of a task are that far apart. */
  ghost predicate Inv(s: State) {
    (forall m | 0 <= m < |s.launches| :: s.launches[m].task < |s.tasks| &&
       s.launches[m].time / MS + s.tasks[s.launches[m].task].period <= s.tasks[s.launches[m].task].nextRun / MS) &&
    forall m, n | 0 <= m < n < |s.launches| && s.launches[m].task == s.launches[n].task ::
      s.launches[m].time / MS + s.tasks[s.launches[m].task].period <= s.launches[n].time / MS
  }

  lemma UpdatedMs(task: Task, now: nat)
    ensures Updated(task, now).nextRun / MS == now / MS + task.period
  {}

  lemma NextInv(s: State, it: Iteration)
    requires Inv(s) && Enabled(s, it)
    ensures Inv(Next(s, it))
  {
    UpdatedMs(s.tasks[it.task], it.now);
    Monotone(it.wake, it.now);
    Monotone(s.tasks[it.task].nextRun, it.wake);
    hide Updated;
  }

  lemma Monotone(a: nat, b: nat)
    requires a <= b
    ensures a / MS <= b / MS
  {}

  lemma {:induction false} RunInv(s: State, its: seq<Iteration>)
    requires Inv(s) && IsRun(s, its)
    ensures Inv(Run(s, its)) && |Run(s, its).tasks| == |s.tasks|
    ensures forall i | 0 <= i < |s.tasks| :: Run(s, its).tasks[i].period == s.tasks[i].period
    decreases its
  {
    if its != [] {
      NextInv(s, its[0]);
      hide Inv;
      RunInv(Next(s, its[0]), its[1..]);
    }
  }

  /** Two launches of one task are at least its period apart in whole milliseconds, so they are less than
      one millisecond short of it. */
  lemma PeriodApart(s: State, its: seq<Iteration>, m: nat, n: nat)
    requires s.launches == [] && IsRun(s, its)
    requires m < n < |Run(s, its).launches| && Run(s, its).launches[m].task == Run(s, its).launches[n].task
    ensures var t := Run(s, its); var first, second := t.launches[m], t.launches[n];
      first.task < |s.tasks| && second.time / MS >= first.time / MS + s.tasks[first.task].period &&
      second.time + MS > first.time + s.tasks[first.task].period * MS
  {
    RunInv(s, its);
    var t := Run(s, its);
    var a, b, p := t.launches[m].time, t.launches[n].time, s.tasks[t.launches[m].task].period;
    assert a / MS + p <= b / MS;
    Apart(a, b, p);
  }

  lemma Apart(a: nat, b: nat, p: nat)
    requires a / MS + p <= b / MS
    ensures b + MS > a + p * MS
  {}

  /** In nanoseconds the period is not kept: a task of period 1 ms can run again after one nanosecond. */
  lemma ShortGap()
    ensures var s := State([Task(1, 0)], 0, []);
      var its := [Iteration(0, 999_999, 999_999), Iteration(0, 1_000_000, 1_000_000)];
      IsRun(s, its) && Run(s, its).launches == [Launch(0, 999_999), Launch(0, 1_000_000)]
  {}

  // ----- Every task gets its turn

  /** How often a task can still be launched before another one that is due at nextRun. */
  function Lead(task: Task, nextRun: nat): nat
    requires task.period > 0
  {
    if task.nextRun <= nextRun then (nextRun / MS - task.nextRun / MS) / task.period + 1 else 0
  }

  predicate Positive(tasks: seq<Task>) {
    forall i | 0 <= i < |tasks| :: tasks[i].period > 0
  }

  /** The launches of the other tasks that can come before the next launch of task j. */
  function Backlog(tasks: seq<Task>, j: nat, n: nat): nat
    requires Positive(tasks) && j < |tasks| && n <= |tasks|
  {
    if n == 0 then 0
    else Backlog(tasks, j, n - 1) + if n - 1 == j then 0 else Lead(tasks[n - 1], tasks[j].nextRun)
  }

  lemma DivDrop(x: nat, y: nat, p: nat)
    requires p > 0 && y + p <= x
    ensures y / p + 1 <= x / p
  {}

  /** A launch of a task that is due no later uses up one of its launches. */
  lemma LeadDrops(task: Task, now: nat, nextRun: nat)
    requires task.period > 0 && task.nextRun <= nextRun && task.nextRun <= now
    ensures Lead(Updated(task, now), nextRun) < Lead(task, nextRun)
  {
    UpdatedMs(task, now);
    Monotone(task.nextRun, now);
    Monotone(task.nextRun, nextRun);
    var updated := Updated(task, now);
    hide Updated;
    if updated.nextRun <= nextRun {
      Monotone(updated.nextRun, nextRun);
      DivDrop(nextRun / MS - task.nextRun / MS, nextRun / MS - updated.nextRun / MS, task.period);
    }
  }

  lemma {:induction false} BacklogDrops(tasks: seq<Task>, j: nat, i: nat, now: nat, n: nat)
    requires Positive(tasks) && j < |tasks| && i < |tasks| && i != j && n <= |tasks|
    requires tasks[i].nextRun <= tasks[j].nextRun && tasks[i].nextRun <= now
    ensures Positive(tasks[i := Updated(tasks[i], now)])
    ensures var tasks' := tasks[i := Updated(tasks[i], now)];
      if i < n then Backlog(tasks', j, n) < Backlog(tasks, j, n) else Backlog(tasks', j, n) == Backlog(tasks, j, n)
  {
    hide Lead, Updated;
    assert Updated(tasks[i], now).period == tasks[i].period by { UpdatedPeriod(tasks[i], now); }
    if n > 0 {
      BacklogDrops(tasks, j, i, now, n - 1);
      LeadDrops(tasks[i], now, tasks[j].nextRun);
    }
  }

  lemma UpdatedPeriod(task: Task, now: nat)
    ensures Updated(task, now).period == task.period
  {}

  /** Whatever the clock does, task j is among the next Backlog + 1 launches. */
  lemma {:induction false} Fair(s: State, its: seq<Iteration>, j: nat) returns (n: nat)
    requires IsRun(s, its) && Positive(s.tasks) && j < |s.tasks|
    requires |its| > Backlog(s.tasks, j, |s.tasks|)
    ensures n <= Backlog(s.tasks, j, |s.tasks|) && n < |its| && its[n].task == j
    decreases its
  {
    hide Backlog, Updated;
    var it := its[0];
    if it.task == j {
      n := 0;
    } else {
      BacklogDrops(s.tasks, j, it.task, it.now, |s.tasks|);
      n := Fair(Next(s, it), its[1..], j);
      n := n + 1;
    }
  }

  // ----- When the period is kept to the nanosecond

  lemma {:induction false} HasMinElement(tasks: seq<Task>) returns (i: nat)
    requires tasks != []
    ensures IsMinElement(tasks, i)
  {
    var last := |tasks| - 1;
    if last == 0 {
      i := 0;
    } else {
      i := HasMinElement(tasks[..last]);
      assert forall k | 0 <= k < last :: tasks[..last][k] == tasks[k];
      if tasks[last].nextRun < tasks[i].nextRun {
        i := last;
      }
    }
  }

  /** Some run launches task j at the very moment it is due. */
  lemma {:induction false} LaunchedWhenDue(s: State, j: nat) returns (its: seq<Iteration>)
    requires Positive(s.tasks) && j < |s.tasks| && s.clock <= s.tasks[j].nextRun
    ensures IsRun(s, its) && its != []
    ensures its[|its| - 1].task == j && its[|its| - 1].wake == s.tasks[j].nextRun
    decreases Backlog(s.tasks, j, |s.tasks|)
  {
    var i := HasMinElement(s.tasks);
    var due := s.tasks[i].nextRun;
    var wake := if s.clock < due then due else s.clock;
    var it := Iteration(i, wake, wake);
    hide Backlog, Updated;
    if i == j {
      its := [it];
    } else {
      BacklogDrops(s.tasks, j, i, wake, |s.tasks|);
      var rest := LaunchedWhenDue(Next(s, it), j);
      its := [it] + rest;
      assert its[1..] == rest;
    }
  }

  /** No run launches task j before a time that neither the clock nor the task's next run is before. */
  lemma {:induction false} NotBeforeDue(s: State, its: seq<Iteration>, n: nat, j: nat, time: nat)
    requires IsRun(s, its) && n < |its| && its[n].task == j < |s.tasks|
    requires s.clock >= time || s.tasks[j].nextRun >= time
    ensures its[n].wake >= time
    decreases its
  {
    if n > 0 {
      hide Updated;
      NotBeforeDue(Next(s, its[0]), its[1..], n - 1, j, time);
    }
  }

  /** Whatever happens after this iteration, its task is not launched again within its period. */
  ghost predicate KeepsPeriod(s: State, it: Iteration)
    requires Enabled(s, it)
  {
    forall its: seq<Iteration>, n: nat | IsRun(Next(s, it), its) && n < |its| && its[n].task == it.task ::
      its[n].wake >= it.wake + s.tasks[it.task].period * MS
  }

  /** The period is kept to the nanosecond exactly when cutting the clock to milliseconds does not cut away
      the moment of the launch. */
  lemma PeriodExact(s: State, it: Iteration)
    requires Enabled(s, it) && Positive(s.tasks)
    ensures KeepsPeriod(s, it) <==> it.now / MS * MS >= it.wake
  {
    var j, t := it.task, Next(s, it);
    var due := t.tasks[j].nextRun;
    assert due == it.now / MS * MS + s.tasks[j].period * MS;
    if it.now / MS * MS >= it.wake {
      forall its: seq<Iteration>, n: nat | IsRun(t, its) && n < |its| && its[n].task == j ensures its[n].wake >= due {
        NotBeforeDue(t, its, n, j, due);
      }
    } else {
      UpdatedPeriod(s.tasks[j], it.now);
      var its := LaunchedWhenDue(t, j);
      assert IsRun(t, its) && its[|its| - 1].task == j;
      assert due < it.wake + s.tasks[j].period * MS;
    }
  }

  // ----- The pool of futures

  /** std::remove_if on the pool: the futures that are not ready, in their order. */
  function Unfinished(pool: seq<nat>, ready: set<nat>): (rest: seq<nat>)
    ensures forall k :: k in rest <==> k in pool && k !in ready
  {
    if pool == [] then [] else
      var last := |pool| - 1;
      Unfinished(pool[..last], ready) + if pool[last] in ready then [] else [pool[last]]
  }

  predicate Ascending(pool: seq<nat>) {
    forall i, j | 0 <= i < j < |pool| :: pool[i] < pool[j]
  }

  lemma AscendingAppend(pool: seq<nat>, k: nat)
    requires Ascending(pool) && forall i | i in pool :: i < k
    ensures Ascending(pool + [k])
  {
    assert forall i | 0 <= i < |pool| :: pool[i] in pool;
  }

  lemma {:induction false} UnfinishedAscends(pool: seq<nat>, ready: set<nat>)
    requires Ascending(pool)
    ensures Ascending(Unfinished(pool, ready))
  {
    if pool != [] {
      var last := |pool| - 1;
      UnfinishedAscends(pool[..last], ready);
      AscendingAppend(Unfinished(pool[..last], ready), pool[last]);
    }
  }

  // ----- The runner as code

  function Later(a: nat, b: nat): (c: nat)
    ensures a <= c && b <= c && (c == a || c == b)
  {
    if a < b then b else a
  }

  class Scheduler {
    var tasks: seq<Task>
    var clock: nat
    var nextCollection: nat
    var started: nat       // numbers the futures
    var futures: seq<nat>  // the launches whose futures are in the pool
    ghost var launches: seq<Launch>
    ghost var finished: set<nat>  // the launches seen to be done

    ghost function View(): State
      reads this
    {
      State(tasks, clock, launches)
    }

    /** The pool holds every launch that is not known to be done, once and in order. */
    ghost predicate Valid()
      reads this
    {
      started == |launches| && Ascending(futures) && (forall k | k in futures :: k < |launches|) &&
      forall k | 0 <= k < |launches| :: k in futures || k in finished
    }

    constructor (initial: seq<Task>)
      ensures Valid() && View() == State(initial, 0, [])
    {
      tasks, clock, launches := initial, 0, [];
      nextCollection, started, futures, finished := 0, 0, [], {};
    }

    /** One iteration of RunnerThread.  The thread wakes `late` after the later of the present and the next
        run, and the clock moves on by `spent` until update reads it. */
    method RunOnce(late: nat, spent: nat) returns (it: Option<Iteration>)
      requires Valid()
      modifies `tasks, `clock, `launches, `started, `futures
      ensures Valid()
      ensures it.None? <==> old(tasks) == []
      ensures it.None? ==> tasks == old(tasks) && launches == old(launches) && clock == old(clock) + 100 * MS + late
      ensures futures == old(futures) + if it.Some? then [|old(launches)|] else []
      ensures it.Some? ==> old(View()).tasks != [] && Enabled(old(View()), it.value)
      ensures it.Some? ==> View() == Next(old(View()), it.value)
      ensures it.Some? ==> it.value.wake == Later(old(clock), old(tasks)[it.value.task].nextRun) + late
      ensures it.Some? ==> it.value.now == it.value.wake + spent == clock
      ensures it.Some? ==> launches == old(launches) + [Launch(it.value.task, it.value.wake)]
    {
      if tasks == [] {
        clock := clock + 100 * MS + late;
        return None;
      }
      var nextTask := MinElement(tasks);
      var nextRun := tasks[nextTask].nextRun;
      var wake := Later(clock, nextRun) + late;
      var now := wake + spent;
      AscendingAppend(futures, started);
      futures, started := futures + [started], started + 1;
      launches := launches + [Launch(nextTask, wake)];
      tasks := tasks[nextTask := Updated(tasks[nextTask], now)];
      clock := now;
      it := Some(Iteration(nextTask, wake, now));
    }

    /** The clean-up after an iteration, at most every ten seconds.  `ready` are the launches that are done when
        it reads the clock; what was done stays done.  Nothing unfinished is dropped. */
    method CollectFutures(spent: nat, ready: set<nat>)
      requires Valid() && finished <= ready
      modifies `clock, `nextCollection, `futures, `finished
      ensures Valid() && clock == old(clock) + spent && finished == ready
      ensures clock <= old(nextCollection) ==> futures == old(futures) && nextCollection == old(nextCollection)
      ensures clock > old(nextCollection) ==> nextCollection == clock + 10_000 * MS
      ensures clock > old(nextCollection) ==> forall k | 0 <= k < |launches| :: k in futures <==> k !in ready
    {
      clock := clock + spent;
      finished := ready;
      if clock > nextCollection {
        nextCollection := clock + 10_000 * MS;
        UnfinishedAscends(futures, ready);
        futures := RemoveIf(futures, ready);
      }
    }
  }

  method RemoveIf(pool: seq<nat>, ready: set<nat>) returns (rest: seq<nat>)
    ensures rest == Unfinished(pool, ready)
  {
    rest := [];
    for k := 0 to |pool|
      invariant rest == Unfinished(pool[..k], ready)
    {
      if pool[k] !in ready {
        rest := rest + [pool[k]];
      }
      assert pool[..k + 1][..k] == pool[..k];
    }
    assert pool[..|pool|] == pool;
  }

  method MinElement(tasks: seq<Task>) returns (smallest: nat)
    requires tasks != []
    ensures IsMinElement(tasks, smallest)
  {
    smallest := 0;
    for i := 1 to |tasks|
      invariant smallest < i && (forall k | 0 <= k < i :: tasks[smallest].nextRun <= tasks[k].nextRun)
      invariant forall k | 0 <= k < smallest :: tasks[smallest].nextRun < tasks[k].nextRun
    {
      if tasks[i].nextRun < tasks[smallest].nextRun {
        smallest := i;
      }
    }
  }
}
