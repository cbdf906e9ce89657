/** The bounded fan-out used by ScanAll, ScanAllNodeActivities and ScanAllNodeBuffers: a loop
    that launches one goroutine per job behind a semaphore channel, a wait group, and a map
    filled under a lock. One action is one channel, lock or atomic operation. */
module WorkerPool {
  import opened Wrappers
  import opened Fanout

  /** What a job came to: the value it stores under its key, if any, and whether it failed. */
  datatype Outcome<+V> = Outcome(value: Option<V>, failed: bool)

  /** A goroutine: scanning, then counting its error, storing, freeing its semaphore slot and
      leaving the wait group (the deferred calls run in that order). */
  datatype Task<+V> =
    | Running
    | Scanned(outcome: Outcome<V>)
    | Tallied(outcome: Outcome<V>)
    | Stored(outcome: Outcome<V>)
    | Released(outcome: Outcome<V>)
    | Finished(outcome: Outcome<V>)

  /** The launching loop: at its head, before wg.Add, blocked on the semaphore, in wg.Wait. */
  datatype Launcher = AtHead | Adding | Acquiring | Waiting | Done

  datatype Pool<V> = Pool(
    keys: seq<string>, workers: nat,
    launcher: Launcher, tasks: seq<Task<V>>,
    sem: nat, wg: nat, cancelled: bool,
    results: map<string, V>, errors: nat,
    stored: seq<nat>)  // history: the tasks that wrote the map, in lock order

  datatype Action<+V> =
    | Cancel
    | Check
    | Add
    | Acquire
    | Scan(i: nat, outcome: Outcome<V>)
    | Tally(i: nat)
    | Store(i: nat)
    | Release(i: nat)
    | Finish(i: nat)
    | Join

  function Start<V>(keys: seq<string>, workers: nat): Pool<V> {
    Pool(keys, workers, AtHead, [], 0, 0, false, map[], 0, [])
  }

  predicate Enabled<V>(p: Pool<V>, a: Action<V>) {
    match a
    case Cancel => !p.cancelled
    case Check => p.launcher.AtHead?
    case Add => p.launcher.Adding?
    case Acquire => p.launcher.Acquiring? && p.sem < p.workers
    case Scan(i, _) => i < |p.tasks| && p.tasks[i].Running?
    case Tally(i) => i < |p.tasks| && p.tasks[i].Scanned?
    case Store(i) => i < |p.tasks| && p.tasks[i].Tallied?
    case Release(i) => i < |p.tasks| && p.tasks[i].Stored? && p.sem > 0
    case Finish(i) => i < |p.tasks| && p.tasks[i].Released? && p.wg > 0
    case Join => p.launcher.Waiting? && p.wg == 0
  }

  function Do<V>(p: Pool<V>, a: Action<V>): Pool<V>
    requires Enabled(p, a) && |p.tasks| <= |p.keys|
  {
    match a
    case Cancel => p.(cancelled := true)
    case Check => p.(launcher := if |p.tasks| == |p.keys| || p.cancelled then Waiting else Adding)
    case Add => p.(wg := p.wg + 1, launcher := Acquiring)
    case Acquire => p.(sem := p.sem + 1, tasks := p.tasks + [Running], launcher := AtHead)
    case Scan(i, outcome) => p.(tasks := p.tasks[i := Scanned(outcome)])
    case Tally(i) =>
      var o := p.tasks[i].outcome;
      p.(tasks := p.tasks[i := Tallied(o)], errors := p.errors + if o.failed then 1 else 0)
    case Store(i) =>
      var o := p.tasks[i].outcome;
      if o.value.None? then p.(tasks := p.tasks[i := Stored(o)])
      else p.(tasks := p.tasks[i := Stored(o)],
              results := p.results[p.keys[i] := o.value.value], stored := p.stored + [i])
    case Release(i) => p.(sem := p.sem - 1, tasks := p.tasks[i := Released(p.tasks[i].outcome)])
    case Finish(i) => p.(wg := p.wg - 1, tasks := p.tasks[i := Finished(p.tasks[i].outcome)])
    case Join => p.(launcher := Done)
  }

  // ---- counting tasks ----------------------------------------------------------------------

  datatype Kind = Slots | Unfinished | Errors | Failed | Work

  /** Semaphore slots held, wait-group units held, errors counted, scans that failed, and actions
      still to come. */
  function Weight<V>(kind: Kind, t: Task<V>): nat {
    match kind
    case Slots => if t.Released? || t.Finished? then 0 else 1
    case Unfinished => if t.Finished? then 0 else 1
    case Errors => if t.Running? || t.Scanned? || !t.outcome.failed then 0 else 1
    case Failed => if t.Running? || !t.outcome.failed then 0 else 1
    case Work =>
      match t
      case Running => 5
      case Scanned(_) => 4
      case Tallied(_) => 3
      case Stored(_) => 2
      case Released(_) => 1
      case Finished(_) => 0
  }

  function Total<V>(kind: Kind, tasks: seq<Task<V>>): nat {
    if tasks == [] then 0 else Total(kind, tasks[..|tasks| - 1]) + Weight(kind, tasks[|tasks| - 1])
  }

  lemma {:induction false} TotalUpdate<V>(kind: Kind, tasks: seq<Task<V>>, i: nat, t: Task<V>)
    requires i < |tasks|
    ensures Total(kind, tasks[i := t]) == Total(kind, tasks) - Weight(kind, tasks[i]) + Weight(kind, t)
    ensures Total(kind, tasks) >= Weight(kind, tasks[i])
  {
    var n := |tasks| - 1;
    if i == n {
      assert tasks[i := t][..n] == tasks[..n];
    } else {
      assert tasks[i := t][..n] == tasks[..n][i := t];
      TotalUpdate(kind, tasks[..n], i, t);
    }
  }

  lemma TotalSnoc<V>(kind: Kind, tasks: seq<Task<V>>, t: Task<V>)
    ensures Total(kind, tasks + [t]) == Total(kind, tasks) + Weight(kind, t)
  {
    assert (tasks + [t])[..|tasks|] == tasks;
  }

  lemma {:induction false} TotalZero<V>(kind: Kind, tasks: seq<Task<V>>)
    requires Total(kind, tasks) == 0
    ensures forall i :: 0 <= i < |tasks| ==> Weight(kind, tasks[i]) == 0
  {
    if tasks != [] {
      TotalZero(kind, tasks[..|tasks| - 1]);
    }
  }

  // ---- the invariant ----------------------------------------------------------------------------

  predicate HasStored<V>(t: Task<V>) {
    (t.Stored? || t.Released? || t.Finished?) && t.outcome.value.Some?
  }

  /** The history names exactly the tasks that have stored a value, each once. */
  predicate HistoryFits<V>(p: Pool<V>) {
    && (forall k :: 0 <= k < |p.stored| ==> p.stored[k] < |p.tasks| && HasStored(p.tasks[p.stored[k]]))
    && (forall j, k :: 0 <= j < k < |p.stored| ==> p.stored[j] != p.stored[k])
    && (forall i :: 0 <= i < |p.tasks| && HasStored(p.tasks[i]) ==> i in p.stored)
  }

  /** The map writes of the history. */
  function Writes<V>(p: Pool<V>): seq<Write<string, V>>
    requires |p.tasks| <= |p.keys| && HistoryFits(p)
  {
    seq(|p.stored|, k requires 0 <= k < |p.stored| =>
      Write(p.keys[p.stored[k]], p.tasks[p.stored[k]].outcome.value.value))
  }

  /** The launcher, the semaphore, the wait group and the error counter agree with the tasks. */
  predicate Counters<V>(p: Pool<V>) {
    && |p.tasks| <= |p.keys|
    && (p.launcher.Adding? || p.launcher.Acquiring? ==> |p.tasks| < |p.keys|)
    && p.sem == Total(Slots, p.tasks) <= p.workers
    && p.wg == Total(Unfinished, p.tasks) + (if p.launcher.Acquiring? then 1 else 0)
    && p.errors == Total(Errors, p.tasks)
    && (p.launcher.Waiting? || p.launcher.Done? ==> |p.tasks| == |p.keys| || p.cancelled)
    && (p.launcher.Done? ==> p.wg == 0)
  }

  /** The map is what its history of writes made it. */
  ghost predicate MapFits<V>(p: Pool<V>) {
    |p.tasks| <= |p.keys| && HistoryFits(p) && p.results == Apply(Writes(p))
  }

  ghost predicate Inv<V>(p: Pool<V>) {
    Counters(p) && MapFits(p)
  }

  lemma StartInv<V>(keys: seq<string>, workers: nat)
    ensures Inv(Start<V>(keys, workers))
  {
  }

  lemma MapUnchanged<V>(p: Pool<V>, q: Pool<V>)
    requires MapFits(p) && |p.tasks| <= |q.tasks| <= |q.keys|
    requires q.keys == p.keys && q.stored == p.stored && q.results == p.results
    requires forall i :: 0 <= i < |p.tasks| && HasStored(p.tasks[i]) ==>
               HasStored(q.tasks[i]) && q.tasks[i].outcome == p.tasks[i].outcome
    requires forall i :: 0 <= i < |q.tasks| && HasStored(q.tasks[i]) ==> i < |p.tasks| && HasStored(p.tasks[i])
    ensures MapFits(q)
  {
    assert HistoryFits(q);
    assert Writes(q) == Writes(p);
  }

  predicate MovesTask<V>(a: Action<V>) {
    a.Scan? || a.Tally? || a.Store? || a.Release? || a.Finish?
  }

  lemma MoveTotal<V>(kind: Kind, p: Pool<V>, a: Action<V>)
    requires |p.tasks| <= |p.keys| && Enabled(p, a) && MovesTask(a)
    ensures var q := Do(p, a);
            && |q.tasks| == |p.tasks|
            && Total(kind, q.tasks) == Total(kind, p.tasks) - Weight(kind, p.tasks[a.i]) + Weight(kind, q.tasks[a.i])
  {
    var t := Do(p, a).tasks[a.i];
    assert Do(p, a).tasks == p.tasks[a.i := t];
    TotalUpdate(kind, p.tasks, a.i, t);
  }

  /** A task's move changes each counter by what it changes the task's weight. */
  lemma MoveWeights<V>(p: Pool<V>, a: Action<V>)
    requires |p.tasks| <= |p.keys| && Enabled(p, a) && MovesTask(a)
    ensures var q := Do(p, a);
            var before, after := p.tasks[a.i], q.tasks[a.i];
            && q.sem == p.sem - Weight(Slots, before) + Weight(Slots, after)
            && q.wg == p.wg - Weight(Unfinished, before) + Weight(Unfinished, after)
            && q.errors == p.errors - Weight(Errors, before) + Weight(Errors, after)
            && Weight(Work, after) < Weight(Work, before)
            && q.sem <= p.sem && q.wg <= p.wg
            && (q.launcher, q.keys, q.workers, q.cancelled) == (p.launcher, p.keys, p.workers, p.cancelled)
  {
    assert Do(p, a).tasks == p.tasks[a.i := Do(p, a).tasks[a.i]];
  }

  lemma MoveCounters<V>(p: Pool<V>, a: Action<V>)
    requires Counters(p) && Enabled(p, a) && MovesTask(a)
    ensures Counters(Do(p, a))
  {
    MoveTotal(Slots, p, a);
    MoveTotal(Unfinished, p, a);
    MoveTotal(Errors, p, a);
    MoveWeights(p, a);
  }

  lemma MoveMap<V>(p: Pool<V>, a: Action<V>)
    requires MapFits(p) && Enabled(p, a) && MovesTask(a)
    requires a.Store? ==> p.tasks[a.i].outcome.value.None?
    ensures MapFits(Do(p, a))
  {
    MapUnchanged(p, Do(p, a));
  }

  lemma StoreMap<V>(p: Pool<V>, a: Action<V>)
    requires MapFits(p) && Enabled(p, a) && a.Store? && p.tasks[a.i].outcome.value.Some?
    ensures MapFits(Do(p, a))
  {
    var q := Do(p, a);
    assert !HasStored(p.tasks[a.i]) && a.i !in p.stored;
    StoreHistory(p, a);
    var ws, w := Writes(p), Write(p.keys[a.i], p.tasks[a.i].outcome.value.value);
    assert Writes(q) == ws + [w];
    AppliedOne(ws, w);
  }

  lemma StoreHistory<V>(p: Pool<V>, a: Action<V>)
    requires |p.tasks| <= |p.keys| && HistoryFits(p)
    requires a.Store? && Enabled(p, a) && a.i !in p.stored && p.tasks[a.i].outcome.value.Some?
    ensures HistoryFits(Do(p, a))
  {
    var q := Do(p, a);
    forall i | 0 <= i < |q.tasks| && HasStored(q.tasks[i]) ensures i in q.stored {
      assert i == a.i || HasStored(p.tasks[i]);
    }
  }

  lemma LauncherInv<V>(p: Pool<V>, a: Action<V>)
    requires Inv(p) && Enabled(p, a) && !MovesTask(a)
    ensures Inv(Do(p, a))
  {
    if a.Acquire? {
      TotalSnoc<V>(Slots, p.tasks, Running);
      TotalSnoc<V>(Unfinished, p.tasks, Running);
      TotalSnoc<V>(Errors, p.tasks, Running);
    }
    MapUnchanged(p, Do(p, a));
  }

  /** Every action of every interleaving keeps the invariant. */
  lemma StepInv<V>(p: Pool<V>, a: Action<V>)
    requires Inv(p) && Enabled(p, a)
    ensures Inv(Do(p, a))
  {
    if !MovesTask(a) {
      LauncherInv(p, a);
    } else {
      MoveCounters(p, a);
      if a.Store? && p.tasks[a.i].outcome.value.Some? {
        StoreMap(p, a);
      } else {
        MoveMap(p, a);
      }
    }
  }

  // ---- runs -----------------------------------------------------------------------------------------

  /** The pool after a sequence of actions, or None when one of them was not possible. */
  function Run<V>(p: Pool<V>, actions: seq<Action<V>>): Option<Pool<V>>
    decreases |actions|
  {
    if actions == [] then Some(p)
    else if Enabled(p, actions[0]) && |p.tasks| <= |p.keys| then Run(Do(p, actions[0]), actions[1..])
    else None
  }

  lemma {:induction false} RunInv<V>(p: Pool<V>, actions: seq<Action<V>>)
    requires Inv(p) && Run(p, actions).Some?
    ensures Inv(Run(p, actions).value)
    ensures Run(p, actions).value.keys == p.keys && Run(p, actions).value.workers == p.workers
    decreases |actions|
  {
    if actions != [] {
      StepInv(p, actions[0]);
      RunInv(Do(p, actions[0]), actions[1..]);
    }
  }

  /** In every interleaving at most workers scans hold a slot, and the launched jobs are the
      first ones of the list: task i runs job i. */
  lemma NeverMoreThanWorkers<V>(keys: seq<string>, workers: nat, actions: seq<Action<V>>)
    requires Run(Start<V>(keys, workers), actions).Some?
    ensures var p := Run(Start<V>(keys, workers), actions).value;
            Total(Slots, p.tasks) <= workers && |p.tasks| <= |keys| && p.keys == keys
  {
    StartInv<V>(keys, workers);
    RunInv(Start<V>(keys, workers), actions);
  }

  lemma {:induction false} SlotsCount<V>(tasks: seq<Task<V>>, some: set<nat>)
    requires forall i :: i in some ==> i < |tasks| && !tasks[i].Released? && !tasks[i].Finished?
    ensures |some| <= Total(Slots, tasks)
  {
    if tasks == [] {
      assert forall i :: i !in some;
      assert some == {};
    } else {
      var n := |tasks| - 1;
      var fewer := some - {n};
      SlotsCount(tasks[..n], fewer);
      if n in some {
        assert some == fewer + {n};
      } else {
        assert some == fewer;
      }
    }
  }

  /** In every interleaving, any set of goroutines that are scanning, or have yet to give back their
      semaphore slot, has at most workers members. */
  lemma AtMostWorkersScan<V>(keys: seq<string>, workers: nat, actions: seq<Action<V>>, some: set<nat>)
    requires Run(Start<V>(keys, workers), actions).Some?
    requires var p := Run(Start<V>(keys, workers), actions).value;
             forall i :: i in some ==> i < |p.tasks| && (p.tasks[i].Running? || p.tasks[i].Scanned?)
    ensures |some| <= workers
  {
    StartInv<V>(keys, workers);
    RunInv(Start<V>(keys, workers), actions);
    SlotsCount(Run(Start<V>(keys, workers), actions).value.tasks, some);
  }

  /** What an interleaving leaves behind once wg.Wait has returned. */
  ghost predicate Complete<V>(p: Pool<V>)
    requires |p.tasks| <= |p.keys|
  {
    && (forall i :: 0 <= i < |p.tasks| ==> p.tasks[i].Finished?)
    && (|p.tasks| == |p.keys| || p.cancelled)
    && (forall k :: k in p.results <==>
          exists i :: 0 <= i < |p.tasks| && p.tasks[i].outcome.value.Some? && p.keys[i] == k)
  }

  function Failures<V>(tasks: seq<Task<V>>): nat
    requires forall i :: 0 <= i < |tasks| ==> tasks[i].Finished?
  {
    if tasks == [] then 0
    else Failures(tasks[..|tasks| - 1]) + if tasks[|tasks| - 1].outcome.failed then 1 else 0
  }

  lemma {:induction false} ErrorsAreFailures<V>(tasks: seq<Task<V>>)
    requires forall i :: 0 <= i < |tasks| ==> tasks[i].Finished?
    ensures Total(Errors, tasks) == Failures(tasks)
  {
    if tasks != [] {
      ErrorsAreFailures(tasks[..|tasks| - 1]);
    }
  }

  lemma {:induction false} FailuresTotal<V>(tasks: seq<Task<V>>)
    requires forall i :: 0 <= i < |tasks| ==> tasks[i].Finished?
    ensures Total(Failed, tasks) == Failures(tasks)
  {
    if tasks != [] {
      FailuresTotal(tasks[..|tasks| - 1]);
    }
  }

  lemma {:induction false} AppliedKeys<V>(ws: seq<Write<string, V>>, k: string)
    ensures k in Apply(ws) <==> exists j :: 0 <= j < |ws| && ws[j].key == k
  {
    if ws != [] {
      AppliedKeys(ws[..|ws| - 1], k);
    }
  }

  /** After the join every launched job has finished, the result keys are exactly those of the
      launched jobs that stored something, and the error count is the number of failures. */
  lemma JoinedIsComplete<V>(p: Pool<V>)
    requires Inv(p) && p.launcher.Done?
    ensures Complete(p) && p.errors == Failures(p.tasks)
  {
    TotalZero(Unfinished, p.tasks);
    assert forall i :: 0 <= i < |p.tasks| ==> Weight(Unfinished, p.tasks[i]) == 0;
    ErrorsAreFailures(p.tasks);
    var ws := Writes(p);
    forall k ensures k in p.results <==>
        exists i :: 0 <= i < |p.tasks| && p.tasks[i].outcome.value.Some? && p.keys[i] == k
    {
      AppliedKeys(ws, k);
      if k in p.results {
        var j :| 0 <= j < |ws| && ws[j].key == k;
        var i := p.stored[j];
        assert HasStored(p.tasks[i]) && p.keys[i] == k;
      }
      if i :| 0 <= i < |p.tasks| && p.tasks[i].outcome.value.Some? && p.keys[i] == k {
        assert HasStored(p.tasks[i]) && i in p.stored;
        var j :| 0 <= j < |p.stored| && p.stored[j] == i;
        assert ws[j].key == k;
      }
    }
  }

  /** With distinct keys every launched job's value is in the map under its own key. */
  lemma JoinedValues<V>(p: Pool<V>, i: nat)
    requires Inv(p) && p.launcher.Done? && Distinct(p.keys)
    requires i < |p.tasks| && p.tasks[i].Finished? && p.tasks[i].outcome.value.Some?
    ensures p.keys[i] in p.results && p.results[p.keys[i]] == p.tasks[i].outcome.value.value
  {
    var ws := Writes(p);
    assert DistinctKeys(ws);
    NothingOverwritten(ws);
    assert HasStored(p.tasks[i]) && i in p.stored;
    var j :| 0 <= j < |p.stored| && p.stored[j] == i;
    assert ws[j].key == p.keys[i];
  }

  /** With distinct keys the map depends only on which jobs were launched and on each one's
      outcome, not on how the workers interleaved. */
  lemma ResultsDetermined<V>(p: Pool<V>, q: Pool<V>)
    requires Inv(p) && p.launcher.Done? && Inv(q) && q.launcher.Done?
    requires p.keys == q.keys && Distinct(p.keys) && p.tasks == q.tasks
    ensures p.results == q.results && p.errors == q.errors
  {
    forall k | k in p.results ensures k in q.results && p.results[k] == q.results[k] {
      SameValue(p, q, k);
    }
    forall k | k in q.results ensures k in p.results {
      SameValue(q, p, k);
    }
  }

  lemma SameValue<V>(p: Pool<V>, q: Pool<V>, k: string)
    requires Inv(p) && p.launcher.Done? && Inv(q) && q.launcher.Done?
    requires p.keys == q.keys && Distinct(p.keys) && p.tasks == q.tasks
    requires k in p.results
    ensures k in q.results && p.results[k] == q.results[k]
  {
    JoinedIsComplete(p);
    var i :| 0 <= i < |p.tasks| && p.tasks[i].outcome.value.Some? && p.keys[i] == k;
    JoinedValues(p, i);
    JoinedValues(q, i);
  }

  // ---- cancellation ------------------------------------------------------------------------------------

  /** The job that a launch already begun will still start. */
  function Begun<V>(p: Pool<V>): nat {
    |p.tasks| + if p.launcher.Adding? || p.launcher.Acquiring? then 1 else 0
  }

  /** Once cancelled, the loop begins no launch: what is launched in the end is what was, and the one
      job it had passed its check for. */
  lemma {:induction false} CancelStops<V>(p: Pool<V>, actions: seq<Action<V>>)
    requires p.cancelled && Run(p, actions).Some?
    ensures var q := Run(p, actions).value;
            q.cancelled && |p.tasks| <= |q.tasks| && Begun(q) <= Begun(p)
    decreases |actions|
  {
    if actions != [] {
      CancelStep(p, actions[0]);
      CancelStops(Do(p, actions[0]), actions[1..]);
    }
  }

  lemma CancelStep<V>(p: Pool<V>, a: Action<V>)
    requires p.cancelled && Enabled(p, a) && |p.tasks| <= |p.keys|
    ensures var q := Do(p, a); q.cancelled && |p.tasks| <= |q.tasks| && Begun(q) <= Begun(p)
  {
  }

  // ---- no deadlock, and an end -------------------------------------------------------------------------

  /** While the join has not happened, some worker or the launcher can act. */
  lemma NoDeadlock<V>(p: Pool<V>, some: Outcome<V>) returns (a: Action<V>)
    requires Inv(p) && !p.launcher.Done? && p.workers >= 1
    ensures Enabled(p, a) && !a.Cancel? && (a.Scan? ==> a.outcome == some)
  {
    if p.launcher.AtHead? {
      a := Check;
    } else if p.launcher.Adding? {
      a := Add;
    } else if p.launcher.Acquiring? && p.sem < p.workers {
      a := Acquire;
    } else if p.launcher.Waiting? && p.wg == 0 {
      a := Join;
    } else {
      var i := UnfinishedTask(p.tasks);
      TotalUpdate(Slots, p.tasks, i, Finished(some));
      TotalUpdate(Unfinished, p.tasks, i, Finished(some));
      match p.tasks[i]
      case Running => a := Scan(i, some);
      case Scanned(_) => a := Tally(i);
      case Tallied(_) => a := Store(i);
      case Stored(_) => a := Release(i);
      case Released(_) => a := Finish(i);
    }
  }

  lemma {:induction false} UnfinishedTask<V>(tasks: seq<Task<V>>) returns (i: nat)
    requires Total(Unfinished, tasks) > 0 || Total(Slots, tasks) > 0
    ensures i < |tasks| && !tasks[i].Finished?
  {
    i := |tasks| - 1;
    if tasks[i].Finished? {
      i := UnfinishedTask(tasks[..i]);
    }
  }

  /** The number of actions that can still happen. */
  function Remaining<V>(p: Pool<V>): nat
    requires |p.tasks| <= |p.keys|
  {
    var left := |p.keys| - |p.tasks|;
    Total(Work, p.tasks) + (if p.cancelled then 0 else 1) +
    match p.launcher
    case AtHead => 8 * left + 2
    case Adding => 8 * left + 1
    case Acquiring => 8 * left
    case Waiting => 1
    case Done => 0
  }

  lemma EveryActionCounts<V>(p: Pool<V>, a: Action<V>)
    requires Inv(p) && Enabled(p, a)
    ensures Inv(Do(p, a)) && Remaining(Do(p, a)) < Remaining(p)
  {
    StepInv(p, a);
    WorkShrinks(p, a);
  }

  lemma WorkShrinks<V>(p: Pool<V>, a: Action<V>)
    requires Counters(p) && Enabled(p, a) && |Do(p, a).tasks| <= |p.keys|
    ensures Remaining(Do(p, a)) < Remaining(p)
  {
    if MovesTask(a) {
      MoveTotal(Work, p, a);
      MoveWeights(p, a);
    } else if a.Acquire? {
      TotalSnoc<V>(Work, p.tasks, Running);
    }
  }

  /** Every interleaving ends: no run is longer than eight actions a job and three more. */
  lemma {:induction false} RunsEnd<V>(p: Pool<V>, actions: seq<Action<V>>)
    requires Inv(p) && Run(p, actions).Some?
    ensures |actions| <= Remaining(p)
    decreases |actions|
  {
    if actions != [] {
      EveryActionCounts(p, actions[0]);
      RunsEnd(Do(p, actions[0]), actions[1..]);
    }
  }

  // ---- the theorems, over whole runs ------------------------------------------------------------------

  /** A run from the start, joined: everything launched is accounted for. */
  lemma JoinedRun<V>(keys: seq<string>, workers: nat, actions: seq<Action<V>>)
    requires Run(Start<V>(keys, workers), actions).Some?
    ensures |actions| <= 8 * |keys| + 3
    ensures var p := Run(Start<V>(keys, workers), actions).value;
            |p.tasks| <= |p.keys| && p.keys == keys
            && (p.launcher.Done? ==> Complete(p) && p.errors == Failures(p.tasks))
  {
    StartInv<V>(keys, workers);
    RunInv(Start<V>(keys, workers), actions);
    RunsEnd(Start<V>(keys, workers), actions);
    var p := Run(Start<V>(keys, workers), actions).value;
    if p.launcher.Done? {
      JoinedIsComplete(p);
    }
  }

  /** Two runs over the same distinct keys that launched the same jobs with the same outcomes
      produce the same map, whatever the interleavings and numbers of workers. */
  lemma RunsAgree<V>(keys: seq<string>, w1: nat, w2: nat, a1: seq<Action<V>>, a2: seq<Action<V>>)
    requires Distinct(keys)
    requires Run(Start<V>(keys, w1), a1).Some? && Run(Start<V>(keys, w2), a2).Some?
    requires var p, q := Run(Start<V>(keys, w1), a1).value, Run(Start<V>(keys, w2), a2).value;
             p.launcher.Done? && q.launcher.Done? && p.tasks == q.tasks
    ensures var p, q := Run(Start<V>(keys, w1), a1).value, Run(Start<V>(keys, w2), a2).value;
            p.results == q.results && p.errors == q.errors
  {
    StartInv<V>(keys, w1);
    StartInv<V>(keys, w2);
    RunInv(Start<V>(keys, w1), a1);
    RunInv(Start<V>(keys, w2), a2);
    ResultsDetermined(Run(Start<V>(keys, w1), a1).value, Run(Start<V>(keys, w2), a2).value);
  }

  // ---- the results, by the actions of the run alone -------------------------------------------------------

  function FailedActions<V>(past: seq<Action<V>>): nat {
    if past == [] then 0
    else
      var a := past[|past| - 1];
      FailedActions(past[..|past| - 1]) + if a.Scan? && a.outcome.failed then 1 else 0
  }

  /** The outcomes held by the tasks are those the scans came to. */
  ghost predicate OutcomesFit<V(!new)>(past: seq<Action<V>>, p: Pool<V>) {
    && (forall i: nat, o :: Scan(i, o) in past <==> i < |p.tasks| && !p.tasks[i].Running? && p.tasks[i].outcome == o)
    && FailedActions(past) == Total(Failed, p.tasks)
  }

  lemma ScanMember<V>(past: seq<Action<V>>, a: Action<V>, i: nat, o: Outcome<V>)
    ensures Scan(i, o) in past + [a] <==> Scan(i, o) in past || a == Scan(i, o)
  {
  }

  lemma OutcomeStep<V(!new)>(past: seq<Action<V>>, p: Pool<V>, a: Action<V>)
    requires OutcomesFit(past, p) && Enabled(p, a) && |p.tasks| <= |p.keys|
    ensures OutcomesFit(past + [a], Do(p, a))
  {
    var q := Do(p, a);
    forall i: nat, o
      ensures Scan(i, o) in past + [a] <==> i < |q.tasks| && !q.tasks[i].Running? && q.tasks[i].outcome == o
    {
      ScanMember(past, a, i, o);
    }
    FailedStep(p, a);
    assert (past + [a])[..|past|] == past;
  }

  lemma FailedStep<V>(p: Pool<V>, a: Action<V>)
    requires Enabled(p, a) && |p.tasks| <= |p.keys|
    ensures Total(Failed, Do(p, a).tasks) == Total(Failed, p.tasks) + if a.Scan? && a.outcome.failed then 1 else 0
  {
    if MovesTask(a) {
      MoveTotal(Failed, p, a);
    } else if a.Acquire? {
      TotalSnoc<V>(Failed, p.tasks, Running);
    }
  }

  lemma {:induction false} OutcomesOfRun<V(!new)>(past: seq<Action<V>>, p: Pool<V>, actions: seq<Action<V>>)
    requires OutcomesFit(past, p) && Run(p, actions).Some?
    ensures OutcomesFit(past + actions, Run(p, actions).value)
    decreases |actions|
  {
    if actions == [] {
      assert past + actions == past;
    } else {
      OutcomeStep(past, p, actions[0]);
      OutcomesOfRun(past + [actions[0]], Do(p, actions[0]), actions[1..]);
      assert past + [actions[0]] + actions[1..] == past + actions;
    }
  }

  /** The key of a scan that found a value. */
  predicate Found<V>(keys: seq<string>, a: Action<V>, k: string) {
    a.Scan? && a.outcome.value.Some? && a.i < |keys| && keys[a.i] == k
  }

  /** A joined run by its scans alone: the keys are those of the scans that came to a value, each key
      with its scan's value when keys are distinct, and the errors are the scans that failed. */
  lemma JoinedByScans<V(!new)>(keys: seq<string>, workers: nat, actions: seq<Action<V>>)
    requires Run(Start<V>(keys, workers), actions).Some?
    requires Run(Start<V>(keys, workers), actions).value.launcher.Done?
    ensures var p := Run(Start<V>(keys, workers), actions).value;
            && p.errors == FailedActions(actions)
            && (forall k :: k in p.results <==> exists a :: a in actions && Found(keys, a, k))
            && (Distinct(keys) ==>
                  forall a, k :: a in actions && Found(keys, a, k) ==>
                    k in p.results && p.results[k] == a.outcome.value.value)
  {
    var p := Run(Start<V>(keys, workers), actions).value;
    JoinedRun(keys, workers, actions);
    StartInv<V>(keys, workers);
    RunInv(Start<V>(keys, workers), actions);
    assert OutcomesFit<V>([], Start(keys, workers));
    OutcomesOfRun([], Start<V>(keys, workers), actions);
    assert [] + actions == actions;
    FailuresTotal(p.tasks);
    forall a, k | a in actions && Found(keys, a, k)
      ensures k in p.results && (Distinct(keys) ==> p.results[k] == a.outcome.value.value)
    {
      assert a == Scan(a.i, a.outcome);
      if Distinct(keys) {
        JoinedValues(p, a.i);
      }
    }
    forall k | k in p.results ensures exists a :: a in actions && Found(keys, a, k) {
      var i :| 0 <= i < |p.tasks| && p.tasks[i].outcome.value.Some? && p.keys[i] == k;
      var a := Scan(i, p.tasks[i].outcome);
      assert a in actions && Found(keys, a, k);
    }
  }
}
