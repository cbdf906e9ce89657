/** Runs of the whole system that exist: from every reachable state the scan loop can come to rest
    with every requested reload served. */
module ProtocolRuns {
  import opened Wrappers
  import opened Records
  import opened Protocol
  import CacheRuns

  lemma RunOne(s: State, a: Action, rest: seq<Action>)
    requires Enabled(s, a)
    ensures Run(s, [a] + rest) == Run(Do(s, a), rest)
  {
    assert ([a] + rest)[1..] == rest;
  }

  lemma {:induction false} RunConcat(s: State, a: seq<Action>, b: seq<Action>)
    requires Run(s, a).Some?
    ensures Run(s, a + b) == Run(Run(s, a).value, b)
    decreases |a|
  {
    if a == [] {
      assert a + b == b;
    } else {
      assert (a + b)[1..] == a[1..] + b;
      RunConcat(Do(s, a[0]), a[1..], b);
    }
  }

  const FIELD := PublishStep(Cache.WField)

  // ---- from anywhere, rest can be reached -------------------------------------------------------------

  function Lift(copies: seq<Cache.Action>): seq<Action> {
    seq(|copies|, i requires 0 <= i < |copies| => Read(copies[i]))
  }

  lemma {:induction false} ReadsRun(s: State, copies: seq<Cache.Action>)
    requires CacheRuns.Reads(copies) && Cache.Run(s.cache, copies).Some?
    ensures Run(s, Lift(copies))
            == Some(s.(cache := Cache.Run(s.cache, copies).value, clock := s.clock + |copies|))
    decreases |copies|
  {
    if copies != [] {
      var t := Do(s, Read(copies[0]));
      ReadsRun(t, copies[1..]);
      assert Lift(copies) == [Read(copies[0])] + Lift(copies[1..]);
      RunOne(s, Read(copies[0]), Lift(copies[1..]));
    }
  }

  /** What driving the scan loop leaves alone. */
  predicate Steered(s: State, t: State) {
    && (t.workers, t.stopped, t.discovery, t.triggers, t.completed)
       == (s.workers, s.stopped, s.discovery, s.triggers, s.completed)
    && s.clock <= t.clock
  }

  /** Snapshots under way let go of the lock. */
  lemma Drained(s: State) returns (actions: seq<Action>)
    requires Inv(s)
    ensures Run(s, actions).Some?
    ensures var t := Run(s, actions).value;
            && Inv(t) && Steered(s, t) && t.cache.holders == {} && t.cache.writer == s.cache.writer
            && (t.scan, t.token) == (s.scan, s.token)
  {
    var copies := CacheRuns.DrainReaders(s.cache);
    ReadsRun(s, copies);
    actions := Lift(copies);
    RunInv(s, actions);
  }

  /** A pool that is not joined can move. */
  lemma PoolProceeds(s: State) returns (a: Action)
    requires Inv(s) && s.scan.Scanning? && s.workers >= 1 && !s.scan.pool.launcher.Done?
    ensures Enabled(s, a)
    ensures var t := Do(s, a);
            && Steered(s, t) && t.scan.Scanning? && t.token == s.token
            && |t.scan.pool.tasks| <= |t.scan.pool.keys|
            && Pool.Remaining(t.scan.pool) < Pool.Remaining(s.scan.pool)
  {
    var p := s.scan.pool;
    var b := Pool.NoDeadlock(p, Pool.Outcome(None, false));
    if b.Scan? {
      var found := DirMetrics(0, 0, 0, 0, true, false, s.lastRead[b.i].labels);
      b := Pool.Scan(b.i, Pool.Outcome(Some(found), false));
    }
    a := PoolAction(b);
    Pool.EveryActionCounts(p, b);
  }

  /** The running pool gets to its join. */
  lemma {:induction false} FinishedPool(s: State) returns (actions: seq<Action>)
    requires Inv(s) && s.scan.Scanning? && s.workers >= 1
    ensures Run(s, actions).Some?
    ensures var t := Run(s, actions).value;
            Inv(t) && Steered(s, t) && t.scan.Scanning? && t.scan.pool.launcher.Done? && t.token == s.token
    decreases Pool.Remaining(s.scan.pool)
  {
    var p := s.scan.pool;
    if p.launcher.Done? {
      actions := [];
    } else {
      var a := PoolProceeds(s);
      StepInv(s, a);
      var rest := FinishedPool(Do(s, a));
      actions := [a] + rest;
      RunOne(s, a, rest);
    }
  }

  function WritesLeft(w: Cache.Writer): nat {
    match w
    case NotWriting => 0
    case Writing(_, _, done) => if done <= 4 then 7 - done else 0
    case Swapped(_) => 2
    case ErrorsAdded => 1
  }

  /** The next action of SetBatch. */
  function NextWrite(w: Cache.Writer): Action {
    match w
    case Writing(_, _, done) => if done < 4 then FIELD else PublishStep(Cache.WUnlock)
    case Swapped(_) => PublishStep(Cache.WErrors)
    case _ => PublishReady
  }

  lemma WriteProceeds(s: State)
    requires Inv(s) && s.scan.Publishing?
    ensures var a := NextWrite(s.cache.writer);
            && Enabled(s, a)
            && var t := Do(s, a);
               && Steered(s, t) && t.token == s.token
               && (if a.PublishReady? then t.scan.AtSelect?
                   else t.scan.Publishing? && WritesLeft(t.cache.writer) < WritesLeft(s.cache.writer))
  {
  }

  /** SetBatch gets to its end. */
  lemma {:induction false} Published(s: State) returns (actions: seq<Action>)
    requires Inv(s) && s.scan.Publishing?
    ensures Run(s, actions).Some?
    ensures var t := Run(s, actions).value; Inv(t) && Steered(s, t) && t.scan.AtSelect? && t.token == s.token
    decreases WritesLeft(s.cache.writer)
  {
    var a := NextWrite(s.cache.writer);
    WriteProceeds(s);
    StepInv(s, a);
    if a.PublishReady? {
      actions := [a];
      RunOne(s, a, []);
    } else {
      var rest := Published(Do(s, a));
      actions := [a] + rest;
      RunOne(s, a, rest);
    }
  }

  function Rank(l: ScanLoop): nat {
    match l
    case AtSelect => 0
    case Publishing(_) => 1
    case Collected(_, _, _) => 2
    case Scanning(_) => 3
    case BeforeScan => 4
    case Replaced(_) => 5
    case Found(_) => 6
    case Discovering => 7
    case ScanStopped => 0
  }

  predicate AtRest(s: State) {
    s.scan.AtSelect? && !s.token
  }

  /** Nearer to rest: the token taken, or the same token and the scan loop further on. */
  predicate Nearer(s: State, t: State) {
    && Steered(s, t) && !t.scan.ScanStopped?
    && ((s.token && !t.token) || (s.token == t.token && Rank(t.scan) < Rank(s.scan)))
  }

  /** The scan loop's own next action, where that is one action. */
  predicate ScanMoves(a: Action) {
    || a.ScanReceive? || a.ScanFound? || a.ScanReplace? || a.ScanCount? || a.ScanRead?
    || a.ScanCollect? || a.PublishLock?
  }

  lemma MoveIsNearer(s: State, a: Action)
    requires Enabled(s, a) && ScanMoves(a)
    ensures Nearer(s, Do(s, a))
  {
  }

  lemma OneStepNearer(s: State, a: Action)
    requires Inv(s) && Enabled(s, a) && ScanMoves(a)
    ensures Run(s, [a]).Some? && Inv(Run(s, [a]).value) && Nearer(s, Run(s, [a]).value)
  {
    StepInv(s, a);
    MoveIsNearer(s, a);
    RunOne(s, a, []);
  }

  lemma CollectedNearer(s: State) returns (actions: seq<Action>)
    requires Inv(s) && s.scan.Collected?
    ensures Run(s, actions).Some? && Inv(Run(s, actions).value) && Nearer(s, Run(s, actions).value)
  {
    var drain := Drained(s);
    var t := Run(s, drain).value;
    var lock := PublishLock(map[], map[], 0);
    OneStepNearer(t, lock);
    RunConcat(s, drain, [lock]);
    actions := drain + [lock];
  }

  lemma ScanningNearer(s: State) returns (actions: seq<Action>)
    requires Inv(s) && s.scan.Scanning? && s.workers >= 1
    ensures Run(s, actions).Some? && Inv(Run(s, actions).value) && Nearer(s, Run(s, actions).value)
  {
    var scans := FinishedPool(s);
    var t := Run(s, scans).value;
    OneStepNearer(t, ScanCollect);
    RunConcat(s, scans, [ScanCollect]);
    actions := scans + [ScanCollect];
  }

  lemma Advanced(s: State) returns (actions: seq<Action>)
    requires Inv(s) && s.workers >= 1 && !s.scan.ScanStopped? && !AtRest(s)
    ensures Run(s, actions).Some? && Inv(Run(s, actions).value) && Nearer(s, Run(s, actions).value)
  {
    if s.scan.Scanning? {
      actions := ScanningNearer(s);
    } else if s.scan.Collected? {
      actions := CollectedNearer(s);
    } else if s.scan.Publishing? {
      actions := Published(s);
    } else {
      var a :=
        if s.scan.AtSelect? then ScanReceive
        else if s.scan.Discovering? then ScanFound([])
        else if s.scan.Found? then ScanReplace
        else if s.scan.Replaced? then ScanCount
        else ScanRead;
      OneStepNearer(s, a);
      actions := [a];
    }
  }

  lemma {:induction false} Settled(s: State) returns (actions: seq<Action>)
    requires Inv(s) && s.workers >= 1 && !s.scan.ScanStopped?
    ensures Run(s, actions).Some?
    ensures var t := Run(s, actions).value; Inv(t) && Steered(s, t) && AtRest(t)
    decreases if s.token then 1 else 0, Rank(s.scan)
  {
    if AtRest(s) {
      actions := [];
    } else {
      var first := Advanced(s);
      var rest := Settled(Run(s, first).value);
      RunConcat(s, first, rest);
      actions := first + rest;
    }
  }

  /** From every reachable state in which the scan loop has not stopped, some continuation brings it
      to its select with the channel empty, and by then every reload requested so far has been
      served: nothing can get stuck. */
  lemma RestIsReachable(workers: nat, watchList: seq<WatchEntry>, run: seq<Action>) returns (more: seq<Action>)
    requires workers >= 1 && Run(Start(workers, watchList), run).Some?
    requires !Run(Start(workers, watchList), run).value.scan.ScanStopped?
    ensures Run(Start(workers, watchList), run + more).Some?
    ensures var s, t := Run(Start(workers, watchList), run).value, Run(Start(workers, watchList), run + more).value;
            && AtRest(t) && t.completed == s.completed && t.discovery == s.discovery
            && forall k :: k in s.completed ==>
                 t.served.Some? && k < t.served.value.discoverBegan < t.served.value.scanBegan
  {
    var start := Start(workers, watchList);
    StartInv(workers, watchList);
    RunInv(start, run);
    WorkersKept(start, run);
    var s := Run(start, run).value;
    more := Settled(s);
    RunConcat(start, run, more);
    forall k | k in s.completed
      ensures var t := Run(start, run + more).value;
              t.served.Some? && k < t.served.value.discoverBegan < t.served.value.scanBegan
    {
      NoLostReload(workers, watchList, run + more, k);
    }
  }

  lemma {:induction false} WorkersKept(s: State, actions: seq<Action>)
    requires Run(s, actions).Some?
    ensures Run(s, actions).value.workers == s.workers
    decreases |actions|
  {
    if actions != [] {
      WorkersKept(Do(s, actions[0]), actions[1..]);
    }
  }

  /** Over any watch list, two reloads requested before the loop looks, the second finding the
      channel full, are served together and the system comes to rest. */
  lemma AReloadComesToRest(workers: nat, watchList: seq<WatchEntry>) returns (actions: seq<Action>)
    requires workers >= 1
    ensures Run(Start(workers, watchList), actions).Some?
    ensures var s := Run(Start(workers, watchList), actions).value;
            AtRest(s) && s.discovery.Waiting? && |s.completed| == 2 && s.served.Some?
  {
    var s := Start(workers, watchList);
    var run := [TriggerCount(0), TriggerCount(1), TriggerSend(0), TriggerSend(1)];
    var s1 := Do(s, TriggerCount(0));
    var s2 := Do(s1, TriggerCount(1));
    var s3 := Do(s2, TriggerSend(0));
    RunOne(s, TriggerCount(0), [TriggerCount(1), TriggerSend(0), TriggerSend(1)]);
    RunOne(s1, TriggerCount(1), [TriggerSend(0), TriggerSend(1)]);
    RunOne(s2, TriggerSend(0), [TriggerSend(1)]);
    RunOne(s3, TriggerSend(1), []);
    var t := Do(s3, TriggerSend(1));
    assert Run(s, run) == Some(t) && t.completed == [2, 3] && t.discovery.Waiting?;
    assert 3 in t.completed;
    var more := RestIsReachable(workers, watchList, run);
    actions := run + more;
  }
}
