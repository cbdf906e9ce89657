/** The scan loop, the discovery loop, HTTP reload triggers and snapshot readers (exporter.go)
    as one interleaving system over the watch list, the capacity-1 reload channel, the cache
    and the worker pool of the running scan. One action is one channel operation, one lock or
    atomic operation, or the end of a computation that touches no shared state. */
module Protocol {
  import opened Wrappers
  import opened Records
  import opened Fanout
  import Pool = WorkerPool
  import Cache = CacheProtocol

  type ScanPool = Pool.Pool<DirMetrics>

  /** The scan loop: in the Discover of a reload, about to start ScanAll, inside it, at select. */
  datatype ScanLoop =
    | AtSelect
    | Discovering
    | Found(entries: seq<WatchEntry>)
    | Replaced(count: nat)
    | BeforeScan
    | Scanning(pool: ScanPool)
    | Collected(results: map<string, DirMetrics>, errors: nat, timedOut: bool)
    | Publishing(timedOut: bool)
    | ScanStopped

  /** The periodic discovery loop. */
  datatype DiscoveryLoop =
    | Waiting
    | Rediscovering
    | Refound(entries: seq<WatchEntry>)
    | Rereplaced(count: nat)
    | Notifying
    | DiscoveryStopped

  /** A completed reload: when its Discover and its ScanAll began. */
  datatype Cycle = Cycle(discoverBegan: nat, scanBegan: nat)

  datatype State = State(
    workers: nat,
    watchList: seq<WatchEntry>, token: bool, cache: Cache.State, stopped: bool,
    scan: ScanLoop, discovery: DiscoveryLoop, triggers: set<nat>,
    // history
    clock: nat,
    completed: seq<nat>,            // when each finished TriggerReload made its send or default
    reloadBegan: Option<nat>,       // when the Discover of the current reload began
    scanBegan: nat, lastRead: seq<WatchEntry>,  // start of the latest ScanAll and what it read
    served: Option<Cycle>,          // the latest completed reload
    timedOut: bool)                 // whether the latest completed ScanAll timed out

  datatype Action =
    | ScanTick
    | ScanReceive
    | ScanExit
    | ScanFound(entries: seq<WatchEntry>)
    | ScanReplace
    | ScanCount
    | ScanRead
    | PoolAction(action: Pool.Action<DirMetrics>)
    | ScanCollect
    | PublishLock(activities: map<string, NodeActivity>, buffers: map<string, NodeBuffer>, time: int)
    | PublishStep(write: Cache.Action)
    | PublishReady
    | DiscoveryTick
    | DiscoveryFound(entries: seq<WatchEntry>)
    | DiscoveryReplace
    | DiscoveryCount
    | DiscoveryNotify
    | DiscoveryExit
    | TriggerCount(id: nat)
    | TriggerSend(id: nat)
    | Read(read: Cache.Action)
    | Close

  /** After main's first Discover, which also counts the list; RunScanLoop begins with a ScanAll. */
  function Start(workers: nat, watchList: seq<WatchEntry>): State {
    State(workers, watchList, false, Cache.Do(Cache.START, Cache.SetWatched(Int32(|watchList|))), false, BeforeScan, Waiting, {},
          0, [], None, 0, [], None, false)
  }

  function Paths(entries: seq<WatchEntry>): seq<string> {
    seq(|entries|, i requires 0 <= i < |entries| => entries[i].absPath)
  }

  function PathSet(entries: seq<WatchEntry>): set<string> {
    set i | 0 <= i < |entries| :: entries[i].absPath
  }

  predicate IsRead(a: Cache.Action) {
    a.RLock? || a.RField? || a.RUnlock? || a.RLoad?
  }

  /** A scan's goroutine labels its metrics with its own entry's labels. */
  predicate Labelled(o: Pool.Outcome<DirMetrics>, e: WatchEntry) {
    o.value.Some? && o.value.value.labels == e.labels
  }

  predicate Enabled(s: State, a: Action) {
    match a
    case ScanTick => s.scan.AtSelect?
    case ScanReceive => s.scan.AtSelect? && s.token
    case ScanExit => s.scan.AtSelect? && s.stopped
    case ScanFound(_) => s.scan.Discovering?
    case ScanReplace => s.scan.Found?
    case ScanCount => s.scan.Replaced?
    case ScanRead => s.scan.BeforeScan?
    case PoolAction(b) =>
      && s.scan.Scanning? && |s.scan.pool.tasks| <= |s.scan.pool.keys| && Pool.Enabled(s.scan.pool, b)
      && (b.Scan? ==> b.i < |s.lastRead| && Labelled(b.outcome, s.lastRead[b.i]))
    case ScanCollect => s.scan.Scanning? && s.scan.pool.launcher.Done?
    case PublishLock(x, y, z) =>
      s.scan.Collected? && Cache.Enabled(s.cache, Cache.WLock(Cache.Batch(s.scan.results, x, y, z), s.scan.errors))
    case PublishStep(w) =>
      s.scan.Publishing? && (w.WField? || w.WUnlock? || w.WErrors?) && Cache.Enabled(s.cache, w)
    case PublishReady => s.scan.Publishing? && Cache.Enabled(s.cache, Cache.WReady)
    case DiscoveryTick => s.discovery.Waiting?
    case DiscoveryFound(_) => s.discovery.Rediscovering?
    case DiscoveryReplace => s.discovery.Refound?
    case DiscoveryCount => s.discovery.Rereplaced?
    case DiscoveryNotify => s.discovery.Notifying?
    case DiscoveryExit => s.discovery.Waiting? && s.stopped
    case TriggerCount(id) => id !in s.triggers
    case TriggerSend(id) => id in s.triggers
    case Read(r) => IsRead(r) && Cache.Enabled(s.cache, r)
    case Close => !s.stopped
  }

  function Int32(n: int): int {
    (n + 0x8000_0000) % 0x1_0000_0000 - 0x8000_0000
  }

  function CacheDo(s: State, a: Cache.Action): Cache.State
    requires Cache.Enabled(s.cache, a)
  {
    if s.cache.history != [] then Cache.Do(s.cache, a) else s.cache
  }

  /** A non-blocking send on a channel of capacity one: a full channel stays full. */
  function Send(s: State): State {
    s.(token := true)
  }

  /** The state change of an action, without the clock. */
  function Effect(s: State, a: Action): State
    requires Enabled(s, a)
  {
    match a
    case ScanTick => s.(scan := BeforeScan)
    case ScanReceive => s.(token := false, scan := Discovering, reloadBegan := Some(s.clock))
    case ScanExit => s.(scan := ScanStopped)
    case ScanFound(entries) => s.(scan := Found(entries))
    case ScanReplace => s.(watchList := s.scan.entries, scan := Replaced(|s.scan.entries|))
    case ScanCount => s.(cache := CacheDo(s, Cache.SetWatched(Int32(s.scan.count))), scan := BeforeScan)
    case ScanRead =>
      s.(lastRead := s.watchList, scanBegan := s.clock,
         scan := if s.watchList == [] then Collected(map[], 0, false)
                 else Scanning(Pool.Start(Paths(s.watchList), s.workers)))
    case PoolAction(b) => s.(scan := Scanning(Pool.Do(s.scan.pool, b)))
    case ScanCollect => s.(scan := Collected(s.scan.pool.results, s.scan.pool.errors, s.scan.pool.cancelled))
    case PublishLock(x, y, z) =>
      s.(cache := CacheDo(s, Cache.WLock(Cache.Batch(s.scan.results, x, y, z), s.scan.errors)),
         scan := Publishing(s.scan.timedOut))
    case PublishStep(w) => s.(cache := CacheDo(s, w))
    case PublishReady =>
      s.(cache := CacheDo(s, Cache.WReady), scan := AtSelect, timedOut := s.scan.timedOut, reloadBegan := None,
         served := if s.reloadBegan.Some? then Some(Cycle(s.reloadBegan.value, s.scanBegan)) else s.served)
    case DiscoveryTick => s.(discovery := Rediscovering)
    case DiscoveryFound(entries) => s.(discovery := Refound(entries))
    case DiscoveryReplace => s.(watchList := s.discovery.entries, discovery := Rereplaced(|s.discovery.entries|))
    case DiscoveryCount =>
      s.(cache := CacheDo(s, Cache.SetWatched(Int32(s.discovery.count))), discovery := Notifying)
    case DiscoveryNotify => Send(s).(discovery := Waiting)
    case DiscoveryExit => s.(discovery := DiscoveryStopped)
    case TriggerCount(id) => s.(cache := CacheDo(s, Cache.CountReload), triggers := s.triggers + {id})
    case TriggerSend(id) => Send(s).(triggers := s.triggers - {id}, completed := s.completed + [s.clock])
    case Read(r) => s.(cache := CacheDo(s, r))
    case Close => s.(stopped := true)
  }

  function Do(s: State, a: Action): State
    requires Enabled(s, a)
  {
    Effect(s, a).(clock := s.clock + 1)
  }

  // ---- no reload is lost ---------------------------------------------------------------------

  /** The scan loop is inside the Discover or the ScanAll of a reload. */
  predicate BeforeRead(s: ScanLoop) {
    s.Discovering? || s.Found? || s.Replaced? || s.BeforeScan?
  }

  predicate AfterRead(s: ScanLoop) {
    s.Scanning? || s.Collected? || s.Publishing?
  }

  /** A completed trigger is still in the channel, or the reload under way or the latest
      completed one began after it. */
  predicate Heard(s: State, t: nat) {
    || s.token
    || (s.reloadBegan.Some? && t < s.reloadBegan.value)
    || (s.served.Some? && t < s.served.value.discoverBegan)
  }

  predicate ReloadFits(s: State) {
    && (forall t :: t in s.completed ==> t < s.clock && Heard(s, t))
    && (s.reloadBegan.Some? ==> s.reloadBegan.value < s.clock)
    && (s.reloadBegan.Some? ==> BeforeRead(s.scan) || AfterRead(s.scan))
    && (s.reloadBegan.Some? && AfterRead(s.scan) ==> s.reloadBegan.value < s.scanBegan)
    && (s.scan.Discovering? || s.scan.Found? || s.scan.Replaced? ==> s.reloadBegan.Some?)
    && (s.served.Some? ==> s.served.value.discoverBegan < s.served.value.scanBegan < s.clock)
    && (s.served.Some? && s.reloadBegan.Some? ==> s.served.value.discoverBegan < s.reloadBegan.value)
    && s.scanBegan <= s.clock && (AfterRead(s.scan) ==> s.scanBegan < s.clock)
  }

  lemma ReloadStep(s: State, a: Action)
    requires ReloadFits(s) && Enabled(s, a)
    ensures ReloadFits(Do(s, a))
  {
    var n := Do(s, a);
    forall t | t in n.completed ensures t < n.clock && Heard(n, t) {
      if t in s.completed {
        StillHeard(s, a, t);
      } else {
        assert t == s.clock;
      }
    }
  }

  /** What has been heard stays heard: a token is only taken by the start of a reload. */
  lemma StillHeard(s: State, a: Action, t: nat)
    requires ReloadFits(s) && Enabled(s, a) && t in s.completed
    ensures t < s.clock && Heard(Do(s, a), t)
  {
    assert Heard(s, t);
  }

  // ---- the watch list and the last scan --------------------------------------------------------

  /** The last ScanAll read the current watch list, unless something will make the scan loop
      read it again: a token, a discovery loop about to send one, or a scan yet to start. */
  predicate ReadFits(s: State) {
    || s.lastRead == s.watchList
    || s.token
    || s.discovery.Rereplaced? || s.discovery.Notifying?
    || BeforeRead(s.scan) || s.scan.ScanStopped?
  }

  lemma ReadStep(s: State, a: Action)
    requires ReadFits(s) && Enabled(s, a)
    ensures ReadFits(Do(s, a))
  {
  }

  // ---- what the cache holds -------------------------------------------------------------------------

  predicate AllWrite(p: ScanPool, watched: seq<WatchEntry>) {
    |p.tasks| <= |watched| && forall i :: 0 <= i < |p.tasks| ==> Writes(p.tasks[i], watched[i])
  }

  /** Scan results of a watch list: each path's metrics carry the labels of an entry with it. */
  ghost predicate ScannedFor(m: map<string, DirMetrics>, watched: seq<WatchEntry>) {
    forall p :: p in m ==> exists e :: e in watched && e.absPath == p && e.labels == m[p].labels
  }

  function Current(s: State): Cache.Batch
    requires s.cache.history != []
  {
    s.cache.history[|s.cache.history| - 1].batch
  }

  /** Results of a scan of these entries, of all of them unless it timed out. */
  ghost predicate Holds(results: map<string, DirMetrics>, watched: seq<WatchEntry>, timedOut: bool) {
    ScannedFor(results, watched) && (!timedOut ==> results.Keys == PathSet(watched))
  }

  /** The scan in progress collects the paths it read; a published one that did not time out
      has cached exactly those. */
  ghost predicate ScanFits(s: State) {
    && s.cache.history != []
    && (s.scan.Publishing? <==> !s.cache.writer.NotWriting?)
    && match s.scan
       case Scanning(p) =>
         Pool.Inv(p) && p.keys == Paths(s.lastRead) && p.workers == s.workers && AllWrite(p, s.lastRead)
       case Collected(results, _, timedOut) => Holds(results, s.lastRead, timedOut)
       case Publishing(timedOut) => Holds(Current(s).entries, s.lastRead, timedOut)
       case _ => |s.cache.history| == 1 || Holds(Current(s).entries, s.lastRead, s.timedOut)
  }

  ghost predicate Inv(s: State) {
    && ReloadFits(s) && ReadFits(s) && ScanFits(s) && Cache.Inv(s.cache)
    && (s.scan.AtSelect? || s.scan.Discovering? || s.scan.Found? || s.scan.Replaced? ==> |s.cache.history| >= 2)
  }

  lemma StartInv(workers: nat, watchList: seq<WatchEntry>)
    ensures Inv(Start(workers, watchList))
  {
    Cache.StartInv();
    Cache.StepInv(Cache.START, Cache.SetWatched(Int32(|watchList|)));
  }

  /** The action of the cache's own system inside an action, if there is one. */
  function CacheAction(s: State, a: Action): Option<Cache.Action>
    requires Enabled(s, a)
  {
    match a
    case ScanCount => Some(Cache.SetWatched(Int32(s.scan.count)))
    case PublishLock(x, y, z) => Some(Cache.WLock(Cache.Batch(s.scan.results, x, y, z), s.scan.errors))
    case PublishStep(w) => Some(w)
    case PublishReady => Some(Cache.WReady)
    case DiscoveryCount => Some(Cache.SetWatched(Int32(s.discovery.count)))
    case TriggerCount(_) => Some(Cache.CountReload)
    case Read(r) => Some(r)
    case _ => None
  }

  lemma CacheEffect(s: State, a: Action)
    requires Enabled(s, a) && s.cache.history != []
    ensures var w := CacheAction(s, a);
            if w.Some? then Cache.Enabled(s.cache, w.value) && Do(s, a).cache == Cache.Do(s.cache, w.value)
            else Do(s, a).cache == s.cache
  {
  }

  /** Every change of the cache is an action of the cache's own system. */
  lemma CacheStep(s: State, a: Action)
    requires Inv(s) && Enabled(s, a)
    ensures Cache.Inv(Do(s, a).cache) && s.cache.history <= Do(s, a).cache.history
    ensures s.cache.cells.ready ==> Do(s, a).cache.cells.ready
  {
    CacheEffect(s, a);
    var w := CacheAction(s, a);
    if w.Some? {
      Cache.StepInv(s.cache, w.value);
    }
  }

  /** The running pool moves by its own actions, and every scan stores a result. */
  lemma PoolStep(p: ScanPool, watched: seq<WatchEntry>, b: Pool.Action<DirMetrics>)
    requires Pool.Inv(p) && p.keys == Paths(watched) && AllWrite(p, watched) && Pool.Enabled(p, b)
    requires b.Scan? ==> Labelled(b.outcome, watched[b.i])
    ensures Pool.Inv(Pool.Do(p, b)) && AllWrite(Pool.Do(p, b), watched)
    ensures Pool.Do(p, b).keys == p.keys && Pool.Do(p, b).workers == p.workers
  {
    Pool.StepInv(p, b);
    StillWrites(p, watched, b);
  }

  predicate Writes(t: Pool.Task<DirMetrics>, e: WatchEntry) {
    t.Running? || Labelled(t.outcome, e)
  }

  lemma StillWrites(p: ScanPool, watched: seq<WatchEntry>, b: Pool.Action<DirMetrics>)
    requires Pool.Counters(p) && p.keys == Paths(watched) && AllWrite(p, watched) && Pool.Enabled(p, b)
    requires b.Scan? ==> Labelled(b.outcome, watched[b.i])
    ensures AllWrite(Pool.Do(p, b), watched)
  {
    var q := Pool.Do(p, b);
    forall i | 0 <= i < |q.tasks| ensures Writes(q.tasks[i], watched[i]) {
      assert i < |p.tasks| ==> Writes(p.tasks[i], watched[i]);
    }
  }

  /** A joined or running pool over a watch list has stored such results, when each scan labels
      its metrics with its entry's labels. */
  lemma PoolScannedFor(watched: seq<WatchEntry>, p: Pool.Pool<DirMetrics>)
    requires Pool.Inv(p) && p.keys == Paths(watched)
    requires forall i :: 0 <= i < |p.tasks| && Pool.HasStored(p.tasks[i]) ==>
               p.tasks[i].outcome.value.value.labels == watched[i].labels
    ensures ScannedFor(p.results, watched)
  {
    forall k | k in p.results ensures exists e :: e in watched && e.absPath == k && e.labels == p.results[k].labels {
      AppliedFrom(Pool.Writes(p), k);
      var w :| w in Pool.Writes(p) && w.key == k && w.value == p.results[k];
      var j :| 0 <= j < |p.stored| && Pool.Writes(p)[j] == w;
      var i := p.stored[j];
      assert Pool.HasStored(p.tasks[i]) && p.keys[i] == k;
      assert watched[i] in watched && watched[i].absPath == k;
    }
  }

  /** A joined pool that was not cancelled has a result for every path it was given. */
  lemma CollectStep(s: State, a: Action)
    requires Inv(s) && Enabled(s, a) && a.ScanCollect?
    ensures ScanFits(Do(s, a))
  {
    var p := s.scan.pool;
    Pool.JoinedIsComplete(p);
    forall i | 0 <= i < |p.tasks| && Pool.HasStored(p.tasks[i])
      ensures p.tasks[i].outcome.value.value.labels == s.lastRead[i].labels
    {
      assert Writes(p.tasks[i], s.lastRead[i]);
    }
    PoolScannedFor(s.lastRead, p);
    if !p.cancelled {
      forall k ensures k in p.results <==> k in PathSet(s.lastRead) {
        if k in PathSet(s.lastRead) {
          var i :| 0 <= i < |s.lastRead| && s.lastRead[i].absPath == k;
          assert p.keys[i] == k && p.tasks[i].Finished? && Writes(p.tasks[i], s.lastRead[i]);
        }
      }
      assert p.results.Keys == PathSet(s.lastRead);
    }
  }

  lemma ReadingStep(s: State, a: Action)
    requires Inv(s) && Enabled(s, a) && a.ScanRead?
    ensures ScanFits(Do(s, a))
  {
    Pool.StartInv<DirMetrics>(Paths(s.watchList), s.workers);
    assert PathSet([]) == {};
  }

  /** Actions that neither start nor run a pool. */
  lemma OtherScanStep(s: State, a: Action)
    requires Inv(s) && Enabled(s, a)
    requires !a.PoolAction? && !a.ScanCollect? && !a.ScanRead? && !ChangesCache(a)
    ensures ScanFits(Do(s, a))
  {
  }

  predicate ChangesCache(a: Action) {
    a.ScanCount? || a.DiscoveryCount? || a.TriggerCount? || a.Read? || a.PublishLock? || a.PublishStep? || a.PublishReady?
  }

  predicate Publishes(a: Action) {
    a.PublishLock? || a.PublishStep? || a.PublishReady?
  }

  /** Readers and counters leave the batches and the writer alone. */
  lemma CacheFrame(c: Cache.State, a: Cache.Action)
    requires c.history != [] && Cache.Enabled(c, a) && (IsRead(a) || a.CountReload? || a.SetWatched?)
    ensures Cache.Do(c, a).history == c.history && Cache.Do(c, a).writer == c.writer
  {
  }

  lemma CounterScanStep(s: State, a: Action)
    requires Inv(s) && Enabled(s, a) && ChangesCache(a) && !Publishes(a)
    ensures ScanFits(Do(s, a))
  {
    match a
    case ScanCount => CacheFrame(s.cache, Cache.SetWatched(Int32(s.scan.count)));
    case DiscoveryCount => CacheFrame(s.cache, Cache.SetWatched(Int32(s.discovery.count)));
    case TriggerCount(_) => CacheFrame(s.cache, Cache.CountReload);
    case Read(r) => CacheFrame(s.cache, r);
  }

  lemma LockScanStep(s: State, a: Action)
    requires Inv(s) && Enabled(s, a) && a.PublishLock?
    ensures ScanFits(Do(s, a))
  {
    var after := Do(s, a).cache;
    assert after.history[|after.history| - 1].batch.entries == s.scan.results;
  }

  lemma PublishScanStep(s: State, a: Action)
    requires Inv(s) && Enabled(s, a) && (a.PublishStep? || a.PublishReady?)
    ensures ScanFits(Do(s, a))
  {
    assert Do(s, a).cache.history == s.cache.history;
  }

  lemma ScanStep(s: State, a: Action)
    requires Inv(s) && Enabled(s, a)
    ensures ScanFits(Do(s, a))
  {
    if a.PoolAction? {
      PoolStep(s.scan.pool, s.lastRead, a.action);
    } else if a.ScanCollect? {
      CollectStep(s, a);
    } else if a.ScanRead? {
      ReadingStep(s, a);
    } else if a.PublishLock? {
      LockScanStep(s, a);
    } else if Publishes(a) {
      PublishScanStep(s, a);
    } else if ChangesCache(a) {
      CounterScanStep(s, a);
    } else {
      OtherScanStep(s, a);
    }
  }

  lemma StepInv(s: State, a: Action)
    requires Inv(s) && Enabled(s, a)
    ensures Inv(Do(s, a))
  {
    ReloadStep(s, a);
    ReadStep(s, a);
    ScanStep(s, a);
    CacheStep(s, a);
  }

  // ---- over all runs ------------------------------------------------------------------------------------

  function Run(s: State, actions: seq<Action>): Option<State>
    decreases |actions|
  {
    if actions == [] then Some(s)
    else if Enabled(s, actions[0]) then Run(Do(s, actions[0]), actions[1..])
    else None
  }

  lemma {:induction false} RunInv(s: State, actions: seq<Action>)
    requires Inv(s) && Run(s, actions).Some?
    ensures Inv(Run(s, actions).value)
    ensures s.cache.cells.ready ==> Run(s, actions).value.cache.cells.ready
    decreases |actions|
  {
    if actions != [] {
      StepInv(s, actions[0]);
      CacheStep(s, actions[0]);
      RunInv(Do(s, actions[0]), actions[1..]);
    }
  }

  /** No lost reload: when the scan loop waits at its select with the channel empty, every
      TriggerReload that has completed, coalesced ones included, was followed by a whole
      Discover and then a whole ScanAll that both began after it. */
  lemma NoLostReload(workers: nat, watchList: seq<WatchEntry>, actions: seq<Action>, t: nat)
    requires Run(Start(workers, watchList), actions).Some?
    requires var s := Run(Start(workers, watchList), actions).value;
             s.scan.AtSelect? && !s.token && t in s.completed
    ensures var s := Run(Start(workers, watchList), actions).value;
            s.served.Some? && t < s.served.value.discoverBegan < s.served.value.scanBegan < s.clock
  {
    StartInv(workers, watchList);
    RunInv(Start(workers, watchList), actions);
    var s := Run(Start(workers, watchList), actions).value;
    assert Heard(s, t);
  }

  /** Quiescent agreement: when both loops are idle and the channel is empty, the last ScanAll
      read the current watch list, each cached record carries the labels of an entry with its path,
      and unless the scan timed out the cached paths are exactly its paths, although two threads
      replace the list. */
  lemma QuiescentAgreement(workers: nat, watchList: seq<WatchEntry>, actions: seq<Action>)
    requires Run(Start(workers, watchList), actions).Some?
    requires var s := Run(Start(workers, watchList), actions).value;
             s.scan.AtSelect? && !s.token && (s.discovery.Waiting? || s.discovery.DiscoveryStopped?)
    ensures var s := Run(Start(workers, watchList), actions).value;
            && s.lastRead == s.watchList && ScannedFor(s.cache.cells.fields.entries, s.watchList)
            && (!s.timedOut ==> s.cache.cells.fields.entries.Keys == PathSet(s.watchList))
            && s.cache.cells.ready
  {
    StartInv(workers, watchList);
    RunInv(Start(workers, watchList), actions);
  }

  // ---- snapshots in the whole system -------------------------------------------------------------

  /** Whatever the loops and triggers do meanwhile, a finished snapshot holds one batch, counts at
      least the errors before it, and from the second batch on is ready. */
  lemma SystemSnapshots(workers: nat, watchList: seq<WatchEntry>, actions: seq<Action>, id: nat)
    requires Run(Start(workers, watchList), actions).Some?
    requires var c := Run(Start(workers, watchList), actions).value.cache;
             Cache.IsLoading(c, id) && c.readers[id].loaded == 4
    ensures var c := Run(Start(workers, watchList), actions).value.cache;
            var snap, at := c.readers[id].snap, c.readers[id].at;
            && at < |c.history| && snap.fields == c.history[at].batch
            && Cache.ErrorsBefore(c.history, at) <= snap.scanErrors <= Cache.ErrorsBefore(c.history, |c.history|)
            && (at >= 2 ==> snap.ready)
  {
    StartInv(workers, watchList);
    RunInv(Start(workers, watchList), actions);
    var c := Run(Start(workers, watchList), actions).value.cache;
    assert Cache.ReaderFits(c, c.readers[id]);
  }

  /** Successive snapshots see batches in order. */
  lemma SystemSnapshotsNeverGoBack(workers: nat, watchList: seq<WatchEntry>, actions: seq<Action>, j: nat, k: nat)
    requires Run(Start(workers, watchList), actions).Some?
    requires j < k < |Run(Start(workers, watchList), actions).value.cache.taken|
    ensures var taken := Run(Start(workers, watchList), actions).value.cache.taken; taken[j] <= taken[k]
  {
    StartInv(workers, watchList);
    RunInv(Start(workers, watchList), actions);
  }
}
