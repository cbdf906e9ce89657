/** The whole system told by the actions of a run alone: what was found, sent and counted, and
    when, against the state that the run ends in. */
module ProtocolTrace {
  import opened Wrappers
  import opened Records
  import opened Fanout
  import opened Protocol
  import Pool = WorkerPool
  import Cache = CacheProtocol

  // ---- the last action of a kind -------------------------------------------------------------------

  /** The place of the last action of a kind, -1 when there is none. */
  function Last(past: seq<Action>, kind: Action -> bool): int {
    if past == [] then -1
    else if kind(past[|past| - 1]) then |past| - 1
    else Last(past[..|past| - 1], kind)
  }

  lemma {:induction false} LastMeaning(past: seq<Action>, kind: Action -> bool)
    ensures var i := Last(past, kind);
            && -1 <= i < |past| && (i >= 0 ==> kind(past[i]))
            && forall k :: i < k < |past| ==> !kind(past[k])
  {
    if past != [] {
      LastMeaning(past[..|past| - 1], kind);
    }
  }

  lemma LastStep(past: seq<Action>, a: Action, kind: Action -> bool)
    ensures Last(past + [a], kind) == if kind(a) then |past| else Last(past, kind)
    ensures -1 <= Last(past, kind) < |past|
  {
    LastMeaning(past, kind);
    assert (past + [a])[..|past|] == past;
  }

  predicate Receives(a: Action) { a.ScanReceive? }

  predicate Finds(a: Action) { a.ScanFound? }

  predicate Reads(a: Action) { a.ScanRead? }

  predicate Readies(a: Action) { a.PublishReady? }

  /** A send on the reload channel, whether it filled the channel or found it full. */
  predicate Sends(a: Action) { a.TriggerSend? || a.DiscoveryNotify? }

  predicate Replaces(a: Action) { a.DiscoveryReplace? }

  // ---- what the actions carried ------------------------------------------------------------------------

  /** The list that the last Discover of the scan loop found; to begin with, main's. */
  function LastFound(watched: seq<WatchEntry>, past: seq<Action>): seq<WatchEntry> {
    if past == [] then watched
    else
      var a := past[|past| - 1];
      if a.ScanFound? then a.entries else LastFound(watched, past[..|past| - 1])
  }

  /** The list that the last Discover of the discovery loop found. */
  function LastRefound(past: seq<Action>): seq<WatchEntry> {
    if past == [] then []
    else
      var a := past[|past| - 1];
      if a.DiscoveryFound? then a.entries else LastRefound(past[..|past| - 1])
  }

  /** The list of the last Set, whichever loop made it. */
  function LastSet(watched: seq<WatchEntry>, past: seq<Action>): seq<WatchEntry> {
    if past == [] then watched
    else
      var front := past[..|past| - 1];
      match past[|past| - 1]
      case ScanReplace => LastFound(watched, front)
      case DiscoveryReplace => LastRefound(front)
      case _ => LastSet(watched, front)
  }

  /** The last length stored as the watched total. */
  function LastCounted(watched: seq<WatchEntry>, past: seq<Action>): nat {
    if past == [] then |watched|
    else
      var front := past[..|past| - 1];
      match past[|past| - 1]
      case ScanCount => |LastFound(watched, front)|
      case DiscoveryCount => |LastRefound(front)|
      case _ => LastCounted(watched, front)
  }

  function ReloadsCounted(past: seq<Action>): nat {
    if past == [] then 0
    else ReloadsCounted(past[..|past| - 1]) + if past[|past| - 1].TriggerCount? then 1 else 0
  }

  lemma FrontOf(past: seq<Action>, a: Action)
    ensures (past + [a])[..|past + [a]| - 1] == past && (past + [a])[|past + [a]| - 1] == a
  {
  }

  // ---- the lists -------------------------------------------------------------------------------------------

  /** The watch list is the last one set, and each loop holds what it found. */
  predicate ListsFit(watched: seq<WatchEntry>, past: seq<Action>, s: State) {
    && s.watchList == LastSet(watched, past)
    && (s.scan.Found? ==> s.scan.entries == LastFound(watched, past))
    && (s.scan.Replaced? ==> s.scan.count == |LastFound(watched, past)|)
    && (s.discovery.Refound? ==> s.discovery.entries == LastRefound(past))
    && (s.discovery.Rereplaced? ==> s.discovery.count == |LastRefound(past)|)
  }

  lemma ListsStep(watched: seq<WatchEntry>, past: seq<Action>, s: State, a: Action)
    requires ListsFit(watched, past, s) && Enabled(s, a)
    ensures ListsFit(watched, past + [a], Do(s, a))
  {
    FrontOf(past, a);
  }

  /** The list is that of the last Discover of the scan loop, or that loop will look again. */
  predicate WatchFits(watched: seq<WatchEntry>, past: seq<Action>, s: State) {
    || s.watchList == LastFound(watched, past)
    || s.token || s.discovery.Rereplaced? || s.discovery.Notifying?
    || s.scan.Discovering? || s.scan.Found? || s.scan.ScanStopped?
  }

  lemma WatchStep(watched: seq<WatchEntry>, past: seq<Action>, s: State, a: Action)
    requires ListsFit(watched, past, s) && WatchFits(watched, past, s) && Enabled(s, a)
    ensures WatchFits(watched, past + [a], Do(s, a))
  {
    FrontOf(past, a);
  }

  // ---- the places -----------------------------------------------------------------------------------------

  /** Where the scan loop stands, by the places of its last receive, find, read and publication. */
  predicate PhaseAt(scan: ScanLoop, r: int, f: int, d: int, p: int) {
    && (if scan.Discovering? then f < r else 0 <= r < f || (r == -1 && f == -1))
    && (AfterRead(scan) || scan.AtSelect? || scan.ScanStopped? ==> f < d)
    && (scan.AtSelect? || scan.ScanStopped? ==> d < p)
  }

  predicate PhaseFits(past: seq<Action>, s: State) {
    s.clock == |past| && PhaseAt(s.scan, Last(past, Receives), Last(past, Finds), Last(past, Reads), Last(past, Readies))
  }

  lemma PhaseMoves(s: State, a: Action, n: nat, r: int, f: int, d: int, p: int)
    requires Enabled(s, a) && PhaseAt(s.scan, r, f, d, p) && -1 <= r < n && -1 <= f < n && d < n && p < n
    ensures PhaseAt(Do(s, a).scan, if Receives(a) then n else r, if Finds(a) then n else f,
                    if Reads(a) then n else d, if Readies(a) then n else p)
  {
  }

  lemma PhaseStep(past: seq<Action>, s: State, a: Action)
    requires PhaseFits(past, s) && Enabled(s, a)
    ensures PhaseFits(past + [a], Do(s, a))
  {
    LastStep(past, a, Receives);
    LastStep(past, a, Finds);
    LastStep(past, a, Reads);
    LastStep(past, a, Readies);
    PhaseMoves(s, a, |past|, Last(past, Receives), Last(past, Finds), Last(past, Reads), Last(past, Readies));
  }

  /** There is a token exactly when something was sent since the last receive. */
  predicate TokenFits(past: seq<Action>, s: State) {
    s.token <==> Last(past, Sends) > Last(past, Receives)
  }

  lemma TokenStep(past: seq<Action>, s: State, a: Action)
    requires TokenFits(past, s) && Enabled(s, a)
    ensures TokenFits(past + [a], Do(s, a))
  {
    LastStep(past, a, Receives);
    LastStep(past, a, Sends);
  }

  /** The discovery loop sends after each list it sets, before it waits again. */
  predicate NotifyFits(past: seq<Action>, s: State) {
    s.discovery.Rereplaced? || s.discovery.Notifying? || Last(past, Replaces) <= Last(past, Sends)
  }

  lemma NotifyStep(past: seq<Action>, s: State, a: Action)
    requires NotifyFits(past, s) && Enabled(s, a)
    ensures NotifyFits(past + [a], Do(s, a))
  {
    LastStep(past, a, Replaces);
    LastStep(past, a, Sends);
  }

  /** The trigger history is the places of the triggers' sends. */
  ghost predicate CompletedFits(past: seq<Action>, s: State) {
    s.clock == |past| && forall t: nat :: t in s.completed <==> t < |past| && past[t].TriggerSend?
  }

  lemma CompletedStep(past: seq<Action>, s: State, a: Action)
    requires CompletedFits(past, s) && Enabled(s, a)
    ensures CompletedFits(past + [a], Do(s, a))
  {
    var t := Do(s, a);
    assert t.completed == if a.TriggerSend? then s.completed + [s.clock] else s.completed;
    forall k: nat ensures k in t.completed <==> k < |past + [a]| && (past + [a])[k].TriggerSend? {
    }
  }

  // ---- the counters -----------------------------------------------------------------------------------------

  /** The atomics count what the actions counted. */
  predicate CountersFit(watched: seq<WatchEntry>, past: seq<Action>, s: State) {
    && s.cache.cells.reloadTotal == ReloadsCounted(past)
    && s.cache.cells.watchedTotal == Int32(LastCounted(watched, past))
  }

  lemma CellsStep(c: Cache.State, a: Cache.Action)
    requires Cache.Enabled(c, a) && c.history != []
    ensures var (n, m) := (c.cells, Cache.Do(c, a).cells);
            && m.reloadTotal == n.reloadTotal + (if a.CountReload? then 1 else 0)
            && m.watchedTotal == (if a.SetWatched? then a.n else n.watchedTotal)
  {
  }

  lemma CountersStep(watched: seq<WatchEntry>, past: seq<Action>, s: State, a: Action)
    requires ListsFit(watched, past, s) && CountersFit(watched, past, s) && Enabled(s, a) && s.cache.history != []
    ensures CountersFit(watched, past + [a], Do(s, a))
  {
    FrontOf(past, a);
    CacheEffect(s, a);
    var w := CacheAction(s, a);
    if w.Some? {
      CellsStep(s.cache, w.value);
    }
  }

  /** The total stored is the length of the list last found by the scan loop, or will be. */
  predicate TotalFits(watched: seq<WatchEntry>, past: seq<Action>, s: State) {
    || LastCounted(watched, past) == |LastFound(watched, past)|
    || s.token || s.discovery.Notifying?
    || s.scan.Discovering? || s.scan.Found? || s.scan.Replaced? || s.scan.ScanStopped?
  }

  lemma TotalStep(watched: seq<WatchEntry>, past: seq<Action>, s: State, a: Action)
    requires TotalFits(watched, past, s) && Enabled(s, a)
    ensures TotalFits(watched, past + [a], Do(s, a))
  {
    FrontOf(past, a);
  }

  // ---- failed scans ------------------------------------------------------------------------------------------

  predicate FailedScan(a: Action) {
    a.PoolAction? && a.action.Scan? && a.action.outcome.failed
  }

  function FailedScans(past: seq<Action>): nat {
    if past == [] then 0
    else FailedScans(past[..|past| - 1]) + if FailedScan(past[|past| - 1]) then 1 else 0
  }

  /** Failed scans that no batch has published yet. */
  function Pending(s: State): nat {
    match s.scan
    case Scanning(p) => Pool.Total(Pool.Failed, p.tasks)
    case Collected(_, errors, _) => errors
    case _ => 0
  }

  function PublishedErrors(c: Cache.State): nat {
    Cache.ErrorsBefore(c.history, |c.history|)
  }

  predicate ErrorsFit(past: seq<Action>, s: State) {
    FailedScans(past) == PublishedErrors(s.cache) + Pending(s)
  }

  lemma HistoryStep(c: Cache.State, a: Cache.Action)
    requires Cache.Enabled(c, a) && c.history != []
    ensures PublishedErrors(Cache.Do(c, a)) == PublishedErrors(c) + if a.WLock? then a.newErrors else 0
  {
    if a.WLock? {
      Cache.ErrorsBeforeSnoc(c.history, Cache.Published(a.batch, a.newErrors), |c.history|);
    }
  }

  lemma PublishedStep(s: State, a: Action)
    requires Inv(s) && Enabled(s, a)
    ensures PublishedErrors(Do(s, a).cache) == PublishedErrors(s.cache) + if a.PublishLock? then s.scan.errors else 0
  {
    CacheEffect(s, a);
    var w := CacheAction(s, a);
    if w.Some? {
      HistoryStep(s.cache, w.value);
    }
  }

  lemma PendingElsewhere(s: State, a: Action)
    requires Enabled(s, a) && !a.PoolAction? && !a.ScanCollect?
    ensures Pending(Do(s, a)) + (if a.PublishLock? then s.scan.errors else 0) == Pending(s)
  {
  }

  lemma PendingScans(s: State, a: Action)
    requires Inv(s) && Enabled(s, a) && a.PoolAction?
    ensures Pending(Do(s, a)) == Pending(s) + if FailedScan(a) then 1 else 0
  {
    Pool.FailedStep(s.scan.pool, a.action);
  }

  lemma PendingCollected(s: State, a: Action)
    requires Inv(s) && Enabled(s, a) && a.ScanCollect?
    ensures Pending(Do(s, a)) == Pending(s)
  {
    JoinedErrors(s.scan.pool);
  }

  lemma JoinedErrors(p: ScanPool)
    requires Pool.Inv(p) && p.launcher.Done?
    ensures p.errors == Pool.Total(Pool.Failed, p.tasks)
  {
    Pool.JoinedIsComplete(p);
    Pool.FailuresTotal(p.tasks);
  }

  lemma PendingStep(s: State, a: Action)
    requires Inv(s) && Enabled(s, a)
    ensures Pending(Do(s, a)) + (if a.PublishLock? then s.scan.errors else 0)
            == Pending(s) + if FailedScan(a) then 1 else 0
  {
    if a.PoolAction? {
      PendingScans(s, a);
    } else if a.ScanCollect? {
      PendingCollected(s, a);
    } else {
      PendingElsewhere(s, a);
    }
  }

  lemma ErrorsStep(past: seq<Action>, s: State, a: Action)
    requires Inv(s) && ErrorsFit(past, s) && Enabled(s, a)
    ensures ErrorsFit(past + [a], Do(s, a))
  {
    FrontOf(past, a);
    PublishedStep(s, a);
    PendingStep(s, a);
  }

  // ---- what was read -----------------------------------------------------------------------------------------

  /** The last ScanAll read the list that was set last before it. */
  predicate ReadListFits(watched: seq<WatchEntry>, past: seq<Action>, s: State) {
    var d := Last(past, Reads);
    -1 <= d < |past| && (d >= 0 ==> s.lastRead == LastSet(watched, past[..d]))
  }

  lemma ReadListStep(watched: seq<WatchEntry>, past: seq<Action>, s: State, a: Action)
    requires ReadListFits(watched, past, s) && s.watchList == LastSet(watched, past) && Enabled(s, a)
    ensures ReadListFits(watched, past + [a], Do(s, a))
  {
    LastStep(past, a, Reads);
    var d := Last(past + [a], Reads);
    if a.ScanRead? {
      assert (past + [a])[..d] == past;
    } else if d >= 0 {
      assert (past + [a])[..d] == past[..d];
    }
  }

  // ---- what was scanned ------------------------------------------------------------------------------------

  /** The i-th scan came to this outcome after the place d. */
  ghost predicate ScannedSince(past: seq<Action>, d: int, i: nat, o: Pool.Outcome<DirMetrics>) {
    exists k :: d < k < |past| && k >= 0 && past[k] == PoolAction(Pool.Scan(i, o))
  }

  /** A scan of an entry with this path came to v after the place d. */
  ghost predicate PathScanned(past: seq<Action>, d: int, list: seq<WatchEntry>, path: string, v: DirMetrics) {
    exists i: nat, o: Pool.Outcome<DirMetrics> ::
      i < |list| && list[i].absPath == path && o.value == Some(v) && ScannedSince(past, d, i, o)
  }

  ghost predicate FromScans(past: seq<Action>, d: int, list: seq<WatchEntry>, m: map<string, DirMetrics>) {
    forall p :: p in m ==> PathScanned(past, d, list, p, m[p])
  }

  ghost predicate TasksFit(past: seq<Action>, d: int, p: ScanPool) {
    forall i :: 0 <= i < |p.tasks| && !p.tasks[i].Running? ==> ScannedSince(past, d, i, p.tasks[i].outcome)
  }

  /** Since the last read, scans came to what is collected or cached. */
  ghost predicate ValuesFit(past: seq<Action>, s: State)
    requires s.cache.history != []
  {
    var d := Last(past, Reads);
    match s.scan
    case Scanning(p) => TasksFit(past, d, p)
    case Collected(results, _, _) => FromScans(past, d, s.lastRead, results)
    case Publishing(_) => FromScans(past, d, s.lastRead, Current(s).entries)
    case _ => |s.cache.history| == 1 || FromScans(past, d, s.lastRead, Current(s).entries)
  }

  lemma ScannedLater(past: seq<Action>, d: int, i: nat, o: Pool.Outcome<DirMetrics>, a: Action)
    requires ScannedSince(past, d, i, o)
    ensures ScannedSince(past + [a], d, i, o)
  {
    var k :| d < k < |past| && k >= 0 && past[k] == PoolAction(Pool.Scan(i, o));
    assert (past + [a])[k] == past[k];
  }

  lemma FromScansLater(past: seq<Action>, d: int, list: seq<WatchEntry>, m: map<string, DirMetrics>, a: Action)
    requires FromScans(past, d, list, m)
    ensures FromScans(past + [a], d, list, m)
  {
    forall p | p in m ensures PathScanned(past + [a], d, list, p, m[p]) {
      var i: nat, o: Pool.Outcome<DirMetrics> :|
        i < |list| && list[i].absPath == p && o.value == Some(m[p]) && ScannedSince(past, d, i, o);
      ScannedLater(past, d, i, o, a);
    }
  }

  lemma TasksLater(past: seq<Action>, d: int, p: ScanPool, b: Pool.Action<DirMetrics>)
    requires TasksFit(past, d, p) && d < |past| && |p.tasks| <= |p.keys| && Pool.Enabled(p, b)
    ensures TasksFit(past + [PoolAction(b)], d, Pool.Do(p, b))
  {
    var q := Pool.Do(p, b);
    forall i | 0 <= i < |q.tasks| && !q.tasks[i].Running?
      ensures ScannedSince(past + [PoolAction(b)], d, i, q.tasks[i].outcome)
    {
      if b.Scan? && b.i == i {
        assert (past + [PoolAction(b)])[|past|] == PoolAction(Pool.Scan(i, q.tasks[i].outcome));
      } else {
        assert !p.tasks[i].Running? && p.tasks[i].outcome == q.tasks[i].outcome;
        ScannedLater(past, d, i, p.tasks[i].outcome, PoolAction(b));
      }
    }
  }

  lemma StoredBy(p: ScanPool, path: string) returns (i: nat)
    requires Pool.Inv(p) && path in p.results
    ensures i < |p.tasks| && p.keys[i] == path && !p.tasks[i].Running?
    ensures p.tasks[i].outcome.value == Some(p.results[path])
  {
    AppliedFrom(Pool.Writes(p), path);
    var w :| w in Pool.Writes(p) && w.key == path && w.value == p.results[path];
    var j :| 0 <= j < |p.stored| && Pool.Writes(p)[j] == w;
    i := p.stored[j];
    assert Pool.HasStored(p.tasks[i]);
  }

  /** A pool's map holds what its tasks came to. */
  lemma PoolFromScans(past: seq<Action>, d: int, list: seq<WatchEntry>, p: ScanPool)
    requires Pool.Inv(p) && p.keys == Paths(list) && TasksFit(past, d, p)
    ensures FromScans(past, d, list, p.results)
  {
    forall k | k in p.results ensures PathScanned(past, d, list, k, p.results[k]) {
      var i := StoredBy(p, k);
      assert ScannedSince(past, d, i, p.tasks[i].outcome);
    }
  }

  lemma HistoryKept(s: State, a: Action)
    requires Inv(s) && Enabled(s, a)
    ensures a.PublishLock? ==> Do(s, a).cache.history != [] && Current(Do(s, a)).entries == s.scan.results
    ensures !a.PublishLock? ==> Do(s, a).cache.history == s.cache.history
  {
    CacheEffect(s, a);
  }

  lemma ScanValues(past: seq<Action>, s: State, a: Action)
    requires Inv(s) && ValuesFit(past, s) && Enabled(s, a) && -1 <= Last(past, Reads) < |past|
    requires Last(past + [a], Reads) == Last(past, Reads) && (a.PoolAction? || a.ScanCollect?)
    ensures Do(s, a).cache.history != [] && ValuesFit(past + [a], Do(s, a))
  {
    var d := Last(past, Reads);
    if a.PoolAction? {
      TasksLater(past, d, s.scan.pool, a.action);
    } else {
      PoolFromScans(past, d, s.lastRead, s.scan.pool);
      FromScansLater(past, d, s.lastRead, s.scan.pool.results, a);
    }
  }

  lemma ReadValues(past: seq<Action>, s: State, a: Action)
    requires Inv(s) && Enabled(s, a) && a.ScanRead?
    ensures Do(s, a).cache.history != [] && ValuesFit(past + [a], Do(s, a))
  {
  }

  /** The records that a state holds, collected or cached, when no pool is running. */
  function Holding(s: State): map<string, DirMetrics>
    requires s.cache.history != []
  {
    if s.scan.Collected? then s.scan.results else Current(s).entries
  }

  lemma HoldingFits(past: seq<Action>, s: State)
    requires s.cache.history != [] && !s.scan.Scanning?
    ensures FromScans(past, Last(past, Reads), s.lastRead, Holding(s)) ==> ValuesFit(past, s)
    ensures ValuesFit(past, s) && (|s.cache.history| >= 2 || s.scan.Collected? || s.scan.Publishing?)
            ==> FromScans(past, Last(past, Reads), s.lastRead, Holding(s))
  {
  }

  /** Actions that leave the running pool alone leave what is scanned and collected as it is, until
      what is collected is published. */
  lemma ScanKept(s: State, a: Action)
    requires Enabled(s, a) && !a.PoolAction? && !a.ScanCollect? && !a.ScanRead? && !s.scan.Scanning?
    ensures var t := Do(s, a);
            && t.lastRead == s.lastRead && !t.scan.Scanning?
            && (t.scan.Collected? ==> s.scan == t.scan)
            && (s.scan.Collected? ==> t.scan == s.scan || a.PublishLock?)
            && (t.scan.Publishing? ==> s.scan.Publishing? || a.PublishLock?)
            && (a.PublishLock? ==> s.scan.Collected? && t.scan.Publishing?)
  {
  }

  /** So they leave the records held as they are. */
  lemma HoldingKept(s: State, a: Action)
    requires Inv(s) && Enabled(s, a) && !a.PoolAction? && !a.ScanCollect? && !a.ScanRead? && !s.scan.Scanning?
    ensures var t := Do(s, a);
            && t.cache.history != [] && t.lastRead == s.lastRead && !t.scan.Scanning? && Holding(t) == Holding(s)
            && (|t.cache.history| == 1 ==> |s.cache.history| == 1)
            && (t.scan.Collected? || t.scan.Publishing? ==> s.scan.Collected? || s.scan.Publishing?)
  {
    HistoryKept(s, a);
    ScanKept(s, a);
  }

  lemma TasksKept(past: seq<Action>, d: int, p: ScanPool, a: Action)
    requires TasksFit(past, d, p)
    ensures TasksFit(past + [a], d, p)
  {
    forall i | 0 <= i < |p.tasks| && !p.tasks[i].Running? ensures ScannedSince(past + [a], d, i, p.tasks[i].outcome) {
      ScannedLater(past, d, i, p.tasks[i].outcome, a);
    }
  }

  lemma OtherValues(past: seq<Action>, s: State, a: Action)
    requires Inv(s) && ValuesFit(past, s) && Enabled(s, a) && !a.PoolAction? && !a.ScanCollect? && !a.ScanRead?
    requires Last(past + [a], Reads) == Last(past, Reads)
    ensures Do(s, a).cache.history != [] && ValuesFit(past + [a], Do(s, a))
  {
    var d, t := Last(past, Reads), Do(s, a);
    HistoryKept(s, a);
    if s.scan.Scanning? {
      assert t.scan == s.scan;
      TasksKept(past, d, s.scan.pool, a);
    } else {
      HoldingKept(s, a);
      HoldingFits(past, s);
      if |s.cache.history| >= 2 || s.scan.Collected? || s.scan.Publishing? {
        FromScansLater(past, d, s.lastRead, Holding(s), a);
        HoldingFits(past + [a], t);
      }
    }
  }

  lemma ValuesStep(past: seq<Action>, s: State, a: Action)
    requires Inv(s) && ValuesFit(past, s) && Enabled(s, a)
    ensures Do(s, a).cache.history != [] && ValuesFit(past + [a], Do(s, a))
  {
    LastStep(past, a, Reads);
    if a.ScanRead? {
      ReadValues(past, s, a);
    } else if a.PoolAction? || a.ScanCollect? {
      ScanValues(past, s, a);
    } else {
      OtherValues(past, s, a);
    }
  }

  // ---- over all runs ------------------------------------------------------------------------------------------

  ghost predicate Traced(watched: seq<WatchEntry>, past: seq<Action>, s: State) {
    && Inv(s) && ListsFit(watched, past, s) && WatchFits(watched, past, s)
    && PhaseFits(past, s) && TokenFits(past, s) && NotifyFits(past, s) && CompletedFits(past, s)
    && CountersFit(watched, past, s) && TotalFits(watched, past, s)
    && ErrorsFit(past, s) && ReadListFits(watched, past, s) && ValuesFit(past, s)
  }

  lemma StartTraced(workers: nat, watched: seq<WatchEntry>)
    ensures Traced(watched, [], Start(workers, watched))
  {
    StartInv(workers, watched);
    var c := Start(workers, watched).cache;
    assert c.history == [Cache.Published(Cache.EMPTY_BATCH, 0)];
    assert PublishedErrors(c) == Cache.ErrorsBefore(c.history, 1) == Cache.ErrorsBefore(c.history, 0) + 0;
  }

  lemma TraceStep(watched: seq<WatchEntry>, past: seq<Action>, s: State, a: Action)
    requires Traced(watched, past, s) && Enabled(s, a)
    ensures Traced(watched, past + [a], Do(s, a))
  {
    StepInv(s, a);
    ListsStep(watched, past, s, a);
    WatchStep(watched, past, s, a);
    PhaseStep(past, s, a);
    TokenStep(past, s, a);
    NotifyStep(past, s, a);
    CompletedStep(past, s, a);
    CountersStep(watched, past, s, a);
    TotalStep(watched, past, s, a);
    ErrorsStep(past, s, a);
    ReadListStep(watched, past, s, a);
    ValuesStep(past, s, a);
  }

  lemma {:induction false} TraceRun(watched: seq<WatchEntry>, past: seq<Action>, s: State, actions: seq<Action>)
    requires Traced(watched, past, s) && Run(s, actions).Some?
    ensures Traced(watched, past + actions, Run(s, actions).value)
    decreases |actions|
  {
    if actions == [] {
      assert past + actions == past;
    } else {
      TraceStep(watched, past, s, actions[0]);
      TraceRun(watched, past + [actions[0]], Do(s, actions[0]), actions[1..]);
      ConcatAssociates(past, [actions[0]], actions[1..]);
      assert [actions[0]] + actions[1..] == actions;
    }
  }

  lemma RunTraced(workers: nat, watched: seq<WatchEntry>, actions: seq<Action>)
    requires Run(Start(workers, watched), actions).Some?
    ensures Traced(watched, actions, Run(Start(workers, watched), actions).value)
  {
    StartTraced(workers, watched);
    TraceRun(watched, [], Start(workers, watched), actions);
    assert [] + actions == actions;
  }

  /** In every state of every run: the watch list is the last one set, by whichever loop; the token
      is there just when a send came after the last receive; the counters count what was counted,
      and the errors published and pending are the scans that failed. */
  lemma StateIsTold(workers: nat, watched: seq<WatchEntry>, actions: seq<Action>)
    requires Run(Start(workers, watched), actions).Some?
    ensures var s := Run(Start(workers, watched), actions).value;
            && s.watchList == LastSet(watched, actions)
            && (s.token <==> Last(actions, Sends) > Last(actions, Receives))
            && (forall t: nat :: t in s.completed <==> t < |actions| && actions[t].TriggerSend?)
            && s.cache.cells.reloadTotal == ReloadsCounted(actions)
            && s.cache.cells.watchedTotal == Int32(LastCounted(watched, actions))
            && FailedScans(actions) == PublishedErrors(s.cache) + Pending(s)
  {
    RunTraced(workers, watched, actions);
  }

  lemma {:induction false} SameWorkers(s: State, actions: seq<Action>)
    requires Run(s, actions).Some?
    ensures Run(s, actions).value.workers == s.workers
    decreases |actions|
  {
    if actions != [] {
      SameWorkers(Do(s, actions[0]), actions[1..]);
    }
  }

  /** At no time do more than the configured number of workers scan, and the i-th scan is of the i-th
      entry of the list that was read. */
  lemma AtMostWorkersScan(workers: nat, watched: seq<WatchEntry>, actions: seq<Action>, some: set<nat>)
    requires Run(Start(workers, watched), actions).Some?
    requires var s := Run(Start(workers, watched), actions).value;
             s.scan.Scanning? && forall i :: i in some ==> i < |s.scan.pool.tasks| && s.scan.pool.tasks[i].Running?
    ensures |some| <= workers
    ensures var s := Run(Start(workers, watched), actions).value;
            && s.scan.pool.keys == Paths(s.lastRead)
            && forall i :: i in some ==> i < |s.lastRead|
  {
    RunTraced(workers, watched, actions);
    SameWorkers(Start(workers, watched), actions);
    Pool.SlotsCount(Run(Start(workers, watched), actions).value.scan.pool.tasks, some);
  }

  // ---- at rest ---------------------------------------------------------------------------------------------------

  /** A reload from its receive through what it found and the read of a scan to that scan's end; no
      Discover of the scan loop found anything later. */
  predicate WholeReload(actions: seq<Action>, i: nat, j: nat, l: nat, m: nat, found: seq<WatchEntry>) {
    && i < j < l < m < |actions|
    && actions[i].ScanReceive? && actions[j] == ScanFound(found) && actions[l].ScanRead? && actions[m].PublishReady?
    && forall k :: j < k < |actions| ==> !actions[k].ScanFound?
  }

  /** Everything sent was sent before the i-th action. */
  predicate SentBefore(actions: seq<Action>, i: nat) {
    forall k :: 0 <= k < |actions| && (actions[k].TriggerSend? || actions[k].DiscoveryNotify?) ==> k < i
  }

  /** So was every list set by the discovery loop. */
  predicate ReplacedBefore(actions: seq<Action>, i: nat) {
    forall k :: 0 <= k < |actions| && actions[k].DiscoveryReplace? ==> k < i
  }

  /** Nothing was sent and the scan loop has not looked again. */
  predicate NoReload(actions: seq<Action>) {
    forall k :: 0 <= k < |actions| ==>
      !actions[k].TriggerSend? && !actions[k].DiscoveryNotify? && !actions[k].ScanFound?
  }

  lemma {:induction false} FoundIsLast(watched: seq<WatchEntry>, past: seq<Action>)
    ensures var j := Last(past, Finds);
            && -1 <= j < |past|
            && (if j >= 0 then past[j] == ScanFound(LastFound(watched, past)) else LastFound(watched, past) == watched)
  {
    if past != [] {
      FoundIsLast(watched, past[..|past| - 1]);
    }
  }

  lemma RestPlaces(watched: seq<WatchEntry>, actions: seq<Action>, s: State)
    requires PhaseFits(actions, s) && TokenFits(actions, s) && s.scan.AtSelect? && !s.token
    ensures || (NoReload(actions) && LastFound(watched, actions) == watched)
            || exists i, j, l, m ::
                 && WholeReload(actions, i, j, l, m, LastFound(watched, actions)) && SentBefore(actions, i)
                 && (Last(actions, Replaces) <= Last(actions, Sends) ==> ReplacedBefore(actions, i))
  {
    var i, j := Last(actions, Receives), Last(actions, Finds);
    var l, m := Last(actions, Reads), Last(actions, Readies);
    LastMeaning(actions, Receives);
    LastMeaning(actions, Finds);
    LastMeaning(actions, Reads);
    LastMeaning(actions, Readies);
    LastMeaning(actions, Sends);
    LastMeaning(actions, Replaces);
    FoundIsLast(watched, actions);
    forall k | 0 <= k < |actions| && Sends(actions[k]) ensures k < i {
    }
    forall k | j < k < |actions| ensures !Finds(actions[k]) {
    }
    if i >= 0 {
      assert WholeReload(actions, i, j, l, m, LastFound(watched, actions));
      assert SentBefore(actions, i);
      if Last(actions, Replaces) <= Last(actions, Sends) {
        forall k | 0 <= k < |actions| && Replaces(actions[k]) ensures k < i {
        }
        assert ReplacedBefore(actions, i);
      }
    } else {
      forall k | 0 <= k < |actions| ensures !Sends(actions[k]) && !Finds(actions[k]) {
      }
      assert NoReload(actions);
    }
  }

  /** No lost reload, by the actions of the run: when the scan loop waits at its select with the
      channel empty, every send has been followed by a whole reload: a receive, a Discover, the read
      of a scan and the end of that scan. */
  lemma EverySendIsServed(workers: nat, watched: seq<WatchEntry>, actions: seq<Action>)
    requires Run(Start(workers, watched), actions).Some?
    requires var s := Run(Start(workers, watched), actions).value; s.scan.AtSelect? && !s.token
    ensures || NoReload(actions)
            || exists i, j, l, m, found :: WholeReload(actions, i, j, l, m, found) && SentBefore(actions, i)
  {
    RunTraced(workers, watched, actions);
    RestPlaces(watched, actions, Run(Start(workers, watched), actions).value);
  }

  /** w is n as a 32-bit integer. */
  predicate Wrapped(w: int, n: int) {
    -0x8000_0000 <= w < 0x8000_0000 && (n - w) % 0x1_0000_0000 == 0
  }

  lemma Int32Wraps(n: int)
    ensures Wrapped(Int32(n), n)
  {
    assert n - Int32(n) == (n + 0x8000_0000) / 0x1_0000_0000 * 0x1_0000_0000;
  }

  /** With the discovery loop idle as well, the watch list is what that reload found, or main's list
      when there was none; the stored total is its length, the reloads counted are the triggers, and
      the scan errors are the scans that failed. */
  lemma RestIsTold(workers: nat, watched: seq<WatchEntry>, actions: seq<Action>)
    requires Run(Start(workers, watched), actions).Some?
    requires var s := Run(Start(workers, watched), actions).value;
             s.scan.AtSelect? && !s.token && (s.discovery.Waiting? || s.discovery.DiscoveryStopped?)
    ensures var s := Run(Start(workers, watched), actions).value;
            || (NoReload(actions) && s.watchList == watched)
            || exists i, j, l, m ::
                 WholeReload(actions, i, j, l, m, s.watchList) && SentBefore(actions, i) && ReplacedBefore(actions, i)
    ensures var s := Run(Start(workers, watched), actions).value;
            && Wrapped(s.cache.cells.watchedTotal, |s.watchList|)
            && s.cache.cells.reloadTotal == ReloadsCounted(actions)
            && s.cache.cells.scanErrors == FailedScans(actions)
  {
    RunTraced(workers, watched, actions);
    Int32Wraps(|Run(Start(workers, watched), actions).value.watchList|);
    RestPlaces(watched, actions, Run(Start(workers, watched), actions).value);
  }

  lemma RecordScanned(past: seq<Action>, s: State, path: string) returns (i: nat, o: Pool.Outcome<DirMetrics>, k: nat)
    requires s.cache.history != [] && s.scan.AtSelect? && |s.cache.history| >= 2 && ValuesFit(past, s)
    requires path in Current(s).entries
    ensures i < |s.lastRead| && s.lastRead[i].absPath == path && o.value == Some(Current(s).entries[path])
    ensures Last(past, Reads) < k < |past| && past[k] == PoolAction(Pool.Scan(i, o))
  {
    HoldingFits(past, s);
    assert PathScanned(past, Last(past, Reads), s.lastRead, path, Current(s).entries[path]);
    i, o :| i < |s.lastRead| && s.lastRead[i].absPath == path && o.value == Some(Current(s).entries[path])
            && ScannedSince(past, Last(past, Reads), i, o);
    k :| Last(past, Reads) < k < |past| && past[k] == PoolAction(Pool.Scan(i, o));
  }

  /** A record in the cache at rest, and the actions that brought it there. */
  predicate RecordOf(actions: seq<Action>, s: State, path: string, i: nat, o: Pool.Outcome<DirMetrics>, d: nat, k: nat) {
    && path in s.cache.cells.fields.entries && i < |s.watchList| && s.watchList[i].absPath == path
    && o.value == Some(s.cache.cells.fields.entries[path])
    && d < k < |actions| && actions[d].ScanRead? && actions[k] == PoolAction(Pool.Scan(i, o))
    && forall j :: d < j < |actions| ==> !actions[j].ScanRead?
  }

  lemma RestRecord(actions: seq<Action>, s: State, path: string)
    returns (i: nat, o: Pool.Outcome<DirMetrics>, d: nat, k: nat)
    requires Inv(s) && ValuesFit(actions, s) && PhaseFits(actions, s)
    requires s.scan.AtSelect? && s.lastRead == s.watchList && path in s.cache.cells.fields.entries
    ensures RecordOf(actions, s, path, i, o, d, k)
  {
    i, o, k := RecordScanned(actions, s, path);
    LastMeaning(actions, Reads);
    LastMeaning(actions, Finds);
    d := Last(actions, Reads);
    forall j | d < j < |actions| ensures !Reads(actions[j]) {
    }
  }

  /** And each cached record is what the last scan came to for an entry with its path: a scan made
      after the watch list was read for the last time. */
  lemma RestRecordsAreScanned(workers: nat, watched: seq<WatchEntry>, actions: seq<Action>, path: string)
    returns (i: nat, o: Pool.Outcome<DirMetrics>, d: nat, k: nat)
    requires Run(Start(workers, watched), actions).Some?
    requires var s := Run(Start(workers, watched), actions).value;
             && s.scan.AtSelect? && !s.token && (s.discovery.Waiting? || s.discovery.DiscoveryStopped?)
             && path in s.cache.cells.fields.entries
    ensures RecordOf(actions, Run(Start(workers, watched), actions).value, path, i, o, d, k)
  {
    RunTraced(workers, watched, actions);
    QuiescentAgreement(workers, watched, actions);
    i, o, d, k := RestRecord(actions, Run(Start(workers, watched), actions).value, path);
  }
}
