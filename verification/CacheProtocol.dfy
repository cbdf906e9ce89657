/** The cache (cache.go) under concurrency: one writer calling SetBatch, any number of readers
    taking snapshots, a read-write lock around four fields and four separate atomics. One
    action is one lock operation, one field access or one atomic access. */
module CacheProtocol {
  import opened Wrappers
  import opened Records

  /** What one SetBatch publishes under the lock. */
  datatype Batch = Batch(
    entries: map<string, DirMetrics>, activities: map<string, NodeActivity>,
    buffers: map<string, NodeBuffer>, time: int)

  const EMPTY_BATCH := Batch(map[], map[], map[], 0)

  /** The memory of a Cache. */
  datatype Cells = Cells(fields: Batch, ready: bool, scanErrors: nat, reloadTotal: nat, watchedTotal: int)

  const NEW_CELLS := Cells(EMPTY_BATCH, false, 0, 0, 0)

  /** The writer inside SetBatch: holding the lock with done fields written, past the unlock,
      past the error counter. */
  datatype Writer =
    | NotWriting
    | Writing(batch: Batch, newErrors: nat, done: nat)
    | Swapped(newErrors: nat)
    | ErrorsAdded

  /** A snapshot under construction; at is the number of the batch current when it locked. */
  datatype Reader =
    | Reading(got: nat, copy: Batch, at: nat)
    | Loading(loaded: nat, snap: Cells, at: nat)

  datatype Published = Published(batch: Batch, newErrors: nat)

  datatype State = State(
    cells: Cells,
    holders: set<nat>,           // the readers holding the lock; Writing holds it exclusively
    writer: Writer, readers: map<nat, Reader>,
    history: seq<Published>,     // batch 0 is the empty cache; batch i the i-th SetBatch
    taken: seq<nat>)             // batch numbers of the snapshots, in unlock order

  datatype Action =
    | WLock(batch: Batch, newErrors: nat)
    | WField
    | WUnlock
    | WErrors
    | WReady
    | RLock(id: nat)
    | RField(id: nat)
    | RUnlock(id: nat)
    | RLoad(id: nat)
    | CountReload
    | SetWatched(n: int)

  const START := State(NEW_CELLS, {}, NotWriting, map[], [Published(EMPTY_BATCH, 0)], [])

  /** The i-th of the four protected fields taken from b, the others from a. */
  function CopyField(a: Batch, b: Batch, i: nat): Batch {
    if i == 0 then a.(entries := b.entries)
    else if i == 1 then a.(activities := b.activities)
    else if i == 2 then a.(buffers := b.buffers)
    else a.(time := b.time)
  }

  /** The first n fields of a are those of b. */
  predicate SameFields(a: Batch, b: Batch, n: nat) {
    && (n > 0 ==> a.entries == b.entries)
    && (n > 1 ==> a.activities == b.activities)
    && (n > 2 ==> a.buffers == b.buffers)
    && (n > 3 ==> a.time == b.time)
  }

  /** The i-th atomic, loaded into a snapshot. */
  function LoadCell(snap: Cells, c: Cells, i: nat): Cells {
    if i == 0 then snap.(ready := c.ready)
    else if i == 1 then snap.(scanErrors := c.scanErrors)
    else if i == 2 then snap.(reloadTotal := c.reloadTotal)
    else snap.(watchedTotal := c.watchedTotal)
  }

  predicate IsReading(s: State, id: nat) {
    id in s.readers && s.readers[id].Reading?
  }

  predicate IsLoading(s: State, id: nat) {
    id in s.readers && s.readers[id].Loading?
  }

  predicate Enabled(s: State, a: Action) {
    match a
    case WLock(_, _) => s.writer.NotWriting? && s.holders == {}
    case WField => s.writer.Writing? && s.writer.done < 4
    case WUnlock => s.writer.Writing? && s.writer.done == 4
    case WErrors => s.writer.Swapped?
    case WReady => s.writer.ErrorsAdded?
    case RLock(id) => id !in s.readers && !s.writer.Writing?
    case RField(id) => IsReading(s, id) && s.readers[id].got < 4
    case RUnlock(id) => IsReading(s, id) && s.readers[id].got == 4
    case RLoad(id) => IsLoading(s, id) && s.readers[id].loaded < 4
    case CountReload => true
    case SetWatched(_) => true
  }

  function Do(s: State, a: Action): State
    requires Enabled(s, a) && s.history != []
  {
    var c := s.cells;
    match a
    case WLock(b, e) => s.(writer := Writing(b, e, 0), history := s.history + [Published(b, e)])
    case WField =>
      var w := s.writer;
      s.(writer := w.(done := w.done + 1), cells := c.(fields := CopyField(c.fields, w.batch, w.done)))
    case WUnlock => s.(writer := Swapped(s.writer.newErrors))
    case WErrors => s.(writer := ErrorsAdded, cells := c.(scanErrors := c.scanErrors + s.writer.newErrors))
    case WReady => s.(writer := NotWriting, cells := c.(ready := true))
    case RLock(id) =>
      s.(holders := s.holders + {id}, readers := s.readers[id := Reading(0, EMPTY_BATCH, |s.history| - 1)])
    case RField(id) =>
      var r := s.readers[id];
      s.(readers := s.readers[id := Reading(r.got + 1, CopyField(r.copy, c.fields, r.got), r.at)])
    case RUnlock(id) =>
      var r := s.readers[id];
      s.(holders := s.holders - {id}, taken := s.taken + [r.at],
         readers := s.readers[id := Loading(0, NEW_CELLS.(fields := r.copy), r.at)])
    case RLoad(id) =>
      var r := s.readers[id];
      s.(readers := s.readers[id := Loading(r.loaded + 1, LoadCell(r.snap, c, r.loaded), r.at)])
    case CountReload => s.(cells := c.(reloadTotal := c.reloadTotal + 1))
    case SetWatched(n) => s.(cells := c.(watchedTotal := n))
  }

  // ---- the invariant ------------------------------------------------------------------------

  /** The scan errors reported with the first n batches. */
  function ErrorsBefore(history: seq<Published>, n: nat): nat
    requires n <= |history|
  {
    if n == 0 then 0 else ErrorsBefore(history, n - 1) + history[n - 1].newErrors
  }

  lemma {:induction false} ErrorsBeforeSnoc(history: seq<Published>, p: Published, n: nat)
    requires n <= |history|
    ensures ErrorsBefore(history + [p], n) == ErrorsBefore(history, n)
  {
    if n > 0 {
      ErrorsBeforeSnoc(history, p, n - 1);
    }
  }

  lemma {:induction false} ErrorsBeforeMonotone(history: seq<Published>, m: nat, n: nat)
    requires m <= n <= |history|
    ensures ErrorsBefore(history, m) <= ErrorsBefore(history, n)
  {
    if m < n {
      ErrorsBeforeMonotone(history, m, n - 1);
    }
  }

  /** The protected fields: one whole batch, except while the writer holds the lock. */
  predicate FieldsFit(s: State) {
    && s.history != []
    && match s.writer
       case Writing(b, e, done) =>
         && |s.history| >= 2 && done <= 4 && s.history[|s.history| - 1] == Published(b, e)
         && SameFields(s.cells.fields, b, done)
       case _ => s.cells.fields == s.history[|s.history| - 1].batch
  }

  /** The error counter lags by the batch in progress; ready is set by the end of the first and
      never before it began. */
  predicate AtomicsFit(s: State) {
    && s.history != []
    && (match s.writer
        case NotWriting => |s.history| >= 2 ==> s.cells.ready
        case Writing(_, e, _) => |s.history| >= 2 && e == s.history[|s.history| - 1].newErrors
        case Swapped(e) => |s.history| >= 2 && e == s.history[|s.history| - 1].newErrors
        case ErrorsAdded => |s.history| >= 2)
    && (|s.history| >= 3 ==> s.cells.ready) && (s.cells.ready ==> |s.history| >= 2)
    && s.cells.scanErrors == ErrorsBefore(s.history,
         if s.writer.Writing? || s.writer.Swapped? then |s.history| - 1 else |s.history|)
  }

  /** The lock: its reader holders are the reading readers, and exclude a writing writer. */
  ghost predicate LockFits(s: State) {
    && (forall id :: id in s.holders <==> IsReading(s, id))
    && (s.writer.Writing? ==> s.holders == {})
  }

  /** One reader: what it has copied is the current batch, what it has loaded is in bounds. */
  predicate ReaderFits(s: State, r: Reader)
    requires s.history != []
  {
    match r
    case Reading(got, copy, at) => got <= 4 && at == |s.history| - 1 && SameFields(copy, s.history[at].batch, got)
    case Loading(loaded, snap, at) =>
      && loaded <= 4 && at < |s.history| && snap.fields == s.history[at].batch
      && (loaded > 0 && at >= 2 ==> snap.ready)
      && (loaded > 1 ==>
            ErrorsBefore(s.history, at) <= snap.scanErrors <= ErrorsBefore(s.history, |s.history|))
  }

  predicate ReadersFit(s: State) {
    s.history != [] && forall id :: id in s.readers ==> ReaderFits(s, s.readers[id])
  }

  /** Snapshots never go back to an earlier batch. */
  predicate TakenFits(s: State) {
    && (forall j, k :: 0 <= j < k < |s.taken| ==> s.taken[j] <= s.taken[k])
    && (forall k :: 0 <= k < |s.taken| ==> s.taken[k] < |s.history|)
  }

  ghost predicate Inv(s: State) {
    FieldsFit(s) && AtomicsFit(s) && LockFits(s) && ReadersFit(s) && TakenFits(s)
  }

  lemma StartInv()
    ensures Inv(START)
  {
  }

  lemma WriterStep(s: State, a: Action)
    requires Inv(s) && Enabled(s, a) && (a.WField? || a.WUnlock? || a.WErrors? || a.WReady?)
    ensures Inv(Do(s, a))
  {
    var t := Do(s, a);
    forall id | id in t.readers ensures ReaderFits(t, t.readers[id]) {
      assert ReaderFits(s, s.readers[id]);
      assert IsReading(s, id) ==> id in s.holders;
    }
  }

  lemma LockStep(s: State, a: Action)
    requires Inv(s) && Enabled(s, a) && a.WLock?
    ensures Inv(Do(s, a))
  {
    var t := Do(s, a);
    var p := Published(a.batch, a.newErrors);
    ErrorsBeforeSnoc(s.history, p, |s.history|);
    forall id | id in t.readers ensures ReaderFits(t, t.readers[id]) {
      assert ReaderFits(s, s.readers[id]);
      assert !IsReading(s, id);
      ErrorsBeforeSnoc(s.history, p, s.readers[id].at);
    }
  }

  /** The action changes one reader, and that reader fits again. */
  lemma OneReader(s: State, t: State, id: nat)
    requires ReadersFit(s) && t.history == s.history && id in t.readers && ReaderFits(t, t.readers[id])
    requires t.readers.Keys == s.readers.Keys + {id}
    requires forall other :: other in s.readers && other != id ==> t.readers[other] == s.readers[other]
    ensures ReadersFit(t)
  {
    forall other | other in t.readers ensures ReaderFits(t, t.readers[other]) {
      assert other != id ==> other in s.readers && ReaderFits(s, s.readers[other]);
    }
  }

  lemma ReaderLocks(s: State, a: Action)
    requires Inv(s) && Enabled(s, a) && a.RLock?
    ensures Inv(Do(s, a))
  {
    OneReader(s, Do(s, a), a.id);
  }

  lemma ReaderCopies(s: State, a: Action)
    requires Inv(s) && Enabled(s, a) && a.RField?
    ensures Inv(Do(s, a))
  {
    assert a.id in s.holders && ReaderFits(s, s.readers[a.id]);
    OneReader(s, Do(s, a), a.id);
  }

  lemma ReaderUnlocks(s: State, a: Action)
    requires Inv(s) && Enabled(s, a) && a.RUnlock?
    ensures Inv(Do(s, a))
  {
    assert a.id in s.holders && ReaderFits(s, s.readers[a.id]);
    OneReader(s, Do(s, a), a.id);
  }

  lemma LoadStep(s: State, a: Action)
    requires Inv(s) && Enabled(s, a) && a.RLoad?
    ensures Inv(Do(s, a))
  {
    var t := Do(s, a);
    var n := |s.history|;
    assert ReaderFits(s, s.readers[a.id]);
    ErrorsBeforeMonotone(s.history, s.readers[a.id].at, n - 1);
    ErrorsBeforeMonotone(s.history, n - 1, n);
    OneReader(s, t, a.id);
  }

  /** Every action of every interleaving keeps the invariant, extends the history and never
      takes ready back. */
  lemma StepInv(s: State, a: Action)
    requires Inv(s) && Enabled(s, a)
    ensures Inv(Do(s, a))
    ensures s.history <= Do(s, a).history && (s.cells.ready ==> Do(s, a).cells.ready)
    ensures s.cells.scanErrors <= Do(s, a).cells.scanErrors
  {
    match a
    case WLock(_, _) => LockStep(s, a);
    case WField => WriterStep(s, a);
    case WUnlock => WriterStep(s, a);
    case WErrors => WriterStep(s, a);
    case WReady => WriterStep(s, a);
    case RLock(_) => ReaderLocks(s, a);
    case RField(_) => ReaderCopies(s, a);
    case RUnlock(_) => ReaderUnlocks(s, a);
    case RLoad(_) => LoadStep(s, a);
    case CountReload => OtherStep(s, a);
    case SetWatched(_) => OtherStep(s, a);
  }

  lemma OtherStep(s: State, a: Action)
    requires Inv(s) && Enabled(s, a) && (a.CountReload? || a.SetWatched?)
    ensures Inv(Do(s, a))
  {
    var t := Do(s, a);
    forall id | id in t.readers ensures ReaderFits(t, t.readers[id]) {
      assert ReaderFits(s, s.readers[id]);
    }
  }

  // ---- runs ------------------------------------------------------------------------------------

  function Run(s: State, actions: seq<Action>): Option<State>
    decreases |actions|
  {
    if actions == [] then Some(s)
    else if Enabled(s, actions[0]) && s.history != [] then Run(Do(s, actions[0]), actions[1..])
    else None
  }

  lemma {:induction false} RunInv(s: State, actions: seq<Action>)
    requires Inv(s) && Run(s, actions).Some?
    ensures var t := Run(s, actions).value;
            && Inv(t) && s.history <= t.history
            && (s.cells.ready ==> t.cells.ready) && s.cells.scanErrors <= t.cells.scanErrors
    decreases |actions|
  {
    if actions != [] {
      StepInv(s, actions[0]);
      RunInv(Do(s, actions[0]), actions[1..]);
    }
  }

  /** A finished snapshot in any reachable state: its four protected fields are those of one
      batch, its error count lies between the errors of the batches before that one and all
      errors so far, and from the second batch on it is ready. */
  lemma SnapshotsAreConsistent(actions: seq<Action>, id: nat)
    requires Run(START, actions).Some?
    requires var s := Run(START, actions).value;
             IsLoading(s, id) && s.readers[id].loaded == 4
    ensures var s := Run(START, actions).value;
            var snap, at := s.readers[id].snap, s.readers[id].at;
            && at < |s.history| && snap.fields == s.history[at].batch
            && ErrorsBefore(s.history, at) <= snap.scanErrors <= ErrorsBefore(s.history, |s.history|)
            && (at >= 2 ==> snap.ready)
  {
    StartInv();
    RunInv(START, actions);
    var s := Run(START, actions).value;
    assert ReaderFits(s, s.readers[id]);
  }

  /** Successive snapshots, by any readers, see batches in order. */
  lemma SnapshotsNeverGoBack(actions: seq<Action>, j: nat, k: nat)
    requires Run(START, actions).Some?
    requires j < k < |Run(START, actions).value.taken|
    ensures Run(START, actions).value.taken[j] <= Run(START, actions).value.taken[k]
  {
    StartInv();
    RunInv(START, actions);
  }

  lemma {:induction false} RunConcat(s: State, a: seq<Action>, b: seq<Action>)
    requires Run(s, a).Some?
    ensures Run(s, a + b) == Run(Run(s, a).value, b)
    decreases |a|
  {
    if a == [] {
      assert a + b == b;
    } else {
      assert (a + b)[1..] == a[1..] + b;
      RunConcat(Do(s, a[0]), a[1..], b);
    }
  }

  lemma RunOne(s: State, a: Action, rest: seq<Action>)
    requires Enabled(s, a) && s.history != []
    ensures Run(s, [a] + rest) == Run(Do(s, a), rest)
  {
    assert ([a] + rest)[1..] == rest;
  }

  /** SetBatch without interference, as a state change. */
  function AfterSetBatch(s: State, b: Batch, e: nat): State {
    s.(cells := s.cells.(fields := b, scanErrors := s.cells.scanErrors + e, ready := true),
       history := s.history + [Published(b, e)])
  }

  lemma FieldsAlone(s: State, b: Batch, e: nat)
    requires s.writer == Writing(b, e, 0) && s.history != []
    ensures Run(s, [WField, WField, WField, WField])
            == Some(s.(writer := Writing(b, e, 4), cells := s.cells.(fields := b)))
  {
    var s1 := Do(s, WField);
    var s2 := Do(s1, WField);
    var s3 := Do(s2, WField);
    RunOne(s, WField, [WField, WField, WField]);
    RunOne(s1, WField, [WField, WField]);
    RunOne(s2, WField, [WField]);
    RunOne(s3, WField, []);
  }

  lemma EndAlone(s: State, b: Batch, e: nat)
    requires s.writer == Writing(b, e, 4) && s.history != []
    ensures Run(s, [WUnlock, WErrors, WReady])
            == Some(s.(writer := NotWriting, cells := s.cells.(scanErrors := s.cells.scanErrors + e, ready := true)))
  {
    var s1 := Do(s, WUnlock);
    var s2 := Do(s1, WErrors);
    RunOne(s, WUnlock, [WErrors, WReady]);
    RunOne(s1, WErrors, [WReady]);
    RunOne(s2, WReady, []);
  }

  /** The eight actions of an uninterrupted SetBatch come to exactly that. */
  lemma SetBatchAlone(s: State, b: Batch, e: nat)
    requires s.writer.NotWriting? && s.holders == {} && s.history != []
    ensures Run(s, [WLock(b, e), WField, WField, WField, WField, WUnlock, WErrors, WReady]) == Some(AfterSetBatch(s, b, e))
  {
    var s1 := Do(s, WLock(b, e));
    var s2 := s1.(writer := Writing(b, e, 4), cells := s1.cells.(fields := b));
    var write, end := [WField, WField, WField, WField], [WUnlock, WErrors, WReady];
    FieldsAlone(s1, b, e);
    EndAlone(s2, b, e);
    RunConcat(s1, write, end);
    RunOne(s, WLock(b, e), write + end);
    assert [WLock(b, e)] + (write + end) == [WLock(b, e), WField, WField, WField, WField, WUnlock, WErrors, WReady];
  }
}
