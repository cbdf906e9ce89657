/** Which snapshots can show a ready cache without data: runs of the cache that exist, and what no
    run can do. */
module CacheRuns {
  import opened Wrappers
  import opened CacheProtocol

  // ---- readers always finish --------------------------------------------------------------------

  /** Only one reader has moved: it has its copy and no longer holds the lock. */
  predicate LetGo(s: State, t: State, id: nat) {
    && t.holders == s.holders - {id} && t.readers.Keys == s.readers.Keys
    && (t.cells, t.history, t.writer) == (s.cells, s.history, s.writer)
    && id in s.readers && t.readers[id].Loading? && t.readers[id].loaded == 0 && t.readers[id].at == s.readers[id].at
    && forall other :: other in s.readers && other != id ==> t.readers[other] == s.readers[other]
  }

  predicate Reads(actions: seq<Action>) {
    forall i :: 0 <= i < |actions| ==> actions[i].RField? || actions[i].RUnlock?
  }

  /** A reader holding the lock can copy what is left and unlock. */
  lemma {:induction false} FinishReader(s: State, id: nat) returns (actions: seq<Action>)
    requires Inv(s) && id in s.holders
    ensures Reads(actions) && Run(s, actions).Some? && Inv(Run(s, actions).value)
    ensures LetGo(s, Run(s, actions).value, id)
    decreases 4 - s.readers[id].got
  {
    assert IsReading(s, id) && ReaderFits(s, s.readers[id]);
    var a := if s.readers[id].got < 4 then RField(id) else RUnlock(id);
    StepInv(s, a);
    var t := Do(s, a);
    if a.RField? {
      assert id in t.holders;
      var rest := FinishReader(t, id);
      actions := [a] + rest;
      RunOne(s, a, rest);
    } else {
      actions := [a];
      RunOne(s, a, []);
    }
  }

  /** The lock is free; a reader that held it has its copy, with the batch it started from. */
  predicate AllLetGo(s: State, t: State) {
    && t.holders == {} && t.readers.Keys == s.readers.Keys
    && (t.cells, t.history, t.writer) == (s.cells, s.history, s.writer)
    && forall id :: id in s.readers ==>
         if id in s.holders
         then t.readers[id].Loading? && t.readers[id].loaded == 0 && t.readers[id].at == s.readers[id].at
         else t.readers[id] == s.readers[id]
  }

  /** All readers holding the lock can let go of it. */
  lemma {:induction false} DrainReaders(s: State) returns (actions: seq<Action>)
    requires Inv(s)
    ensures Reads(actions) && Run(s, actions).Some? && Inv(Run(s, actions).value)
    ensures AllLetGo(s, Run(s, actions).value)
    decreases |s.holders|
  {
    if s.holders == {} {
      actions := [];
    } else {
      var id :| id in s.holders;
      assert IsReading(s, id);
      var first := FinishReader(s, id);
      var t := Run(s, first).value;
      var rest := DrainReaders(t);
      RunConcat(s, first, rest);
      actions := first + rest;
    }
  }

  // ---- a snapshot from its lock to its end --------------------------------------------------------

  /** The reader started from batch at; if the cache was ready by then, so is what it shows. */
  predicate Tracked(s: State, id: nat, at: nat, ready: bool) {
    && id in s.readers && s.readers[id].at == at
    && (ready ==> s.cells.ready && (s.readers[id].Loading? && s.readers[id].loaded > 0 ==> s.readers[id].snap.ready))
  }

  lemma TrackedStep(s: State, a: Action, id: nat, at: nat, ready: bool)
    requires Inv(s) && Enabled(s, a) && Tracked(s, id, at, ready)
    ensures Tracked(Do(s, a), id, at, ready)
  {
  }

  lemma {:induction false} TrackedRun(s: State, actions: seq<Action>, id: nat, at: nat, ready: bool)
    requires Inv(s) && Run(s, actions).Some? && Tracked(s, id, at, ready)
    ensures Tracked(Run(s, actions).value, id, at, ready)
    decreases |actions|
  {
    if actions != [] {
      StepInv(s, actions[0]);
      TrackedStep(s, actions[0], id, at, ready);
      TrackedRun(Do(s, actions[0]), actions[1..], id, at, ready);
    }
  }

  /** The reader has finished its snapshot. */
  predicate Finished(s: State, id: nat) {
    IsLoading(s, id) && s.readers[id].loaded == 4
  }

  lemma LockedSnapshot(s: State, id: nat, actions: seq<Action>)
    requires Inv(s) && Enabled(s, RLock(id)) && Run(s, [RLock(id)] + actions).Some?
    ensures var t := Run(s, [RLock(id)] + actions).value;
            Inv(t) && s.history <= t.history && Tracked(t, id, |s.history| - 1, s.cells.ready)
  {
    RunOne(s, RLock(id), actions);
    StepInv(s, RLock(id));
    TrackedRun(Do(s, RLock(id)), actions, id, |s.history| - 1, s.cells.ready);
    RunInv(Do(s, RLock(id)), actions);
  }

  // ---- when a ready snapshot can be empty ------------------------------------------------------------

  /** From here on, a snapshot that takes the lock now can end ready and with the cache's initial,
      empty maps. */
  ghost predicate CanShowEmptyReady(s: State, id: nat) {
    exists actions :: ShowsEmptyReady(s, id, actions)
  }

  predicate ShowsEmptyReady(s: State, id: nat, actions: seq<Action>) {
    Run(s, [RLock(id)] + actions).Some? &&
    var t := Run(s, [RLock(id)] + actions).value;
    Finished(t, id) && t.readers[id].snap.ready && t.readers[id].at == 0
  }

  lemma LoadsReady(s: State, id: nat) returns (actions: seq<Action>)
    requires s.history != [] && IsLoading(s, id) && s.readers[id].loaded == 0 && s.cells.ready
    ensures Run(s, actions).Some?
    ensures var t := Run(s, actions).value;
            Finished(t, id) && t.readers[id].snap.ready && t.readers[id].at == s.readers[id].at
  {
    var load := RLoad(id);
    actions := [load, load, load, load];
    var s1 := Do(s, load);
    var s2 := Do(s1, load);
    var s3 := Do(s2, load);
    RunOne(s, load, [load, load, load]);
    RunOne(s1, load, [load, load]);
    RunOne(s2, load, [load]);
    RunOne(s3, load, []);
  }

  lemma WriterIdle(s: State)
    requires Inv(s) && |s.history| == 1
    ensures s.writer.NotWriting? && s.cells.fields == s.history[0].batch
  {
  }

  /** Before the first SetBatch begins: the readers let go, SetBatch runs, and then the snapshot
      loads the flags. */
  lemma OvertakenSnapshot(s: State, id: nat) returns (actions: seq<Action>)
    requires Inv(s) && |s.history| == 1 && Enabled(s, RLock(id))
    ensures ShowsEmptyReady(s, id, actions)
  {
    var s1 := Do(s, RLock(id));
    StepInv(s, RLock(id));
    WriterIdle(s);
    var drain := DrainReaders(s1);
    var s2 := Run(s1, drain).value;
    var b := EMPTY_BATCH;
    var write := [WLock(b, 0), WField, WField, WField, WField, WUnlock, WErrors, WReady];
    assert s2.writer.NotWriting? && id in s1.holders;
    SetBatchAlone(s2, b, 0);
    var s3 := AfterSetBatch(s2, b, 0);
    var load := LoadsReady(s3, id);
    RunConcat(s2, write, load);
    RunConcat(s1, drain, write + load);
    actions := drain + (write + load);
    RunOne(s, RLock(id), actions);
  }

  /** In every reachable state, a snapshot taking the lock there can end ready with the empty cache
      exactly when no SetBatch has begun. */
  lemma EmptyReadyIff(run: seq<Action>, id: nat)
    requires Run(START, run).Some? && Enabled(Run(START, run).value, RLock(id))
    ensures CanShowEmptyReady(Run(START, run).value, id) <==> |Run(START, run).value.history| == 1
  {
    var s := Run(START, run).value;
    StartInv();
    RunInv(START, run);
    if actions :| ShowsEmptyReady(s, id, actions) {
      LockedSnapshot(s, id, actions);
    }
    if |s.history| == 1 {
      var actions := OvertakenSnapshot(s, id);
    }
  }

  /** A snapshot taken after IsReady() was seen to hold is itself ready and holds a published
      batch, in whatever way the rest interleaves. */
  lemma ReadyBeforeSnapshot(run: seq<Action>, id: nat, actions: seq<Action>)
    requires Run(START, run).Some? && Enabled(Run(START, run).value, RLock(id))
    requires Run(START, run).value.cells.ready
    requires Run(Run(START, run).value, [RLock(id)] + actions).Some?
    requires Finished(Run(Run(START, run).value, [RLock(id)] + actions).value, id)
    ensures var t := Run(Run(START, run).value, [RLock(id)] + actions).value;
            var snap, at := t.readers[id].snap, t.readers[id].at;
            snap.ready && 1 <= at < |t.history| && snap.fields == t.history[at].batch
  {
    var s := Run(START, run).value;
    StartInv();
    RunInv(START, run);
    LockedSnapshot(s, id, actions);
    var t := Run(s, [RLock(id)] + actions).value;
    assert ReaderFits(t, t.readers[id]);
  }

  /** ready can show before the data does: some run from the start ends in a snapshot that reports
      ready with no entries. */
  lemma ReadyMayShowTheEmptyCache() returns (actions: seq<Action>)
    ensures Run(START, actions).Some?
    ensures var s := Run(START, actions).value;
            Finished(s, 0) && s.readers[0].snap.ready && s.readers[0].snap.fields == EMPTY_BATCH && s.readers[0].at == 0
  {
    StartInv();
    var rest := OvertakenSnapshot(START, 0);
    actions := [RLock(0)] + rest;
    RunInv(START, actions);
    var s := Run(START, actions).value;
    assert ReaderFits(s, s.readers[0]) && START.history <= s.history;
  }

  // ---- a snapshot that nothing disturbs ---------------------------------------------------------

  function WithReader(s: State, id: nat, r: Reader): State {
    s.(readers := s.readers[id := r])
  }

  lemma Overwritten(s: State, id: nat, r: Reader, q: Reader)
    ensures WithReader(WithReader(s, id, r), id, q) == WithReader(s, id, q)
  {
    assert s.readers[id := r][id := q] == s.readers[id := q];
  }

  lemma CopyOne(s: State, id: nat, got: nat, copy: Batch, at: nat)
    requires got < 4 && s.history != []
    ensures var t := WithReader(s, id, Reading(got, copy, at));
            && Enabled(t, RField(id))
            && Do(t, RField(id)) == WithReader(s, id, Reading(got + 1, CopyField(copy, s.cells.fields, got), at))
  {
    Overwritten(s, id, Reading(got, copy, at), Reading(got + 1, CopyField(copy, s.cells.fields, got), at));
  }

  /** The four copies take all four fields. */
  lemma CopiesAlone(s: State, id: nat, copy: Batch, at: nat)
    requires s.history != []
    ensures Run(WithReader(s, id, Reading(0, copy, at)), [RField(id), RField(id), RField(id), RField(id)])
            == Some(WithReader(s, id, Reading(4, s.cells.fields, at)))
  {
    var c := s.cells.fields;
    var c1 := CopyField(copy, c, 0);
    var c2 := CopyField(c1, c, 1);
    var c3 := CopyField(c2, c, 2);
    CopyOne(s, id, 0, copy, at);
    CopyOne(s, id, 1, c1, at);
    CopyOne(s, id, 2, c2, at);
    CopyOne(s, id, 3, c3, at);
    RunOne(WithReader(s, id, Reading(0, copy, at)), RField(id), [RField(id), RField(id), RField(id)]);
    RunOne(WithReader(s, id, Reading(1, c1, at)), RField(id), [RField(id), RField(id)]);
    RunOne(WithReader(s, id, Reading(2, c2, at)), RField(id), [RField(id)]);
    RunOne(WithReader(s, id, Reading(3, c3, at)), RField(id), []);
  }

  lemma LoadOne(s: State, id: nat, loaded: nat, snap: Cells, at: nat)
    requires loaded < 4 && s.history != []
    ensures var t := WithReader(s, id, Loading(loaded, snap, at));
            && Enabled(t, RLoad(id))
            && Do(t, RLoad(id)) == WithReader(s, id, Loading(loaded + 1, LoadCell(snap, s.cells, loaded), at))
  {
    Overwritten(s, id, Loading(loaded, snap, at), Loading(loaded + 1, LoadCell(snap, s.cells, loaded), at));
  }

  /** The four loads take all four atomics. */
  lemma LoadsAlone(s: State, id: nat, snap: Cells, at: nat)
    requires s.history != [] && snap.fields == s.cells.fields
    ensures Run(WithReader(s, id, Loading(0, snap, at)), [RLoad(id), RLoad(id), RLoad(id), RLoad(id)])
            == Some(WithReader(s, id, Loading(4, s.cells, at)))
  {
    var c1 := LoadCell(snap, s.cells, 0);
    var c2 := LoadCell(c1, s.cells, 1);
    var c3 := LoadCell(c2, s.cells, 2);
    LoadOne(s, id, 0, snap, at);
    LoadOne(s, id, 1, c1, at);
    LoadOne(s, id, 2, c2, at);
    LoadOne(s, id, 3, c3, at);
    RunOne(WithReader(s, id, Loading(0, snap, at)), RLoad(id), [RLoad(id), RLoad(id), RLoad(id)]);
    RunOne(WithReader(s, id, Loading(1, c1, at)), RLoad(id), [RLoad(id), RLoad(id)]);
    RunOne(WithReader(s, id, Loading(2, c2, at)), RLoad(id), [RLoad(id)]);
    RunOne(WithReader(s, id, Loading(3, c3, at)), RLoad(id), []);
  }

  lemma LockAlone(s: State, id: nat)
    requires s.history != [] && Enabled(s, RLock(id))
    ensures Do(s, RLock(id))
            == WithReader(s.(holders := s.holders + {id}), id, Reading(0, EMPTY_BATCH, |s.history| - 1))
  {
  }

  lemma UnlockAlone(s: State, id: nat, at: nat)
    requires s.history != [] && id !in s.holders
    ensures var t := WithReader(s.(holders := s.holders + {id}), id, Reading(4, s.cells.fields, at));
            && Enabled(t, RUnlock(id))
            && Do(t, RUnlock(id))
               == WithReader(s.(taken := s.taken + [at]), id, Loading(0, NEW_CELLS.(fields := s.cells.fields), at))
  {
    assert s.holders + {id} - {id} == s.holders;
    Overwritten(s, id, Reading(4, s.cells.fields, at), Loading(0, NEW_CELLS.(fields := s.cells.fields), at));
  }

  /** The ten actions of an undisturbed Snapshot come to a copy of every field and every atomic, and
      leave the cache itself as it is. */
  lemma SnapshotAlone(s: State, id: nat) returns (actions: seq<Action>)
    requires Inv(s) && id !in s.readers && !s.writer.Writing?
    ensures var at := |s.history| - 1;
            Run(s, actions) == Some(WithReader(s.(taken := s.taken + [at]), id, Loading(4, s.cells, at)))
    ensures actions == [RLock(id)] + ([RField(id), RField(id), RField(id), RField(id)]
                       + ([RUnlock(id)] + [RLoad(id), RLoad(id), RLoad(id), RLoad(id)]))
  {
    var at := |s.history| - 1;
    var copies, loads := [RField(id), RField(id), RField(id), RField(id)], [RLoad(id), RLoad(id), RLoad(id), RLoad(id)];
    assert !IsReading(s, id) && id !in s.holders;
    var held := s.(holders := s.holders + {id});
    LockAlone(s, id);
    CopiesAlone(held, id, EMPTY_BATCH, at);
    UnlockAlone(s, id, at);
    LoadsAlone(s.(taken := s.taken + [at]), id, NEW_CELLS.(fields := s.cells.fields), at);
    RunOne(s, RLock(id), copies + ([RUnlock(id)] + loads));
    RunConcat(WithReader(held, id, Reading(0, EMPTY_BATCH, at)), copies, [RUnlock(id)] + loads);
    RunOne(WithReader(held, id, Reading(4, s.cells.fields, at)), RUnlock(id), loads);
    actions := [RLock(id)] + (copies + ([RUnlock(id)] + loads));
  }
}
