/** scanDir (scanner.go): the chunked scan with its two caps, against a summary of the
    directory's entries that knows nothing of chunks or loops. */
module Scanner {
  import opened Wrappers

  const MIN_INT64 := -0x8000_0000_0000_0000
  const MAX_INT64 := 0x7fff_ffff_ffff_ffff

  /** Unix seconds of a modification time. */
  type UnixTime = t: int | MIN_INT64 <= t <= MAX_INT64

  datatype TargetInfo = TargetInfo(isDir: bool, mtime: UnixTime)

  /** One entry as the scan meets it. target: os.Stat through a symbolic link, None when it
      is broken. info: the entry's own lstat time, None when the file has vanished. */
  datatype FileEntry = FileEntry(isDir: bool, isSymlink: bool, target: Option<TargetInfo>, info: Option<UnixTime>)

  /** The results of successive ReadDir calls; the last one came with an error or EOF. */
  type Chunks = c: seq<seq<FileEntry>> | c != [] witness [[]]

  const DIR_CHUNK_SIZE := 256

  /** The calls that read a directory to its end: full chunks, the shorter last one, and the
      empty one that comes with EOF. */
  function ReadDirCalls(entries: seq<FileEntry>): (chunks: Chunks)
    decreases |entries|
  {
    if entries == [] then [[]]
    else if |entries| <= DIR_CHUNK_SIZE then [entries, []]
    else [entries[..DIR_CHUNK_SIZE]] + ReadDirCalls(entries[DIR_CHUNK_SIZE..])
  }

  datatype Directory = Unopenable | Opened(chunks: Chunks)

  /** The result without its duration; success is ScanSuccess = 1, Err is set when not. */
  datatype ScanResult = ScanResult(fileCount: nat, oldest: int, newest: int, success: bool, truncated: bool)

  // ---- what a scan should report ----------------------------------------------------------

  /** Regular files and links to files count; directories, links to them and broken links do not. */
  predicate Counted(e: FileEntry) {
    if e.isSymlink then e.target.Some? && !e.target.value.isDir else !e.isDir
  }

  function CountedFiles(entries: seq<FileEntry>): (files: seq<FileEntry>)
    ensures |files| <= |entries|
  {
    if entries == [] then []
    else (if Counted(entries[0]) then [entries[0]] else []) + CountedFiles(entries[1..])
  }

  function TimeOf(e: FileEntry): Option<UnixTime>
    requires Counted(e)
  {
    if e.isSymlink then Some(e.target.value.mtime) else e.info
  }

  predicate AllCounted(files: seq<FileEntry>) {
    forall i :: 0 <= i < |files| ==> Counted(files[i])
  }

  /** The modification times that can be read, in order. */
  function Times(files: seq<FileEntry>): (ts: seq<UnixTime>)
    requires AllCounted(files)
    ensures |ts| <= |files|
  {
    if files == [] then []
    else
      var front := Times(files[..|files| - 1]);
      var t := TimeOf(files[|files| - 1]);
      if t.Some? then front + [t.value] else front
  }

  /** At most cap leading elements; a cap that is not positive is no cap. */
  function Capped<T>(s: seq<T>, cap: int): (r: seq<T>)
    ensures r <= s
  {
    if 0 < cap < |s| then s[..cap] else s
  }

  function Least(ts: seq<UnixTime>, start: int): int {
    if ts == [] then start
    else
      var front := Least(ts[..|ts| - 1], start);
      if ts[|ts| - 1] < front then ts[|ts| - 1] else front
  }

  function Greatest(ts: seq<UnixTime>, start: int): int {
    if ts == [] then start
    else
      var front := Greatest(ts[..|ts| - 1], start);
      if ts[|ts| - 1] > front then ts[|ts| - 1] else front
  }

  /** Some file was counted after the stat cap was used up. */
  predicate StatCapHit(files: seq<FileEntry>, maxStat: int)
    requires AllCounted(files)
  {
    maxStat > 0 && files != [] && |Times(files[..|files| - 1])| >= maxStat
  }

  predicate CutShort(files: seq<FileEntry>, maxFiles: int, maxStat: int)
    requires AllCounted(files)
  {
    (0 < maxFiles < |files|) || StatCapHit(Capped(files, maxFiles), maxStat)
  }

  /** The report on a list of entries: the first maxFiles counted files, the times of the
      first maxStat of those whose time can be read. */
  function Summary(entries: seq<FileEntry>, maxFiles: int, maxStat: int): ScanResult {
    CountedFilesAllCounted(entries);
    var files := CountedFiles(entries);
    var kept := Capped(files, maxFiles);
    var ts := Capped(Times(kept), maxStat);
    ScanResult(
      |kept|,
      if ts == [] then 0 else Least(ts, MAX_INT64),
      if ts == [] then 0 else Greatest(ts, MIN_INT64),
      true,
      CutShort(files, maxFiles, maxStat))
  }

  function Flatten(chunks: seq<seq<FileEntry>>): seq<FileEntry> {
    if chunks == [] then [] else Flatten(chunks[..|chunks| - 1]) + chunks[|chunks| - 1]
  }

  predicate CutShortIn(chunks: seq<seq<FileEntry>>, maxFiles: int, maxStat: int) {
    CountedFilesAllCounted(Flatten(chunks));
    CutShort(CountedFiles(Flatten(chunks)), maxFiles, maxStat)
  }

  /** How many chunks are read: all of them, except that with a count cap reading stops after
      the first chunk in which either cap was hit. */
  function ChunksRead(chunks: Chunks, m: nat, maxFiles: int, maxStat: int): (r: nat)
    requires 1 <= m <= |chunks|
    ensures m <= r <= |chunks|
    decreases |chunks| - m
  {
    if m == |chunks| || (maxFiles > 0 && CutShortIn(chunks[..m], maxFiles, maxStat)) then m
    else ChunksRead(chunks, m + 1, maxFiles, maxStat)
  }

  /** The outcome of an uncancelled scan. */
  function Scan(dir: Directory, maxFiles: int, maxStat: int): ScanResult {
    match dir
    case Unopenable => ScanResult(0, 0, 0, false, false)
    case Opened(chunks) => Summary(Flatten(chunks[..ChunksRead(chunks, 1, maxFiles, maxStat)]), maxFiles, maxStat)
  }

  // ---- one entry at a time -------------------------------------------------------------------

  lemma {:induction false} CountedFilesAllCounted(entries: seq<FileEntry>)
    ensures AllCounted(CountedFiles(entries))
  {
    if entries != [] {
      CountedFilesAllCounted(entries[1..]);
    }
  }

  lemma {:induction false} CountedFilesConcat(a: seq<FileEntry>, b: seq<FileEntry>)
    ensures CountedFiles(a + b) == CountedFiles(a) + CountedFiles(b)
  {
    if a == [] {
      assert a + b == b;
    } else {
      CountedFilesConcat(a[1..], b);
      assert (a + b)[1..] == a[1..] + b;
      ConcatAssociates(if Counted(a[0]) then [a[0]] else [], CountedFiles(a[1..]), CountedFiles(b));
    }
  }

  /** The loop variables of the scan, after some entries. */
  datatype Tally = Tally(count: nat, stats: nat, oldest: int, newest: int, truncated: bool)

  function TallyOf(files: seq<FileEntry>, maxFiles: int, maxStat: int): Tally
    requires AllCounted(files)
  {
    var kept := Capped(files, maxFiles);
    var ts := Capped(Times(kept), maxStat);
    Tally(|kept|, |ts|, Least(ts, MAX_INT64), Greatest(ts, MIN_INT64), CutShort(files, maxFiles, maxStat))
  }

  /** Once the count cap is reached, one more file only sets the truncation flag. */
  lemma CountCapStep(files: seq<FileEntry>, e: FileEntry, maxFiles: int, maxStat: int)
    requires AllCounted(files) && Counted(e) && 0 < maxFiles <= |files|
    ensures TallyOf(files + [e], maxFiles, maxStat) == TallyOf(files, maxFiles, maxStat).(truncated := true)
    ensures |files| >= TallyOf(files, maxFiles, maxStat).count == maxFiles
  {
    assert Capped(files + [e], maxFiles) == Capped(files, maxFiles);
  }

  lemma TimesStep(files: seq<FileEntry>, e: FileEntry)
    requires AllCounted(files) && Counted(e)
    ensures Times(files + [e]) == if TimeOf(e).Some? then Times(files) + [TimeOf(e).value] else Times(files)
  {
    assert (files + [e])[..|files|] == files;
  }

  lemma LeastStep(ts: seq<UnixTime>, t: UnixTime)
    ensures Least(ts + [t], MAX_INT64) == if t < Least(ts, MAX_INT64) then t else Least(ts, MAX_INT64)
    ensures Greatest(ts + [t], MIN_INT64) == if t > Greatest(ts, MIN_INT64) then t else Greatest(ts, MIN_INT64)
  {
    assert (ts + [t])[..|ts|] == ts;
  }

  /** Below the count cap one more file is counted; its time is read unless the stat cap is
      used up. */
  lemma CountStep(files: seq<FileEntry>, e: FileEntry, maxFiles: int, maxStat: int)
    requires AllCounted(files) && Counted(e) && (maxFiles <= 0 || |files| < maxFiles)
    ensures var before, after := TallyOf(files, maxFiles, maxStat), TallyOf(files + [e], maxFiles, maxStat);
            && before.count == |files|
            && after == (
              if 0 < maxStat <= before.stats then before.(count := before.count + 1, truncated := true)
              else if TimeOf(e).None? then before.(count := before.count + 1)
              else
                var t := TimeOf(e).value;
                Tally(before.count + 1, before.stats + 1,
                      if t < before.oldest then t else before.oldest,
                      if t > before.newest then t else before.newest, before.truncated))
  {
    var all := files + [e];
    assert Capped(files, maxFiles) == files && Capped(all, maxFiles) == all;
    TimesStep(files, e);
    assert all[..|all| - 1] == files;
    var ts := Times(files);
    StatCapMonotone(files, e, maxStat);
    if !(0 < maxStat <= |ts|) && TimeOf(e).Some? {
      LeastStep(ts, TimeOf(e).value);
    } else if 0 < maxStat <= |ts| && TimeOf(e).Some? {
      assert Capped(ts + [TimeOf(e).value], maxStat) == Capped(ts, maxStat);
    }
  }

  lemma StatCapMonotone(files: seq<FileEntry>, e: FileEntry, maxStat: int)
    requires AllCounted(files) && Counted(e)
    ensures StatCapHit(files, maxStat) ==> StatCapHit(files + [e], maxStat)
    ensures StatCapHit(files + [e], maxStat) <==> 0 < maxStat <= |Times(files)|
  {
    assert (files + [e])[..|files|] == files;
    if files != [] {
      TimesStep(files[..|files| - 1], files[|files| - 1]);
      assert files[..|files| - 1] + [files[|files| - 1]] == files;
    }
  }

  /** Past the count cap nothing more changes. */
  lemma CountCapRest(files: seq<FileEntry>, more: seq<FileEntry>, maxFiles: int, maxStat: int)
    requires AllCounted(files) && AllCounted(more) && 0 < maxFiles < |files|
    ensures AllCounted(files + more) && TallyOf(files + more, maxFiles, maxStat) == TallyOf(files, maxFiles, maxStat)
  {
    assert Capped(files + more, maxFiles) == Capped(files, maxFiles);
  }

  function EntriesTally(entries: seq<FileEntry>, maxFiles: int, maxStat: int): Tally {
    CountedFilesAllCounted(entries);
    TallyOf(CountedFiles(entries), maxFiles, maxStat)
  }

  /** What one examined entry does to the loop variables. */
  lemma EntryStep(seen: seq<FileEntry>, e: FileEntry, maxFiles: int, maxStat: int)
    ensures var files := CountedFiles(seen);
            && AllCounted(files)
            && CountedFiles(seen + [e]) == (if Counted(e) then files + [e] else files)
  {
    CountedFilesAllCounted(seen);
    CountedFilesConcat(seen, [e]);
    assert CountedFiles([e]) == if Counted(e) then [e] else [];
  }

  lemma TallyReports(entries: seq<FileEntry>, maxFiles: int, maxStat: int)
    ensures var t, s := EntriesTally(entries, maxFiles, maxStat), Summary(entries, maxFiles, maxStat);
            && s.fileCount == t.count && s.truncated == t.truncated && s.success
            && s.oldest == (if t.stats > 0 then t.oldest else 0)
            && s.newest == (if t.stats > 0 then t.newest else 0)
  {
  }

  // ---- the scan ---------------------------------------------------------------------------------

  /** ctx.Err() != nil on the given poll: a context once cancelled stays so. */
  predicate Cancelled(cancelAt: Option<nat>, poll: nat) {
    cancelAt.Some? && poll >= cancelAt.value
  }

  lemma RestOfChunk(seen: seq<FileEntry>, rest: seq<FileEntry>, maxFiles: int, maxStat: int)
    requires 0 < maxFiles < |CountedFiles(seen)|
    ensures EntriesTally(seen + rest, maxFiles, maxStat) == EntriesTally(seen, maxFiles, maxStat)
  {
    CountedFilesAllCounted(seen);
    CountedFilesAllCounted(rest);
    CountedFilesConcat(seen, rest);
    CountCapRest(CountedFiles(seen), CountedFiles(rest), maxFiles, maxStat);
  }

  /** One more counted file, for the loop variables. */
  function NextTally(t: Tally, e: FileEntry, maxFiles: int, maxStat: int): Tally
    requires Counted(e)
  {
    if 0 < maxFiles <= t.count then t.(truncated := true)
    else if 0 < maxStat <= t.stats then t.(count := t.count + 1, truncated := true)
    else if TimeOf(e).None? then t.(count := t.count + 1)
    else
      var time := TimeOf(e).value;
      Tally(t.count + 1, t.stats + 1, if time < t.oldest then time else t.oldest,
            if time > t.newest then time else t.newest, t.truncated)
  }

  lemma TallyNext(files: seq<FileEntry>, e: FileEntry, maxFiles: int, maxStat: int)
    requires AllCounted(files) && Counted(e)
    ensures TallyOf(files + [e], maxFiles, maxStat) == NextTally(TallyOf(files, maxFiles, maxStat), e, maxFiles, maxStat)
    ensures TallyOf(files, maxFiles, maxStat).count <= |files|
  {
    if 0 < maxFiles <= |files| {
      CountCapStep(files, e, maxFiles, maxStat);
    } else {
      CountStep(files, e, maxFiles, maxStat);
    }
  }

  /** The body of the inner loop: skip, count, or count and read the time. stop is its break. */
  method ScanEntry(e: FileEntry, maxFiles: int, maxStat: int, tally: Tally) returns (t: Tally, stop: bool)
    ensures t == if Counted(e) then NextTally(tally, e, maxFiles, maxStat) else tally
    ensures stop <==> Counted(e) && 0 < maxFiles <= tally.count
  {
    t, stop := tally, false;
    if e.isSymlink {
      if e.target.None? {
        return;
      }
      if e.target.value.isDir {
        return;
      }
    } else if e.isDir {
      return;
    }
    if maxFiles > 0 && t.count >= maxFiles {
      return t.(truncated := true), true;
    }
    t := t.(count := t.count + 1);
    if maxStat > 0 && t.stats >= maxStat {
      return t.(truncated := true), false;
    }
    var mt: UnixTime;
    if e.isSymlink {
      mt := e.target.value.mtime;
    } else {
      if e.info.None? {
        return;
      }
      mt := e.info.value;
    }
    t := t.(stats := t.stats + 1);
    if mt < t.oldest {
      t := t.(oldest := mt);
    }
    if mt > t.newest {
      t := t.(newest := mt);
    }
  }

  lemma EntryTallied(before: seq<FileEntry>, entries: seq<FileEntry>, i: nat, maxFiles: int, maxStat: int)
    requires i < |entries|
    ensures var files := CountedFiles(before + entries[..i]);
            var next := CountedFiles(before + entries[..i + 1]);
            && AllCounted(files) && AllCounted(next)
            && next == (if Counted(entries[i]) then files + [entries[i]] else files)
            && EntriesTally(before + entries[..i], maxFiles, maxStat) == TallyOf(files, maxFiles, maxStat)
            && EntriesTally(before + entries[..i + 1], maxFiles, maxStat) == TallyOf(next, maxFiles, maxStat)
  {
    EntryStep(before + entries[..i], entries[i], maxFiles, maxStat);
    CountedFilesAllCounted(before + entries[..i + 1]);
    assert before + entries[..i + 1] == before + entries[..i] + [entries[i]];
  }

  lemma StoppedChunk(before: seq<FileEntry>, entries: seq<FileEntry>, i: nat, maxFiles: int, maxStat: int)
    requires i < |entries| && Counted(entries[i]) && 0 < maxFiles <= |CountedFiles(before + entries[..i])|
    ensures EntriesTally(before + entries, maxFiles, maxStat) == EntriesTally(before + entries[..i + 1], maxFiles, maxStat)
  {
    EntryTallied(before, entries, i, maxFiles, maxStat);
    RestOfChunk(before + entries[..i + 1], entries[i + 1..], maxFiles, maxStat);
    assert before + entries[..i + 1] + entries[i + 1..] == before + entries;
  }

  /** One turn of the inner loop; after its break the rest of the chunk changes nothing. */
  method ScanNext(
      entries: seq<FileEntry>, i: nat, maxFiles: int, maxStat: int, tally: Tally, ghost before: seq<FileEntry>)
    returns (t: Tally, stop: bool)
    requires i < |entries| && tally == EntriesTally(before + entries[..i], maxFiles, maxStat)
    ensures t == EntriesTally(before + entries[..i + 1], maxFiles, maxStat)
    ensures stop <==> Counted(entries[i]) && 0 < maxFiles <= |CountedFiles(before + entries[..i])|
    ensures stop ==> t == EntriesTally(before + entries, maxFiles, maxStat)
  {
    EntryTallied(before, entries, i, maxFiles, maxStat);
    ghost var files := CountedFiles(before + entries[..i]);
    if Counted(entries[i]) {
      TallyNext(files, entries[i], maxFiles, maxStat);
    }
    t, stop := ScanEntry(entries[i], maxFiles, maxStat, tally);
    if stop {
      StoppedChunk(before, entries, i, maxFiles, maxStat);
    }
  }

  /** How often the context is polled while these chunks are read: once before each call and once
      for each entry. */
  function Polls(chunks: seq<seq<FileEntry>>): nat {
    if chunks == [] then 0 else Polls(chunks[..|chunks| - 1]) + 1 + |chunks[|chunks| - 1]|
  }

  /** The entries whose own poll comes before the c-th poll. */
  function Examined(chunks: seq<seq<FileEntry>>, c: nat): seq<FileEntry> {
    if chunks == [] then []
    else
      var front, last := chunks[..|chunks| - 1], chunks[|chunks| - 1];
      if c <= Polls(front) then Examined(front, c)
      else if c - Polls(front) - 1 < |last| then Flatten(front) + last[..c - Polls(front) - 1]
      else Flatten(chunks)
  }

  /** Past the count cap, the tally does not depend on how much of the rest of the chunk is seen. */
  lemma StoppedAnywhere(before: seq<FileEntry>, entries: seq<FileEntry>, i: nat, k: nat, maxFiles: int, maxStat: int)
    requires i < k <= |entries| && Counted(entries[i]) && 0 < maxFiles <= |CountedFiles(before + entries[..i])|
    ensures EntriesTally(before + entries[..k], maxFiles, maxStat)
            == EntriesTally(before + entries[..i + 1], maxFiles, maxStat)
    ensures EntriesTally(before + entries[..k], maxFiles, maxStat).truncated
  {
    assert entries[..k][..i] == entries[..i] && entries[..k][..i + 1] == entries[..i + 1];
    StoppedChunk(before, entries[..k], i, maxFiles, maxStat);
    EntryTallied(before, entries, i, maxFiles, maxStat);
    TallyNext(CountedFiles(before + entries[..i]), entries[i], maxFiles, maxStat);
  }

  /** The tally of one chunk when the context is cancelled at the c-th poll or never. */
  function ChunkTally(
      before: seq<FileEntry>, entries: seq<FileEntry>, cancelAt: Option<nat>, polls: nat, maxFiles: int, maxStat: int): Tally
    requires !Cancelled(cancelAt, polls)
  {
    if Cancelled(cancelAt, polls + |entries|)
    then EntriesTally(before + entries[..cancelAt.value - polls - 1], maxFiles, maxStat).(truncated := true)
    else EntriesTally(before + entries, maxFiles, maxStat)
  }

  lemma StoppedTally(
      before: seq<FileEntry>, entries: seq<FileEntry>, i: nat, cancelAt: Option<nat>, polls: nat, maxFiles: int, maxStat: int)
    requires i < |entries| && Counted(entries[i]) && 0 < maxFiles <= |CountedFiles(before + entries[..i])|
    requires !Cancelled(cancelAt, polls + i + 1)
    ensures !Cancelled(cancelAt, polls)
    ensures ChunkTally(before, entries, cancelAt, polls, maxFiles, maxStat)
            == EntriesTally(before + entries[..i + 1], maxFiles, maxStat)
    ensures EntriesTally(before + entries[..i + 1], maxFiles, maxStat).truncated
  {
    assert entries[..|entries|] == entries;
    if Cancelled(cancelAt, polls + |entries|) {
      StoppedAnywhere(before, entries, i, cancelAt.value - polls - 1, maxFiles, maxStat);
    } else {
      StoppedAnywhere(before, entries, i, |entries|, maxFiles, maxStat);
    }
  }

  /** The inner loop, over the entries of one ReadDir call. */
  method ScanChunk(
      entries: seq<FileEntry>, maxFiles: int, maxStat: int, cancelAt: Option<nat>,
      tally: Tally, polls: nat, ghost before: seq<FileEntry>)
    returns (t: Tally, poll: nat)
    requires tally == EntriesTally(before, maxFiles, maxStat) && !Cancelled(cancelAt, polls)
    ensures t == ChunkTally(before, entries, cancelAt, polls, maxFiles, maxStat)
    ensures (t.truncated && maxFiles > 0) || (Cancelled(cancelAt, poll) <==> Cancelled(cancelAt, polls + |entries|))
    ensures Cancelled(cancelAt, poll) ==> Cancelled(cancelAt, polls + |entries|) && t.truncated
    ensures (t.truncated && maxFiles > 0) || Cancelled(cancelAt, poll) || poll == polls + |entries|
  {
    t, poll := tally, polls;
    assert before + entries[..0] == before;
    for i := 0 to |entries|
      invariant poll == polls + i && !Cancelled(cancelAt, poll)
      invariant t == EntriesTally(before + entries[..i], maxFiles, maxStat)
    {
      poll := poll + 1;
      if Cancelled(cancelAt, poll) {
        return t.(truncated := true), poll;
      }
      var stop;
      ghost var was := t;
      t, stop := ScanNext(entries, i, maxFiles, maxStat, t, before);
      if stop {
        StoppedTally(before, entries, i, cancelAt, polls, maxFiles, maxStat);
        return t, poll;
      }
    }
    assert entries[..|entries|] == entries;
  }

  lemma {:induction false} FlattenPrefix(chunks: seq<seq<FileEntry>>, m: nat)
    requires m <= |chunks|
    ensures Flatten(chunks[..m]) <= Flatten(chunks)
    decreases |chunks| - m
  {
    if m < |chunks| {
      FlattenPrefix(chunks, m + 1);
      assert chunks[..m + 1][..m] == chunks[..m];
    } else {
      assert chunks[..m] == chunks;
    }
  }

  lemma ExaminedFront(chunks: seq<seq<FileEntry>>, c: nat)
    requires chunks != [] && c <= Polls(chunks[..|chunks| - 1])
    ensures Examined(chunks, c) == Examined(chunks[..|chunks| - 1], c)
  {
  }

  lemma ExaminedLast(chunks: seq<seq<FileEntry>>, k: nat)
    requires chunks != [] && k <= |chunks[|chunks| - 1]|
    ensures var front, last := chunks[..|chunks| - 1], chunks[|chunks| - 1];
            Examined(chunks, Polls(front) + 1 + k) == Flatten(front) + last[..k]
  {
    var last := chunks[|chunks| - 1];
    assert last[..|last|] == last;
  }

  lemma ExaminedAll(chunks: seq<seq<FileEntry>>)
    ensures Examined(chunks, Polls(chunks)) == Flatten(chunks)
  {
    if chunks != [] {
      var last := chunks[|chunks| - 1];
      ExaminedLast(chunks, |last|);
      assert last[..|last|] == last;
    }
  }

  /** Everything polled before the first poll of the i-th call. */
  lemma {:induction false} ExaminedUpTo(chunks: seq<seq<FileEntry>>, i: nat)
    requires i < |chunks|
    ensures Examined(chunks, Polls(chunks[..i])) == Flatten(chunks[..i])
    decreases |chunks|
  {
    var front := chunks[..|chunks| - 1];
    assert front[..i] == chunks[..i];
    if i < |front| {
      PollsGrow(front, i);
      ExaminedFront(chunks, Polls(chunks[..i]));
      ExaminedUpTo(front, i);
    } else {
      assert chunks[..i] == front;
      ExaminedFront(chunks, Polls(front));
      ExaminedAll(front);
    }
  }

  /** Everything polled before a poll made during the i-th call. */
  lemma {:induction false} ExaminedInside(chunks: seq<seq<FileEntry>>, i: nat, k: nat)
    requires i < |chunks| && k <= |chunks[i]|
    ensures Examined(chunks, Polls(chunks[..i]) + 1 + k) == Flatten(chunks[..i]) + chunks[i][..k]
    decreases |chunks|
  {
    var front := chunks[..|chunks| - 1];
    assert front[..i] == chunks[..i];
    if i < |front| {
      PollsGrow(front, i);
      ExaminedFront(chunks, Polls(chunks[..i]) + 1 + k);
      ExaminedInside(front, i, k);
    } else {
      ExaminedLast(chunks, k);
    }
  }

  lemma {:induction false} PollsGrow(chunks: seq<seq<FileEntry>>, i: nat)
    requires i < |chunks|
    ensures Polls(chunks[..i + 1]) == Polls(chunks[..i]) + 1 + |chunks[i]| <= Polls(chunks)
    decreases |chunks| - i
  {
    assert chunks[..i + 1][..i] == chunks[..i];
    if i + 1 < |chunks| {
      PollsGrow(chunks, i + 1);
    } else {
      assert chunks[..i + 1] == chunks;
    }
  }

  /** What was examined is the beginning of the directory. */
  lemma {:induction false} ExaminedIsPrefix(chunks: seq<seq<FileEntry>>, c: nat)
    ensures Examined(chunks, c) <= Flatten(chunks)
  {
    if chunks != [] {
      ExaminedIsPrefix(chunks[..|chunks| - 1], c);
    }
  }

  /** The context is found cancelled before the last call of the scan is done with. */
  predicate CutOff(chunks: Chunks, cancelAt: Option<nat>, maxFiles: int, maxStat: int) {
    cancelAt.Some? && cancelAt.value < Polls(chunks[..ChunksRead(chunks, 1, maxFiles, maxStat)])
  }

  /** What scanDir returns: a scan that is cut off reports what it had examined, as truncated. */
  function ScanUnlessCut(dir: Directory, maxFiles: int, maxStat: int, cancelAt: Option<nat>): ScanResult {
    if dir.Opened? && CutOff(dir.chunks, cancelAt, maxFiles, maxStat)
    then Summary(Examined(dir.chunks, cancelAt.value), maxFiles, maxStat).(truncated := true)
    else Scan(dir, maxFiles, maxStat)
  }

  /** The tally with which the outer loop ends. */
  function FinalTally(chunks: Chunks, cancelAt: Option<nat>, maxFiles: int, maxStat: int): Tally {
    if CutOff(chunks, cancelAt, maxFiles, maxStat)
    then EntriesTally(Examined(chunks, cancelAt.value), maxFiles, maxStat).(truncated := true)
    else EntriesTally(Flatten(chunks[..ChunksRead(chunks, 1, maxFiles, maxStat)]), maxFiles, maxStat)
  }

  /** Where the outer loop stands at its head, before a cancellation is met or after. */
  ghost predicate Progress(
      chunks: Chunks, i: nat, t: Tally, poll: nat, cancelAt: Option<nat>, cut: bool, maxFiles: int, maxStat: int)
  {
    if cut then Cancelled(cancelAt, poll) && t == FinalTally(chunks, cancelAt, maxFiles, maxStat) && t.truncated
    else
      && i < |chunks| && poll == Polls(chunks[..i]) && (i > 0 ==> !Cancelled(cancelAt, poll - 1))
      && t == EntriesTally(Flatten(chunks[..i]), maxFiles, maxStat)
      && ChunksRead(chunks, 1, maxFiles, maxStat) == ChunksRead(chunks, i + 1, maxFiles, maxStat)
  }

  /** Every call up to the last one read is polled for in full. */
  lemma PollsOfCall(chunks: Chunks, i: nat, maxFiles: int, maxStat: int)
    requires i < |chunks| && ChunksRead(chunks, 1, maxFiles, maxStat) == ChunksRead(chunks, i + 1, maxFiles, maxStat)
    ensures Polls(chunks[..i]) + 1 + |chunks[i]| <= Polls(chunks[..ChunksRead(chunks, 1, maxFiles, maxStat)])
  {
    var r := ChunksRead(chunks, 1, maxFiles, maxStat);
    PollsGrow(chunks[..r], i);
    assert chunks[..r][..i] == chunks[..i];
  }

  /** A cancellation met at the head of a turn. */
  lemma CutAtHead(
      chunks: Chunks, i: nat, t: Tally, poll: nat, cancelAt: Option<nat>, cut: bool, maxFiles: int, maxStat: int)
    requires Progress(chunks, i, t, poll, cancelAt, cut, maxFiles, maxStat) && Cancelled(cancelAt, poll)
    ensures t.(truncated := true) == FinalTally(chunks, cancelAt, maxFiles, maxStat)
  {
    if !cut {
      assert cancelAt.value == poll;
      ExaminedUpTo(chunks, i);
      PollsOfCall(chunks, i, maxFiles, maxStat);
    }
  }

  lemma CutPlace(chunks: Chunks, i: nat, c: nat)
    requires i < |chunks| && Polls(chunks[..i]) < c <= Polls(chunks[..i]) + |chunks[i]|
    ensures Examined(chunks, c) == Flatten(chunks[..i]) + chunks[i][..c - Polls(chunks[..i]) - 1]
  {
    ExaminedInside(chunks, i, c - Polls(chunks[..i]) - 1);
  }

  lemma CutTallies(
      chunks: Chunks, before: seq<FileEntry>, entries: seq<FileEntry>, polls: nat, cancelAt: Option<nat>,
      maxFiles: int, maxStat: int)
    requires CutOff(chunks, cancelAt, maxFiles, maxStat)
    requires !Cancelled(cancelAt, polls) && Cancelled(cancelAt, polls + |entries|)
    requires Examined(chunks, cancelAt.value) == before + entries[..cancelAt.value - polls - 1]
    ensures ChunkTally(before, entries, cancelAt, polls, maxFiles, maxStat)
            == FinalTally(chunks, cancelAt, maxFiles, maxStat)
  {
  }

  /** A cancellation met during a call. */
  lemma CutInCall(
      chunks: Chunks, i: nat, t: Tally, poll: nat, cancelAt: Option<nat>, maxFiles: int, maxStat: int)
    requires Progress(chunks, i, t, poll, cancelAt, false, maxFiles, maxStat) && !Cancelled(cancelAt, poll)
    requires Cancelled(cancelAt, poll + |chunks[i]|)
    ensures ChunkTally(Flatten(chunks[..i]), chunks[i], cancelAt, poll, maxFiles, maxStat)
            == FinalTally(chunks, cancelAt, maxFiles, maxStat)
  {
    CutPlace(chunks, i, cancelAt.value);
    PollsOfCall(chunks, i, maxFiles, maxStat);
    CutTallies(chunks, Flatten(chunks[..i]), chunks[i], poll, cancelAt, maxFiles, maxStat);
  }

  /** The tests after the inner loop decide exactly whether another chunk is read. */
  lemma CallDone(
      chunks: Chunks, i: nat, was: Tally, poll: nat, cancelAt: Option<nat>, maxFiles: int, maxStat: int)
    requires Progress(chunks, i, was, poll, cancelAt, false, maxFiles, maxStat)
    requires !Cancelled(cancelAt, poll + |chunks[i]|)
    ensures var t := EntriesTally(Flatten(chunks[..i]) + chunks[i], maxFiles, maxStat);
            if (t.truncated && maxFiles > 0) || i + 1 == |chunks|
            then t == FinalTally(chunks, cancelAt, maxFiles, maxStat)
            else Progress(chunks, i + 1, t, poll + |chunks[i]| + 1, cancelAt, false, maxFiles, maxStat)
  {
    assert chunks[..i + 1][..i] == chunks[..i];
    assert Flatten(chunks[..i + 1]) == Flatten(chunks[..i]) + chunks[i];
    PollsGrow(chunks, i);
    var t := EntriesTally(Flatten(chunks[..i]) + chunks[i], maxFiles, maxStat);
    assert t.truncated == CutShortIn(chunks[..i + 1], maxFiles, maxStat);
    if (t.truncated && maxFiles > 0) || i + 1 == |chunks| {
      assert ChunksRead(chunks, 1, maxFiles, maxStat) == i + 1;
    }
  }

  method Report(t: Tally) returns (res: ScanResult)
    ensures res.fileCount == t.count && res.truncated == t.truncated && res.success
    ensures res.oldest == (if t.stats > 0 then t.oldest else 0) && res.newest == (if t.stats > 0 then t.newest else 0)
  {
    res := ScanResult(t.count, 0, 0, true, t.truncated);
    if t.stats > 0 {
      res := res.(oldest := t.oldest, newest := t.newest);
    }
  }

  /** scanDir. cancelAt is the poll of the context from which it is cancelled. */
  method ScanDir(dir: Directory, maxFiles: int, maxStat: int, cancelAt: Option<nat>) returns (res: ScanResult)
    ensures res == ScanUnlessCut(dir, maxFiles, maxStat, cancelAt)
  {
    if dir.Unopenable? {
      return ScanResult(0, 0, 0, false, false);
    }
    var t := ScanChunks(dir.chunks, maxFiles, maxStat, cancelAt);
    TallyReports(
      if CutOff(dir.chunks, cancelAt, maxFiles, maxStat) then Examined(dir.chunks, cancelAt.value)
      else Flatten(dir.chunks[..ChunksRead(dir.chunks, 1, maxFiles, maxStat)]), maxFiles, maxStat);
    res := Report(t);
  }

  /** The outer loop: one ReadDir call a turn. */
  method ScanChunks(chunks: Chunks, maxFiles: int, maxStat: int, cancelAt: Option<nat>) returns (t: Tally)
    ensures t == FinalTally(chunks, cancelAt, maxFiles, maxStat)
  {
    t := Tally(0, 0, MAX_INT64, MIN_INT64, false);
    var i, poll := 0, 0;
    ghost var cut := false;
    while true
      invariant 0 <= i <= |chunks| && Progress(chunks, i, t, poll, cancelAt, cut, maxFiles, maxStat)
      decreases |chunks| - i
    {
      if Cancelled(cancelAt, poll) {
        CutAtHead(chunks, i, t, poll, cancelAt, cut, maxFiles, maxStat);
        return t.(truncated := true);
      }
      ghost var was, polls := t, poll;
      t, poll := ScanChunk(chunks[i], maxFiles, maxStat, cancelAt, t, poll, Flatten(chunks[..i]));
      if Cancelled(cancelAt, polls + |chunks[i]|) {
        CutInCall(chunks, i, was, polls, cancelAt, maxFiles, maxStat);
        cut := true;
      } else {
        CallDone(chunks, i, was, polls, cancelAt, maxFiles, maxStat);
      }
      if t.truncated && maxFiles > 0 {
        return;
      }
      i := i + 1;
      if i == |chunks| {
        return;
      }
      poll := poll + 1;
    }
  }
}
