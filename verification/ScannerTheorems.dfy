/** What scanDir reports, and when its count is what the documentation says. */
module ScannerTheorems {
  import opened Wrappers
  import opened Scanner

  /** With these caps, reaching the stat cap never stops the count short of the count cap. */
  predicate CapsAgree(maxFiles: int, maxStat: int) {
    maxFiles <= 0 || maxStat <= 0 || maxFiles <= maxStat + 1
  }

  lemma CutShortIsFinal(files: seq<FileEntry>, more: seq<FileEntry>, maxFiles: int, maxStat: int)
    requires AllCounted(files) && AllCounted(more) && CapsAgree(maxFiles, maxStat)
    requires maxFiles > 0 && CutShort(files, maxFiles, maxStat)
    ensures AllCounted(files + more) && TallyOf(files + more, maxFiles, maxStat) == TallyOf(files, maxFiles, maxStat)
  {
    if maxFiles < |files| {
      CountCapRest(files, more, maxFiles, maxStat);
    } else {
      assert Capped(files, maxFiles) == files;
      assert Capped(files + more, maxFiles) == files;
    }
  }

  lemma {:induction false} StoppedEarly(chunks: Chunks, m: nat, maxFiles: int, maxStat: int)
    requires 1 <= m <= |chunks|
    ensures var r := ChunksRead(chunks, m, maxFiles, maxStat);
            r < |chunks| ==> maxFiles > 0 && CutShortIn(chunks[..r], maxFiles, maxStat)
    decreases |chunks| - m
  {
    if !(m == |chunks| || (maxFiles > 0 && CutShortIn(chunks[..m], maxFiles, maxStat))) {
      StoppedEarly(chunks, m + 1, maxFiles, maxStat);
    }
  }

  /** When the caps agree, a scan is the summary of the whole directory, however it was
      chunked: the count is min(maxFiles, n) and the times come from the first maxStat. */
  lemma ScanIsFlat(chunks: Chunks, maxFiles: int, maxStat: int)
    requires CapsAgree(maxFiles, maxStat)
    ensures Scan(Opened(chunks), maxFiles, maxStat) == Summary(Flatten(chunks), maxFiles, maxStat)
  {
    var r := ChunksRead(chunks, 1, maxFiles, maxStat);
    StoppedEarly(chunks, 1, maxFiles, maxStat);
    FlattenPrefix(chunks, r);
    if r == |chunks| {
      assert chunks[..r] == chunks;
    } else {
      SummaryIsFinal(chunks[..r], Flatten(chunks), maxFiles, maxStat);
    }
  }

  lemma SummaryIsFinal(front: seq<seq<FileEntry>>, all: seq<FileEntry>, maxFiles: int, maxStat: int)
    requires CapsAgree(maxFiles, maxStat) && maxFiles > 0 && CutShortIn(front, maxFiles, maxStat)
    requires Flatten(front) <= all
    ensures Summary(all, maxFiles, maxStat) == Summary(Flatten(front), maxFiles, maxStat)
  {
    var read := Flatten(front);
    var rest := all[|read|..];
    assert all == read + rest;
    CountedFilesAllCounted(read);
    CountedFilesAllCounted(rest);
    CountedFilesConcat(read, rest);
    CutShortIsFinal(CountedFiles(read), CountedFiles(rest), maxFiles, maxStat);
    TallyReports(read, maxFiles, maxStat);
    TallyReports(all, maxFiles, maxStat);
  }

  // ---- reading a directory to its end ---------------------------------------------------------

  lemma {:induction false} FlattenCons(chunk: seq<FileEntry>, rest: seq<seq<FileEntry>>)
    ensures Flatten([chunk] + rest) == chunk + Flatten(rest)
  {
    var all := [chunk] + rest;
    if rest == [] {
      assert all[..0] == [] && Flatten(all[..0]) == [];
    } else {
      var n := |rest| - 1;
      FlattenCons(chunk, rest[..n]);
      assert all[..n + 1] == [chunk] + rest[..n];
      ConcatAssociates(chunk, Flatten(rest[..n]), rest[n]);
    }
  }

  /** The calls return the entries, in order. */
  lemma {:induction false} CallsFlatten(entries: seq<FileEntry>)
    ensures Flatten(ReadDirCalls(entries)) == entries
    decreases |entries|
  {
    FlattenCons(entries, [[]]);
    FlattenCons([], []);
    if |entries| > DIR_CHUNK_SIZE {
      var first, rest := entries[..DIR_CHUNK_SIZE], entries[DIR_CHUNK_SIZE..];
      CallsFlatten(rest);
      FlattenCons(first, ReadDirCalls(rest));
    }
  }

  /** A front of whole chunks is what the first calls return. */
  lemma {:induction false} CallsOfFront(front: seq<FileEntry>, rest: seq<FileEntry>, k: nat)
    requires |front| == k * DIR_CHUNK_SIZE && rest != []
    ensures var calls := ReadDirCalls(front + rest); k < |calls| && Flatten(calls[..k]) == front
    decreases k
  {
    var calls := ReadDirCalls(front + rest);
    if k > 0 {
      var first, later := front[..DIR_CHUNK_SIZE], front[DIR_CHUNK_SIZE..];
      CallsOfFront(later, rest, k - 1);
      assert (front + rest)[..DIR_CHUNK_SIZE] == first && (front + rest)[DIR_CHUNK_SIZE..] == later + rest;
      var more := ReadDirCalls(later + rest);
      assert calls == [first] + more && calls[..k] == [first] + more[..k - 1];
      FlattenCons(first, more[..k - 1]);
    }
  }

  // ---- when the count is what the caps say ----------------------------------------------------

  const PLAIN := FileEntry(false, false, None, Some(0))
  const SUBDIRECTORY := FileEntry(true, false, None, None)

  function PlainFiles(n: nat): seq<FileEntry> {
    seq(n, _ => PLAIN)
  }

  function Subdirectories(n: nat): seq<FileEntry> {
    seq(n, _ => SUBDIRECTORY)
  }

  lemma {:induction false} PlainFilesCounted(n: nat)
    ensures CountedFiles(PlainFiles(n)) == PlainFiles(n)
    ensures AllCounted(PlainFiles(n)) && |Times(PlainFiles(n))| == n
  {
    if n > 0 {
      PlainFilesCounted(n - 1);
      assert PlainFiles(n)[1..] == PlainFiles(n - 1);
      assert PlainFiles(n)[..n - 1] == PlainFiles(n - 1);
      assert PlainFiles(n) == [PLAIN] + PlainFiles(n - 1);
    }
  }

  lemma {:induction false} SubdirectoriesSkipped(n: nat, files: nat)
    ensures CountedFiles(Subdirectories(n) + PlainFiles(files)) == PlainFiles(files)
  {
    var all := Subdirectories(n) + PlainFiles(files);
    if n == 0 {
      PlainFilesCounted(files);
      assert all == PlainFiles(files);
    } else {
      SubdirectoriesSkipped(n - 1, files);
      assert all[0] == SUBDIRECTORY && all[1..] == Subdirectories(n - 1) + PlainFiles(files);
    }
  }

  /** Reading stops at the latest with the first chunk at whose end a cap was hit. */
  lemma {:induction false} StopsBy(chunks: Chunks, m: nat, k: nat, maxFiles: int, maxStat: int)
    requires 1 <= m <= k <= |chunks| && maxFiles > 0 && CutShortIn(chunks[..k], maxFiles, maxStat)
    ensures ChunksRead(chunks, m, maxFiles, maxStat) <= k
    decreases |chunks| - m
  {
    if m < k {
      StopsBy(chunks, m + 1, k, maxFiles, maxStat);
    }
  }

  lemma CountedUpTo(chunks: Chunks, r: nat, k: nat)
    requires r <= k <= |chunks|
    ensures |CountedFiles(Flatten(chunks[..r]))| <= |CountedFiles(Flatten(chunks[..k]))|
  {
    FlattenPrefix(chunks[..k], r);
    assert chunks[..k][..r] == chunks[..r];
    var a, b := Flatten(chunks[..r]), Flatten(chunks[..k]);
    CountedFilesConcat(a, b[|a|..]);
    assert a + b[|a|..] == b;
  }

  /** As many subdirectories as bring the file after the last stat call to the end of a chunk,
      the files, and one file more. */
  function StatCapWitness(maxStat: nat): seq<FileEntry> {
    Front(maxStat) + [PLAIN]
  }

  function Padding(n: nat): nat {
    (DIR_CHUNK_SIZE - n % DIR_CHUNK_SIZE) % DIR_CHUNK_SIZE
  }

  function Front(maxStat: nat): seq<FileEntry> {
    Subdirectories(Padding(maxStat + 1)) + PlainFiles(maxStat + 1)
  }

  lemma FrontFillsChunks(maxStat: nat) returns (k: nat)
    ensures k >= 1 && |Front(maxStat)| == k * DIR_CHUNK_SIZE
  {
    var n := maxStat + 1;
    k := (Padding(n) + n) / DIR_CHUNK_SIZE;
    assert (Padding(n) + n) % DIR_CHUNK_SIZE == 0;
  }

  lemma FrontCutsShort(maxFiles: int, maxStat: nat)
    requires 0 < maxStat && maxStat + 2 <= maxFiles
    ensures CountedFiles(Front(maxStat)) == PlainFiles(maxStat + 1) && AllCounted(PlainFiles(maxStat + 1))
    ensures CutShort(PlainFiles(maxStat + 1), maxFiles, maxStat)
  {
    SubdirectoriesSkipped(Padding(maxStat + 1), maxStat + 1);
    PlainFilesCounted(maxStat + 1);
    PlainFilesCounted(maxStat);
    assert PlainFiles(maxStat + 1)[..maxStat] == PlainFiles(maxStat);
  }

  lemma WitnessCounted(maxStat: nat)
    ensures CountedFiles(StatCapWitness(maxStat)) == PlainFiles(maxStat + 2)
  {
    SubdirectoriesSkipped(Padding(maxStat + 1), maxStat + 1);
    CountedFilesConcat(Front(maxStat), [PLAIN]);
    PlainFilesCounted(1);
    assert PlainFiles(1) == [PLAIN] && PlainFiles(maxStat + 2) == PlainFiles(maxStat + 1) + PlainFiles(1);
  }

  /** With both caps set and the count cap two or more above the stat cap, a directory whose
      files fit the count cap is counted short: the file that finds the stat calls spent ends
      a chunk, and the chunk after it is not read. */
  lemma StatCapStopsCount(maxFiles: int, maxStat: int)
    requires !CapsAgree(maxFiles, maxStat)
    ensures var entries := StatCapWitness(maxStat);
            && |CountedFiles(entries)| == maxStat + 2 <= maxFiles
            && Scan(Opened(ReadDirCalls(entries)), maxFiles, maxStat).fileCount <= maxStat + 1
  {
    var calls := ReadDirCalls(StatCapWitness(maxStat));
    var k := FrontFillsChunks(maxStat);
    CallsOfFront(Front(maxStat), [PLAIN], k);
    FrontCutsShort(maxFiles, maxStat);
    WitnessCounted(maxStat);
    assert CutShortIn(calls[..k], maxFiles, maxStat);
    StopsBy(calls, 1, k, maxFiles, maxStat);
    CountedUpTo(calls, ChunksRead(calls, 1, maxFiles, maxStat), k);
  }

  function CountUnder(maxFiles: int, n: nat): nat {
    if 0 < maxFiles < n then maxFiles else n
  }

  /** Every directory is counted up to the count cap. */
  ghost predicate CountIsCapped(maxFiles: int, maxStat: int) {
    forall entries ::
      Scan(Opened(ReadDirCalls(entries)), maxFiles, maxStat).fileCount
      == CountUnder(maxFiles, |CountedFiles(entries)|)
  }

  /** Every directory is reported as if it had been read in one piece. */
  ghost predicate ScanIsSummary(maxFiles: int, maxStat: int) {
    forall entries :: Scan(Opened(ReadDirCalls(entries)), maxFiles, maxStat) == Summary(entries, maxFiles, maxStat)
  }

  /** The count is min(maxFiles, n), and the whole report that of the entries in one piece, for
      every directory exactly when the caps agree. */
  lemma CappedCountIff(maxFiles: int, maxStat: int)
    ensures CountIsCapped(maxFiles, maxStat) <==> CapsAgree(maxFiles, maxStat)
    ensures ScanIsSummary(maxFiles, maxStat) <==> CapsAgree(maxFiles, maxStat)
  {
    if CapsAgree(maxFiles, maxStat) {
      forall entries
        ensures Scan(Opened(ReadDirCalls(entries)), maxFiles, maxStat) == Summary(entries, maxFiles, maxStat)
      {
        ScanIsFlat(ReadDirCalls(entries), maxFiles, maxStat);
        CallsFlatten(entries);
      }
    } else {
      StatCapStopsCount(maxFiles, maxStat);
      var entries := StatCapWitness(maxStat);
      assert Scan(Opened(ReadDirCalls(entries)), maxFiles, maxStat).fileCount
             < CountUnder(maxFiles, |CountedFiles(entries)|);
    }
  }

  /** After some of the chunks the stat calls are spent, the count cap is not, and a countable file
      is still to come. */
  ghost predicate FileLeftBehind(chunks: Chunks, maxFiles: int, maxStat: int) {
    exists m :: 1 <= m <= |chunks| && LeftAfter(chunks, m, maxFiles, maxStat)
  }

  predicate LeftAfter(chunks: Chunks, m: nat, maxFiles: int, maxStat: int)
    requires m <= |chunks|
  {
    var read := CountedFiles(Flatten(chunks[..m]));
    CountedFilesAllCounted(Flatten(chunks[..m]));
    StatCapHit(read, maxStat) && |read| < maxFiles && |read| < |CountedFiles(Flatten(chunks))|
  }

  lemma LeftAfterIsCut(chunks: Chunks, m: nat, maxFiles: int, maxStat: int)
    requires m <= |chunks|
    ensures var read := CountedFiles(Flatten(chunks[..m]));
            LeftAfter(chunks, m, maxFiles, maxStat)
            <==> maxFiles > 0 && CutShortIn(chunks[..m], maxFiles, maxStat)
                 && |read| < maxFiles && |read| < |CountedFiles(Flatten(chunks))|
  {
    CountedFilesAllCounted(Flatten(chunks[..m]));
  }

  function CountAfter(chunks: Chunks, m: nat): nat
    requires m <= |chunks|
  {
    |CountedFiles(Flatten(chunks[..m]))|
  }

  lemma ScanCounts(chunks: Chunks, maxFiles: int, maxStat: int) returns (r: nat)
    ensures 1 <= r <= |chunks| && r == ChunksRead(chunks, 1, maxFiles, maxStat)
    ensures Scan(Opened(chunks), maxFiles, maxStat).fileCount == CountUnder(maxFiles, CountAfter(chunks, r))
    ensures CountAfter(chunks, r) <= CountAfter(chunks, |chunks|) == |CountedFiles(Flatten(chunks))|
  {
    r := ChunksRead(chunks, 1, maxFiles, maxStat);
    SummaryMeaning(Flatten(chunks[..r]), maxFiles, maxStat);
    assert chunks[..|chunks|] == chunks;
    CountedUpTo(chunks, r, |chunks|);
  }

  lemma LeftBehindIsShort(chunks: Chunks, m: nat, maxFiles: int, maxStat: int)
    requires 1 <= m <= |chunks| && LeftAfter(chunks, m, maxFiles, maxStat)
    ensures Scan(Opened(chunks), maxFiles, maxStat).fileCount < CountUnder(maxFiles, |CountedFiles(Flatten(chunks))|)
  {
    LeftAfterIsCut(chunks, m, maxFiles, maxStat);
    StopsBy(chunks, 1, m, maxFiles, maxStat);
    var r := ScanCounts(chunks, maxFiles, maxStat);
    CountedUpTo(chunks, r, m);
  }

  lemma UnderTells(maxFiles: int, c: nat, n: nat)
    requires c <= n && CountUnder(maxFiles, c) != CountUnder(maxFiles, n)
    ensures c < n && (maxFiles > 0 ==> c < maxFiles)
  {
  }

  lemma ShortLeavesBehind(chunks: Chunks, r: nat, maxFiles: int, maxStat: int)
    requires r == ChunksRead(chunks, 1, maxFiles, maxStat) && CountAfter(chunks, r) <= CountAfter(chunks, |chunks|)
    requires CountUnder(maxFiles, CountAfter(chunks, r)) != CountUnder(maxFiles, CountAfter(chunks, |chunks|))
    ensures FileLeftBehind(chunks, maxFiles, maxStat)
  {
    assert chunks[..|chunks|] == chunks;
    UnderTells(maxFiles, CountAfter(chunks, r), CountAfter(chunks, |chunks|));
    StoppedEarly(chunks, 1, maxFiles, maxStat);
    CutLeaves(chunks, r, maxFiles, maxStat);
  }

  lemma CutLeaves(chunks: Chunks, r: nat, maxFiles: int, maxStat: int)
    requires 1 <= r <= |chunks| && maxFiles > 0 && CutShortIn(chunks[..r], maxFiles, maxStat)
    requires CountAfter(chunks, r) < maxFiles && CountAfter(chunks, r) < |CountedFiles(Flatten(chunks))|
    ensures FileLeftBehind(chunks, maxFiles, maxStat)
  {
    LeftAfterIsCut(chunks, r, maxFiles, maxStat);
    assert LeftAfter(chunks, r, maxFiles, maxStat);
  }

  /** Directory by directory: the count is min(maxFiles, n) exactly when no file is left behind by
      spending the stat calls, whatever the caps and however it was cut into chunks. */
  lemma CountIsCappedForIff(chunks: Chunks, maxFiles: int, maxStat: int)
    ensures Scan(Opened(chunks), maxFiles, maxStat).fileCount
            == CountUnder(maxFiles, |CountedFiles(Flatten(chunks))|)
            <==> !FileLeftBehind(chunks, maxFiles, maxStat)
  {
    var r := ScanCounts(chunks, maxFiles, maxStat);
    if m: nat :| 1 <= m <= |chunks| && LeftAfter(chunks, m, maxFiles, maxStat) {
      LeftBehindIsShort(chunks, m, maxFiles, maxStat);
    } else if CountUnder(maxFiles, CountAfter(chunks, r)) != CountUnder(maxFiles, CountAfter(chunks, |chunks|)) {
      ShortLeavesBehind(chunks, r, maxFiles, maxStat);
    }
  }

  /** Every directory is counted in full. */
  ghost predicate CountIsExact(maxFiles: int, maxStat: int) {
    forall entries ::
      Scan(Opened(ReadDirCalls(entries)), maxFiles, maxStat).fileCount == |CountedFiles(entries)|
  }

  lemma CountIsCappedAt(entries: seq<FileEntry>, maxFiles: int, maxStat: int)
    requires maxFiles > 0
    ensures Scan(Opened(ReadDirCalls(entries)), maxFiles, maxStat).fileCount <= maxFiles
  {
    var calls := ReadDirCalls(entries);
    SummaryMeaning(Flatten(calls[..ChunksRead(calls, 1, maxFiles, maxStat)]), maxFiles, maxStat);
  }

  /** The count is that of all files, for every directory, exactly when there is no count cap. */
  lemma ExactCountIff(maxFiles: int, maxStat: int)
    ensures CountIsExact(maxFiles, maxStat) <==> maxFiles <= 0
  {
    if maxFiles <= 0 {
      CappedCountIff(maxFiles, maxStat);
      assert CountIsCapped(maxFiles, maxStat);
    } else {
      var entries := PlainFiles(maxFiles + 1);
      PlainFilesCounted(maxFiles + 1);
      CountIsCappedAt(entries, maxFiles, maxStat);
    }
  }

  // ---- what the numbers mean ------------------------------------------------------------------

  lemma {:induction false} LeastAttained(ts: seq<UnixTime>)
    requires ts != []
    ensures Least(ts, MAX_INT64) in ts && forall t :: t in ts ==> Least(ts, MAX_INT64) <= t
    ensures Greatest(ts, MIN_INT64) in ts && forall t :: t in ts ==> t <= Greatest(ts, MIN_INT64)
  {
    var front, last := ts[..|ts| - 1], ts[|ts| - 1];
    assert ts == front + [last];
    if front != [] {
      LeastAttained(front);
    }
  }

  lemma {:induction false} TimesGrow(files: seq<FileEntry>, k: nat, m: nat)
    requires AllCounted(files) && k <= m <= |files|
    ensures |Times(files[..k])| <= |Times(files[..m])|
  {
    if k < m {
      TimesGrow(files, k, m - 1);
      assert files[..m][..m - 1] == files[..m - 1];
    }
  }

  /** Some file comes after the stat calls have all been spent. */
  predicate StatsSpent(files: seq<FileEntry>, maxStat: int)
    requires AllCounted(files)
  {
    maxStat > 0 && exists k :: 0 <= k < |files| && |Times(files[..k])| >= maxStat
  }

  lemma StatCapHitMeaning(files: seq<FileEntry>, maxStat: int)
    requires AllCounted(files)
    ensures StatCapHit(files, maxStat) <==> StatsSpent(files, maxStat)
  {
    if maxStat > 0 {
      if k :| 0 <= k < |files| && |Times(files[..k])| >= maxStat {
        TimesGrow(files, k, |files| - 1);
      }
    }
  }

  /** The times a report is made from. */
  function TimesRead(entries: seq<FileEntry>, maxFiles: int, maxStat: int): seq<UnixTime> {
    CountedFilesAllCounted(entries);
    Capped(Times(Capped(CountedFiles(entries), maxFiles)), maxStat)
  }

  /** The report in plain terms: the count under its cap, and the smallest and largest of the
      times read, both attained. */
  lemma SummaryMeaning(entries: seq<FileEntry>, maxFiles: int, maxStat: int)
    ensures var n := |CountedFiles(entries)|;
            var s := Summary(entries, maxFiles, maxStat);
            var ts := TimesRead(entries, maxFiles, maxStat);
            && s.fileCount == (if 0 < maxFiles < n then maxFiles else n)
            && (ts == [] ==> s.oldest == 0 && s.newest == 0)
            && (ts != [] ==> s.oldest in ts && s.newest in ts)
            && (forall t :: t in ts ==> s.oldest <= t <= s.newest)
  {
    var ts := TimesRead(entries, maxFiles, maxStat);
    if ts != [] {
      LeastAttained(ts);
    }
  }

  lemma AllTimesRead(files: seq<FileEntry>, maxStat: int)
    requires AllCounted(files) && !StatCapHit(files, maxStat)
    ensures Capped(Times(files), maxStat) == Times(files)
  {
    if maxStat > 0 && files != [] {
      TimesStep(files[..|files| - 1], files[|files| - 1]);
      assert files[..|files| - 1] + [files[|files| - 1]] == files;
    }
  }

  /** A report is marked truncated exactly when a file was left out of the count or was counted
      with all stat calls spent; one that is not has counted every file and read every time. */
  lemma TruncatedMeaning(entries: seq<FileEntry>, maxFiles: int, maxStat: int)
    ensures AllCounted(CountedFiles(entries)) && AllCounted(Capped(CountedFiles(entries), maxFiles))
    ensures var files := CountedFiles(entries);
            var kept, s := Capped(files, maxFiles), Summary(entries, maxFiles, maxStat);
            && (s.truncated <==> kept != files || StatsSpent(kept, maxStat))
            && (!s.truncated ==> s.fileCount == |files| && TimesRead(entries, maxFiles, maxStat) == Times(files))
  {
    CountedFilesAllCounted(entries);
    var files := CountedFiles(entries);
    var kept := Capped(files, maxFiles);
    StatCapHitMeaning(kept, maxStat);
    if kept == files && !StatCapHit(files, maxStat) {
      AllTimesRead(files, maxStat);
    }
  }
}
