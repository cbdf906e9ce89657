/** The report of a directory told by the fields of its entries alone. */
module ScannerMeaning {
  import opened Wrappers
  import opened Selection
  import opened Scanner
  import opened ScannerTheorems
  import opened Buffers

  /** Subdirectories, links to directories and broken links. */
  predicate Ignored(e: FileEntry) {
    || (e.isSymlink && (e.target.None? || e.target.value.isDir))
    || (!e.isSymlink && e.isDir)
  }

  /** The time read for a file: that of what a link points to, otherwise its own. */
  predicate HasTime(e: FileEntry, t: UnixTime) {
    if e.isSymlink then e.target.Some? && e.target.value.mtime == t else e.info == Some(t)
  }

  predicate Readable(e: FileEntry) {
    e.isSymlink || e.info.Some?
  }

  // ---- a whole report -----------------------------------------------------------------------------

  function FilePlaces(entries: seq<FileEntry>): nat -> bool {
    (k: nat) => k < |entries| && !Ignored(entries[k])
  }

  function ReadablePlaces(files: seq<FileEntry>): nat -> bool {
    (k: nat) => k < |files| && Readable(files[k])
  }

  lemma {:induction false} CountedArePlaces(entries: seq<FileEntry>) returns (ks: seq<nat>)
    ensures Selects(ks, |entries|, FilePlaces(entries)) && InRange(ks, |entries|)
    ensures CountedFiles(entries) == At(entries, ks)
  {
    ks := [];
    if entries != [] {
      var rest := CountedArePlaces(entries[1..]);
      ks := From(!Ignored(entries[0]), rest);
      FromSelects(rest, |entries| - 1, FilePlaces(entries[1..]), FilePlaces(entries));
      FromAt(!Ignored(entries[0]), entries[0], entries[1..], rest);
      assert [entries[0]] + entries[1..] == entries;
    }
  }

  /** The times, each at the place of its file. */
  ghost predicate TimesAt(files: seq<FileEntry>, js: seq<nat>, ts: seq<UnixTime>) {
    && Selects(js, |files|, ReadablePlaces(files)) && InRange(js, |files|)
    && |ts| == |js| && forall i :: 0 <= i < |js| ==> HasTime(files[js[i]], ts[i])
  }

  lemma SelectsSame(js: seq<nat>, n: nat, p: nat -> bool, q: nat -> bool)
    requires Selects(js, n, p) && forall k: nat :: k < n ==> p(k) == q(k)
    ensures Selects(js, n, q)
  {
  }

  lemma {:induction false} TimesArePlaces(files: seq<FileEntry>) returns (js: seq<nat>)
    requires AllCounted(files)
    ensures TimesAt(files, js, Times(files))
  {
    js := [];
    if files != [] {
      var n := |files| - 1;
      var front := TimesArePlaces(files[..n]);
      SelectsSame(front, n, ReadablePlaces(files[..n]), ReadablePlaces(files));
      OneMoreSelects(front, n, ReadablePlaces(files));
      js := front + if Readable(files[n]) then [n] else [];
    }
  }

  lemma FrontTimes(files: seq<FileEntry>, js: seq<nat>, m: nat)
    requires AllCounted(files) && files != [] && m > 0 && TimesAt(files, js, Times(files))
    ensures |Times(files[..|files| - 1])| >= m <==> m <= |js| && js[m - 1] < |files| - 1
  {
    var n := |files| - 1;
    var front := TimesArePlaces(files[..n]);
    SelectsSame(front, n, ReadablePlaces(files[..n]), ReadablePlaces(files));
    OneMoreSelects(front, n, ReadablePlaces(files));
    SelectionUnique(js, front + (if Readable(files[n]) then [n] else []), |files|, ReadablePlaces(files));
  }

  /** What a report says of a directory's files at the places ks, when the times of those it counts
      that can be read stand at the places js among them: how many it counts, the least and the
      greatest of the first times, and whether anything was left out or left unread. */
  ghost predicate Tells(
      r: ScanResult, entries: seq<FileEntry>, ks: seq<nat>, js: seq<nat>, ts: seq<UnixTime>, maxFiles: int, maxStat: int)
    requires InRange(ks, |entries|)
  {
    && r.success
    && r.fileCount == (if 0 < maxFiles < |ks| then maxFiles else |ks|)
    && Selects(js, r.fileCount, ReadablePlaces(At(entries, ks)))
    && |ts| == (if 0 < maxStat < |js| then maxStat else |js|)
    && (forall i :: 0 <= i < |ts| ==> js[i] < |ks| && HasTime(entries[ks[js[i]]], ts[i]))
    && (if ts == [] then r.oldest == 0 && r.newest == 0
        else r.oldest in ts && r.newest in ts && forall t :: t in ts ==> r.oldest <= t <= r.newest)
    && (r.truncated <==>
          || r.fileCount < |ks|
          || (0 < maxStat <= |js| && js[maxStat - 1] < r.fileCount - 1))
  }

  lemma KeptTimes(files: seq<FileEntry>, maxFiles: int, maxStat: int) returns (js: seq<nat>)
    requires AllCounted(files)
    ensures AllCounted(Capped(files, maxFiles))
    ensures TimesAt(Capped(files, maxFiles), js, Times(Capped(files, maxFiles)))
    ensures Selects(js, |Capped(files, maxFiles)|, ReadablePlaces(files))
    ensures CutShort(files, maxFiles, maxStat)
            <==> |Capped(files, maxFiles)| < |files|
                 || (0 < maxStat <= |js| && js[maxStat - 1] < |Capped(files, maxFiles)| - 1)
  {
    var kept := Capped(files, maxFiles);
    js := TimesArePlaces(kept);
    SelectsSame(js, |kept|, ReadablePlaces(kept), ReadablePlaces(files));
    if maxStat > 0 && kept != [] {
      FrontTimes(kept, js, maxStat);
    }
  }

  /** The report of a directory read in one piece, for all entries and caps. */
  lemma PieceMeaning(entries: seq<FileEntry>, maxFiles: int, maxStat: int)
    returns (ks: seq<nat>, js: seq<nat>, ts: seq<UnixTime>)
    ensures Selects(ks, |entries|, FilePlaces(entries)) && InRange(ks, |entries|)
    ensures Tells(Summary(entries, maxFiles, maxStat), entries, ks, js, ts, maxFiles, maxStat)
  {
    ks := CountedArePlaces(entries);
    CountedFilesAllCounted(entries);
    var files := CountedFiles(entries);
    var kept := Capped(files, maxFiles);
    js := KeptTimes(files, maxFiles, maxStat);
    ts := Capped(Times(kept), maxStat);
    SummaryMeaning(entries, maxFiles, maxStat);
  }

  /** The report of any directory is that of its first r calls in one piece. All calls are read, save
      that under a count cap the first call after which that report is truncated is the last. */
  lemma ReportMeaning(chunks: Chunks, maxFiles: int, maxStat: int)
    returns (r: nat, ks: seq<nat>, js: seq<nat>, ts: seq<UnixTime>)
    ensures 1 <= r <= |chunks|
    ensures r < |chunks| ==> maxFiles > 0 && Scan(Opened(chunks), maxFiles, maxStat).truncated
    ensures forall m :: 1 <= m < r && maxFiles > 0 ==>
              !Scan(Opened([Flatten(chunks[..m])]), maxFiles, maxStat).truncated
    ensures var entries := Flatten(chunks[..r]);
            && Selects(ks, |entries|, FilePlaces(entries)) && InRange(ks, |entries|)
            && Tells(Scan(Opened(chunks), maxFiles, maxStat), entries, ks, js, ts, maxFiles, maxStat)
  {
    r := ChunksRead(chunks, 1, maxFiles, maxStat);
    StoppedEarly(chunks, 1, maxFiles, maxStat);
    ks, js, ts := PieceMeaning(Flatten(chunks[..r]), maxFiles, maxStat);
    forall m | 1 <= m < r && maxFiles > 0 ensures !Scan(Opened([Flatten(chunks[..m])]), maxFiles, maxStat).truncated {
      NotCutBefore(chunks, 1, m, maxFiles, maxStat);
      OnePiece(Flatten(chunks[..m]), maxFiles, maxStat);
    }
  }

  lemma {:induction false} NotCutBefore(chunks: Chunks, from: nat, m: nat, maxFiles: int, maxStat: int)
    requires 1 <= from <= |chunks| && maxFiles > 0 && from <= m < ChunksRead(chunks, from, maxFiles, maxStat)
    ensures !Summary(Flatten(chunks[..m]), maxFiles, maxStat).truncated
    decreases |chunks| - from
  {
    if from < m {
      NotCutBefore(chunks, from + 1, m, maxFiles, maxStat);
    }
  }

  lemma OnePiece(entries: seq<FileEntry>, maxFiles: int, maxStat: int)
    ensures Scan(Opened([entries]), maxFiles, maxStat) == Summary(entries, maxFiles, maxStat)
  {
    assert [entries][..1] == [entries] && Flatten([]) + entries == entries;
    assert [entries][..0] == [];
    assert Flatten([entries]) == Flatten([]) + entries;
  }

  // ---- one entry more ----------------------------------------------------------------------------------

  /** The results of the ReadDir calls with e put into the j-th, at place i. */
  function Inserted(chunks: Chunks, j: nat, i: nat, e: FileEntry): Chunks
    requires j < |chunks| && i <= |chunks[j]|
  {
    chunks[j := chunks[j][..i] + [e] + chunks[j][i..]]
  }

  function Counts(e: FileEntry): seq<FileEntry> {
    if Ignored(e) then [] else [e]
  }

  lemma CountedOne(e: FileEntry)
    ensures CountedFiles([e]) == Counts(e)
  {
    assert [e][1..] == [];
  }

  lemma CountedInserted(a: seq<FileEntry>, e: FileEntry, b: seq<FileEntry>)
    ensures CountedFiles(a + [e] + b) == CountedFiles(a) + Counts(e) + CountedFiles(b)
    ensures CountedFiles(a + b) == CountedFiles(a) + CountedFiles(b)
  {
    CountedOne(e);
    CountedFilesConcat(a + [e], b);
    CountedFilesConcat(a, [e]);
    CountedFilesConcat(a, b);
  }

  lemma CountInserted(a: seq<FileEntry>, e: FileEntry, b: seq<FileEntry>)
    ensures |CountedFiles(a + [e] + b)| == |CountedFiles(a + b)| + if Ignored(e) then 0 else 1
    ensures Ignored(e) ==> CountedFiles(a + [e] + b) == CountedFiles(a + b)
  {
    CountedInserted(a, e, b);
    ConcatEmpty(CountedFiles(a));
  }

  lemma {:induction false} FlattenInserted(chunks: Chunks, j: nat, i: nat, e: FileEntry, m: nat)
    returns (a: seq<FileEntry>, b: seq<FileEntry>)
    requires j < m <= |chunks| && i <= |chunks[j]|
    ensures Flatten(chunks[..m]) == a + b && Flatten(Inserted(chunks, j, i, e)[..m]) == a + [e] + b
    decreases m
  {
    var more := Inserted(chunks, j, i, e);
    assert chunks[..m][..m - 1] == chunks[..m - 1] && more[..m][..m - 1] == more[..m - 1];
    if m == j + 1 {
      a, b := Flatten(chunks[..j]) + chunks[j][..i], chunks[j][i..];
      assert more[..j] == chunks[..j];
      assert chunks[j] == chunks[j][..i] + chunks[j][i..];
    } else {
      var c, d := FlattenInserted(chunks, j, i, e, m - 1);
      a, b := c, d + chunks[m - 1];
    }
  }

  lemma SameCounted(chunks: Chunks, j: nat, i: nat, e: FileEntry, m: nat)
    requires j < |chunks| && i <= |chunks[j]| && Ignored(e) && m <= |chunks|
    ensures CountedFiles(Flatten(Inserted(chunks, j, i, e)[..m])) == CountedFiles(Flatten(chunks[..m]))
  {
    if m <= j {
      assert Inserted(chunks, j, i, e)[..m] == chunks[..m];
    } else {
      var a, b := FlattenInserted(chunks, j, i, e, m);
      CountInserted(a, e, b);
    }
  }

  lemma {:induction false} SameReading(chunks: Chunks, j: nat, i: nat, e: FileEntry, m: nat, maxFiles: int, maxStat: int)
    requires j < |chunks| && i <= |chunks[j]| && Ignored(e) && 1 <= m <= |chunks|
    ensures ChunksRead(Inserted(chunks, j, i, e), m, maxFiles, maxStat) == ChunksRead(chunks, m, maxFiles, maxStat)
    decreases |chunks| - m
  {
    SameCounted(chunks, j, i, e, m);
    if m < |chunks| {
      SameReading(chunks, j, i, e, m + 1, maxFiles, maxStat);
    }
  }

  lemma SummaryOfCounted(a: seq<FileEntry>, b: seq<FileEntry>, maxFiles: int, maxStat: int)
    requires CountedFiles(a) == CountedFiles(b)
    ensures Summary(a, maxFiles, maxStat) == Summary(b, maxFiles, maxStat)
  {
  }

  /** A subdirectory, a link to a directory or a broken link, wherever it is listed, leaves the report
      and the count-only scan as they are, under all caps. */
  lemma IgnoredChangesNothing(chunks: Chunks, j: nat, i: nat, e: FileEntry, maxFiles: int, maxStat: int)
    requires j < |chunks| && i <= |chunks[j]| && Ignored(e)
    ensures Scan(Opened(Inserted(chunks, j, i, e)), maxFiles, maxStat) == Scan(Opened(chunks), maxFiles, maxStat)
    ensures DirectCount(Opened(Inserted(chunks, j, i, e))) == DirectCount(Opened(chunks))
  {
    var more := Inserted(chunks, j, i, e);
    SameReading(chunks, j, i, e, 1, maxFiles, maxStat);
    var r := ChunksRead(chunks, 1, maxFiles, maxStat);
    SameCounted(chunks, j, i, e, r);
    SummaryOfCounted(Flatten(more[..r]), Flatten(chunks[..r]), maxFiles, maxStat);
    SameCounted(chunks, j, i, e, |chunks|);
    assert more[..|chunks|] == more && chunks[..|chunks|] == chunks;
  }

  lemma UncappedCounts(chunks: Chunks, maxFiles: int, maxStat: int)
    requires maxFiles <= 0
    ensures Scan(Opened(chunks), maxFiles, maxStat).fileCount == |CountedFiles(Flatten(chunks))|
  {
    ScanIsFlat(chunks, maxFiles, maxStat);
    SummaryMeaning(Flatten(chunks), maxFiles, maxStat);
  }

  lemma FlatCount(chunks: Chunks, j: nat, i: nat, e: FileEntry)
    requires j < |chunks| && i <= |chunks[j]| && !Ignored(e)
    ensures |CountedFiles(Flatten(Inserted(chunks, j, i, e)))| == |CountedFiles(Flatten(chunks))| + 1
  {
    var more := Inserted(chunks, j, i, e);
    var a, b := FlattenInserted(chunks, j, i, e, |chunks|);
    CountInserted(a, e, b);
    assert more[..|chunks|] == more && chunks[..|chunks|] == chunks;
  }

  lemma CountedDirectly(chunks: Chunks)
    ensures DirectCount(Opened(chunks)) == Some(|CountedFiles(Flatten(chunks))|)
  {
  }

  /** Any other entry is one file more, for the scan without a count cap and for the count-only one. */
  lemma FileCountsOnce(chunks: Chunks, j: nat, i: nat, e: FileEntry, maxFiles: int, maxStat: int)
    requires j < |chunks| && i <= |chunks[j]| && !Ignored(e) && maxFiles <= 0
    ensures Scan(Opened(Inserted(chunks, j, i, e)), maxFiles, maxStat).fileCount
            == Scan(Opened(chunks), maxFiles, maxStat).fileCount + 1
    ensures DirectCount(Opened(Inserted(chunks, j, i, e))) == Some(DirectCount(Opened(chunks)).value + 1)
  {
    FlatCount(chunks, j, i, e);
    UncappedCounts(chunks, maxFiles, maxStat);
    UncappedCounts(Inserted(chunks, j, i, e), maxFiles, maxStat);
    CountedDirectly(chunks);
    CountedDirectly(Inserted(chunks, j, i, e));
  }

  /** The count-only scan: all entries not ignored, unless it cannot be opened or one of its polls,
      one for each call and each entry, finds the context cancelled. */
  lemma CountMeaning(chunks: Chunks, cutAt: Option<nat>) returns (ks: seq<nat>)
    ensures CountUnlessCut(Unopenable, cutAt) == None
    ensures Selects(ks, |Flatten(chunks)|, FilePlaces(Flatten(chunks)))
    ensures CountUnlessCut(Opened(chunks), cutAt)
            == if cutAt.Some? && cutAt.value < |chunks| + |Flatten(chunks)| then None else Some(|ks|)
  {
    ks := CountedArePlaces(Flatten(chunks));
    PollsMeaning(chunks);
    CountedDirectly(chunks);
  }

  // ---- calls and polls ------------------------------------------------------------------------------------

  /** The context is polled once for each call and once for each entry. */
  lemma {:induction false} PollsMeaning(chunks: seq<seq<FileEntry>>)
    ensures Polls(chunks) == |chunks| + |Flatten(chunks)|
  {
    if chunks != [] {
      PollsMeaning(chunks[..|chunks| - 1]);
    }
  }

  /** A directory is read in calls of 256 entries, then one for the rest, and an empty one at the end. */
  lemma {:induction false} CallsMeaning(entries: seq<FileEntry>)
    ensures var calls := ReadDirCalls(entries);
            && calls[|calls| - 1] == []
            && (forall i :: 0 <= i < |calls| - 1 ==> 0 < |calls[i]| <= 256)
            && (forall i :: 0 <= i < |calls| - 2 ==> |calls[i]| == 256)
    decreases |entries|
  {
    if |entries| > DIR_CHUNK_SIZE {
      CallsMeaning(entries[DIR_CHUNK_SIZE..]);
      var calls, later := ReadDirCalls(entries), ReadDirCalls(entries[DIR_CHUNK_SIZE..]);
      assert calls == [entries[..DIR_CHUNK_SIZE]] + later;
      forall i | 0 <= i < |calls| - 1 ensures 0 < |calls[i]| <= 256 && (i < |calls| - 2 ==> |calls[i]| == 256) {
        if i > 0 {
          assert calls[i] == later[i - 1];
        }
      }
    }
  }

  /** A scan that is cut off reports no more than the whole of what comes first in the directory: what
      had been examined is the first part of it. */
  lemma CutReport(chunks: Chunks, c: nat, maxFiles: int, maxStat: int)
    requires CutOff(chunks, Some(c), maxFiles, maxStat)
    ensures var r := ScanUnlessCut(Opened(chunks), maxFiles, maxStat, Some(c));
            && r.truncated && r.success
            && exists k: nat :: k <= |Flatten(chunks)| && k <= c
                 && r == Scan(Opened([Flatten(chunks)[..k]]), maxFiles, maxStat).(truncated := true)
  {
    ExaminedIsPrefix(chunks, c);
    ExaminedFew(chunks, c);
    var k := |Examined(chunks, c)|;
    assert Flatten(chunks)[..k] == Examined(chunks, c);
    OnePiece(Examined(chunks, c), maxFiles, maxStat);
  }

  lemma {:induction false} ExaminedFew(chunks: seq<seq<FileEntry>>, c: nat)
    ensures |Examined(chunks, c)| <= c
  {
    if chunks != [] {
      ExaminedFew(chunks[..|chunks| - 1], c);
      PollsMeaning(chunks[..|chunks| - 1]);
      PollsMeaning(chunks);
    }
  }
}
