/** Node buffer backlogs (buffer.go): the count-only scan, and the reuse of directory scans
    in its place. */
module Buffers {
  import opened Wrappers
  import opened Text
  import opened Paths
  import opened Records
  import opened Scanner
  import opened ScannerTheorems
  import opened Fanout
  import opened Sorting
  import opened NodeKeys

  // ---- countBufferFiles --------------------------------------------------------------------

  /** The count-only result: how many files, or None when the directory cannot be opened. */
  function DirectCount(dir: Directory): Option<nat> {
    match dir
    case Unopenable => None
    case Opened(chunks) => Some(|CountedFiles(Flatten(chunks))|)
  }

  /** The count, unless the context is found cancelled on the way: cutAt is the first of its
      polls that finds it so. */
  function CountUnlessCut(dir: Directory, cutAt: Option<nat>): Option<nat> {
    if dir.Opened? && cutAt.Some? && cutAt.value < Polls(dir.chunks) then None else DirectCount(dir)
  }

  /** The inner loop: one ReadDir call's entries. poll is past the deadline when it gave up. */
  method CountChunk(entries: seq<FileEntry>, counted: nat, cancelAt: Option<nat>, polls: nat, ghost before: seq<FileEntry>)
    returns (count: nat, poll: nat)
    requires counted == |CountedFiles(before)| && !Cancelled(cancelAt, polls)
    ensures Cancelled(cancelAt, poll) <==> Cancelled(cancelAt, polls + |entries|)
    ensures !Cancelled(cancelAt, poll) ==> poll == polls + |entries| && count == |CountedFiles(before + entries)|
    ensures count <= |CountedFiles(before + entries)|
  {
    count, poll := counted, polls;
    assert before + entries[..0] == before;
    for j := 0 to |entries|
      invariant poll == polls + j && !Cancelled(cancelAt, poll)
      invariant count == |CountedFiles(before + entries[..j])|
    {
      CountedNext(before, entries, j);
      poll := poll + 1;
      if Cancelled(cancelAt, poll) {
        return;
      }
      var e := entries[j];
      if e.isSymlink {
        if e.target.None? || e.target.value.isDir {
          continue;
        }
        count := count + 1;
      } else if e.isDir {
        continue;
      } else {
        count := count + 1;
      }
    }
    assert entries[..|entries|] == entries;
  }

  lemma CountedNext(before: seq<FileEntry>, entries: seq<FileEntry>, j: nat)
    requires j < |entries|
    ensures |CountedFiles(before + entries[..j])| <= |CountedFiles(before + entries)|
    ensures |CountedFiles(before + entries[..j + 1])|
            == |CountedFiles(before + entries[..j])| + if Counted(entries[j]) then 1 else 0
  {
    assert before + entries[..j] + entries[j..] == before + entries;
    CountedPrefix(before + entries[..j], before + entries);
    EntryStep(before + entries[..j], entries[j], 0, 0);
    assert before + entries[..j + 1] == before + entries[..j] + [entries[j]];
  }

  /** countBufferFiles; cancelAt is the poll of the context from which it is cancelled. */
  method CountBufferFiles(dir: Directory, cancelAt: Option<nat>) returns (count: nat, ok: bool)
    ensures (if ok then Some(count) else None) == CountUnlessCut(dir, cancelAt)
    ensures !ok && dir.Opened? ==> count <= |CountedFiles(Flatten(dir.chunks))|
  {
    if dir.Unopenable? {
      return 0, false;
    }
    var chunks := dir.chunks;
    count := 0;
    var poll := 0;
    for i := 0 to |chunks|
      invariant count == |CountedFiles(Flatten(chunks[..i]))| && poll == Polls(chunks[..i])
      invariant i > 0 ==> !Cancelled(cancelAt, poll - 1)
    {
      FlattenPrefix(chunks, i);
      CountedPrefix(Flatten(chunks[..i]), Flatten(chunks));
      FlattenNext(chunks, i);
      FlattenPrefix(chunks, i + 1);
      CountedPrefix(Flatten(chunks[..i + 1]), Flatten(chunks));
      PollsGrow(chunks, i);
      if Cancelled(cancelAt, poll) {
        return count, false;
      }
      count, poll := CountChunk(chunks[i], count, cancelAt, poll, Flatten(chunks[..i]));
      if Cancelled(cancelAt, poll) {
        return count, false;
      }
      poll := poll + 1;
    }
    assert chunks[..|chunks|] == chunks;
    ok := true;
  }

  lemma FlattenNext(chunks: Chunks, i: nat)
    requires i < |chunks|
    ensures Flatten(chunks[..i + 1]) == Flatten(chunks[..i]) + chunks[i]
  {
    assert chunks[..i + 1][..i] == chunks[..i];
  }

  lemma CountedPrefix(a: seq<FileEntry>, b: seq<FileEntry>)
    requires a <= b
    ensures |CountedFiles(a)| <= |CountedFiles(b)|
  {
    CountedFilesConcat(a, b[|a|..]);
    assert a + b[|a|..] == b;
  }

  // ---- the two counts agree -------------------------------------------------------------------

  /** A successful scan with these caps counts what the count-only scan counts. */
  predicate ScanCountsAll(dir: Directory, maxFiles: int, maxStat: int) {
    Scan(dir, maxFiles, maxStat).success ==> DirectCount(dir) == Some(Scan(dir, maxFiles, maxStat).fileCount)
  }

  /** Without a count cap they agree on every directory; a scan fails just where it cannot
      be opened. */
  lemma UncappedScanCountsAll(dir: Directory, maxFiles: int, maxStat: int)
    requires maxFiles <= 0
    ensures ScanCountsAll(dir, maxFiles, maxStat)
    ensures Scan(dir, maxFiles, maxStat).success <==> dir.Opened?
  {
    if dir.Opened? {
      ScanIsFlat(dir.chunks, maxFiles, maxStat);
      SummaryMeaning(Flatten(dir.chunks), maxFiles, maxStat);
    }
  }

  /** A configured count cap breaks the agreement on some directory, so reusing scans in place
      of counts is exact for all directories just when MAX_FILES_PER_DIR is off. */
  lemma ReuseIsExactIff(maxFiles: int, maxStat: int)
    ensures (forall entries :: ScanCountsAll(Opened(ReadDirCalls(entries)), maxFiles, maxStat)) <==> maxFiles <= 0
  {
    if maxFiles <= 0 {
      forall entries ensures ScanCountsAll(Opened(ReadDirCalls(entries)), maxFiles, maxStat) {
        UncappedScanCountsAll(Opened(ReadDirCalls(entries)), maxFiles, maxStat);
      }
    } else {
      PlainFilesCounted(maxFiles + 1);
      CapBreaksReuse(PlainFiles(maxFiles + 1), maxFiles, maxStat);
    }
  }

  /** Every directory with more files than the cap is counted short by the scan. */
  lemma CapBreaksReuse(entries: seq<FileEntry>, maxFiles: int, maxStat: int)
    requires 0 < maxFiles < |CountedFiles(entries)|
    ensures !ScanCountsAll(Opened(ReadDirCalls(entries)), maxFiles, maxStat)
  {
    CallsFlatten(entries);
    CountIsCappedAt(entries, maxFiles, maxStat);
  }

  // ---- collector nodes ------------------------------------------------------------------------------

  function Lower(s: string): string {
    seq(|s|, i requires 0 <= i < |s| => if 'A' <= s[i] <= 'Z' then s[i] - 'A' + 'a' else s[i])
  }

  predicate IsSpace(c: char) {
    c == ' ' || c == '\t' || c == '\n' || c == '\r' || c == '\U{0B}' || c == '\U{0C}' || c == '\U{85}' || c == '\U{A0}'
  }

  function TrimSpace(s: string): string
    decreases |s|
  {
    if s != "" && IsSpace(s[0]) then TrimSpace(s[1..])
    else if s != "" && IsSpace(s[|s| - 1]) then TrimSpace(s[..|s| - 1])
    else s
  }

  /** isCollector. */
  predicate IsCollector(nodeType: string) {
    var lower := Lower(TrimSpace(nodeType));
    Contains(lower, "collector") || lower == "col"
  }

  /** What a node's files say, and when the context is cancelled. config: the NodeType and
      SourceDirectory values of its control file; detect: the fallback type; directory: what
      opening a path gives; cut: the poll that first finds the context cancelled while a node's
      i-th path is counted. */
  datatype NodeWorld = NodeWorld(
    config: string -> (string, seq<string>),
    detect: (string, string) -> string,
    directory: string -> Directory,
    cut: (StreamNode, nat) -> Option<nat>)

  /** The context is not cancelled. */
  ghost predicate Uncut(w: NodeWorld) {
    forall n, i :: w.cut(n, i) == None
  }

  /** resolveNodeBufferPaths after parsing: other node types have no buffer paths. */
  function ResolvePaths(w: NodeWorld, nodeDir: string): (string, seq<string>) {
    var (nodeType, paths) := w.config(nodeDir);
    if nodeType != "" && !IsCollector(nodeType) then (nodeType, []) else (nodeType, paths)
  }

  function NodeTypeOf(w: NodeWorld, n: StreamNode): string {
    var configured := ResolvePaths(w, n.nodeDir).0;
    if configured != "" then configured
    else if n.nodeType != "" then n.nodeType
    else w.detect(n.nodeDir, n.node)
  }

  /** The nodes that get a buffer metric. */
  predicate HasBuffer(w: NodeWorld, n: StreamNode) {
    !(n.nodeType != "" && !IsCollector(n.nodeType)) && IsCollector(NodeTypeOf(w, n))
  }

  /** The count of a node's i-th path: a successful scan of the same cleaned path, else a count. */
  function PathCount(w: NodeWorld, cached: map<string, DirMetrics>, n: StreamNode, i: nat, path: string): Option<nat> {
    var clean := Clean(path);
    if clean in cached && cached[clean].success then Some(cached[clean].fileCount)
    else CountUnlessCut(w.directory(clean), w.cut(n, i))
  }

  function CountSum(w: NodeWorld, cached: map<string, DirMetrics>, n: StreamNode, paths: seq<string>): nat {
    if paths == [] then 0
    else
      var last := |paths| - 1;
      var c := PathCount(w, cached, n, last, paths[last]);
      CountSum(w, cached, n, paths[..last]) + if c.Some? then c.value else 0
  }

  predicate AllCount(w: NodeWorld, cached: map<string, DirMetrics>, n: StreamNode, paths: seq<string>) {
    forall i :: 0 <= i < |paths| ==> PathCount(w, cached, n, i, paths[i]).Some?
  }

  /** The buffer record of a collector: the sum over its paths, successful when there is a
      path and all of them could be counted. */
  function BufferOf(w: NodeWorld, cached: map<string, DirMetrics>, n: StreamNode): NodeBuffer {
    var paths := ResolvePaths(w, n.nodeDir).1;
    NodeBuffer(n.base, n.stream, n.node, "collector",
      if paths == [] then "-" else Join(paths, ','),
      CountSum(w, cached, n, paths), paths != [] && AllCount(w, cached, n, paths))
  }

  function BufferKey(n: StreamNode): string {
    TypedKey(n.base, n.stream, n.node, "collector")
  }

  /** The loop body for one path: reuse, or count. */
  method CountPath(w: NodeWorld, cached: map<string, DirMetrics>, n: StreamNode, i: nat, path: string)
    returns (c: Option<nat>)
    ensures c == PathCount(w, cached, n, i, path)
  {
    var clean := Clean(path);
    if clean in cached && cached[clean].success {
      return Some(cached[clean].fileCount);
    }
    var count, ok := CountBufferFiles(w.directory(clean), w.cut(n, i));
    c := if ok then Some(count) else None;
  }

  lemma OneMorePath(w: NodeWorld, cached: map<string, DirMetrics>, n: StreamNode, paths: seq<string>, i: nat)
    requires i < |paths|
    ensures var c := PathCount(w, cached, n, i, paths[i]);
            && CountSum(w, cached, n, paths[..i + 1])
               == CountSum(w, cached, n, paths[..i]) + (if c.Some? then c.value else 0)
            && (AllCount(w, cached, n, paths[..i + 1]) <==> AllCount(w, cached, n, paths[..i]) && c.Some?)
  {
    var longer, shorter := paths[..i + 1], paths[..i];
    assert longer[..i] == shorter && longer[i] == paths[i];
    forall k | 0 <= k < i ensures PathCount(w, cached, n, k, longer[k]) == PathCount(w, cached, n, k, shorter[k]) {
      assert longer[k] == shorter[k];
    }
  }

  /** The loop over a node's paths. */
  method SumPaths(w: NodeWorld, cached: map<string, DirMetrics>, n: StreamNode, paths: seq<string>)
    returns (total: nat, anyOK: bool, okAll: bool)
    ensures total == CountSum(w, cached, n, paths)
    ensures (anyOK && okAll) == (paths != [] && AllCount(w, cached, n, paths))
  {
    total, anyOK, okAll := 0, false, |paths| > 0;
    for i := 0 to |paths|
      invariant total == CountSum(w, cached, n, paths[..i])
      invariant okAll == (|paths| > 0 && AllCount(w, cached, n, paths[..i]))
      invariant okAll && i > 0 ==> anyOK
    {
      OneMorePath(w, cached, n, paths, i);
      var c := CountPath(w, cached, n, i, paths[i]);
      if c.None? {
        okAll := false;
        continue;
      }
      total := total + c.value;
      anyOK := true;
    }
    assert paths[..|paths|] == paths;
  }

  /** The goroutine of one node. */
  method BufferJob(w: NodeWorld, cached: map<string, DirMetrics>, sn: StreamNode) returns (out: Option<NodeBuffer>)
    requires !(sn.nodeType != "" && !IsCollector(sn.nodeType))
    ensures out == if HasBuffer(w, sn) then Some(BufferOf(w, cached, sn)) else None
  {
    var (nodeType, paths) := ResolvePaths(w, sn.nodeDir);
    if nodeType == "" {
      nodeType := sn.nodeType;
    }
    if nodeType == "" {
      nodeType := w.detect(sn.nodeDir, sn.node);
    }
    if !IsCollector(nodeType) {
      return None;
    }
    var total, anyOK, okAll := SumPaths(w, cached, sn, paths);
    var resolved := Join(paths, ',');
    if |paths| == 0 {
      resolved := "-";
    }
    out := Some(NodeBuffer(sn.base, sn.stream, sn.node, "collector", resolved, total, anyOK && okAll));
  }

  // ---- all nodes ---------------------------------------------------------------------------------------

  /** What each node's goroutine stores, if anything. */
  function BufferWrite(w: NodeWorld, cached: map<string, DirMetrics>): StreamNode -> Option<Write<string, NodeBuffer>> {
    n => if HasBuffer(w, n) then Some(Write(BufferKey(n), BufferOf(w, cached, n))) else None
  }

  /** Some copy of the scan results under cleaned paths; Go's map order picks the survivor when
      two paths clean to the same one. */
  ghost predicate IsCleaned(cached: map<string, DirMetrics>, results: map<string, DirMetrics>) {
    && (forall k :: k in cached ==> exists a :: a in results && Clean(a) == k && cached[k] == results[a])
    && (forall a :: a in results ==> Clean(a) in cached)
  }

  method CleanKeys(results: map<string, DirMetrics>) returns (cached: map<string, DirMetrics>)
    ensures IsCleaned(cached, results)
  {
    cached := map[];
    var left := results.Keys;
    while left != {}
      invariant left <= results.Keys
      invariant forall k :: k in cached ==> exists a :: a in results && Clean(a) == k && cached[k] == results[a]
      invariant forall a :: a in results && a !in left ==> Clean(a) in cached
      decreases |left|
    {
      var a :| a in left;
      cached := cached[Clean(a) := results[a]];
      left := left - {a};
    }
  }

  /** One turn of the launching loop: the fast skip, then the node's goroutine. */
  method BufferStep(w: NodeWorld, cached: map<string, DirMetrics>, n: StreamNode)
    returns (write: Option<Write<string, NodeBuffer>>)
    ensures write == BufferWrite(w, cached)(n)
  {
    if n.nodeType != "" && !IsCollector(n.nodeType) {
      return None;
    }
    var buffer := BufferJob(w, cached, n);
    write := if buffer.Some? then Some(Write(BufferKey(n), buffer.value)) else None;
  }

  /** The map of all records of the nodes launched, over some copy of the scan results under
      cleaned paths. */
  ghost predicate BuffersOver(
      w: NodeWorld, nodes: seq<StreamNode>, cancelAt: Option<nat>, results: map<string, DirMetrics>,
      out: map<string, NodeBuffer>)
  {
    exists cached ::
      IsCleaned(cached, results) && out == Apply(JobWrites(Launched(nodes, cancelAt), BufferWrite(w, cached)))
  }

  /** ScanAllNodeBuffers, the goroutines taking the lock in launch order; cancelAt is the turn of
      the loop that finds the context cancelled. */
  method ScanAllNodeBuffers(
      w: NodeWorld, nodes: seq<StreamNode>, cancelAt: Option<nat>, results: map<string, DirMetrics>)
    returns (out: map<string, NodeBuffer>)
    ensures BuffersOver(w, nodes, cancelAt, results, out)
  {
    var cached := CleanKeys(results);
    out := map[];
    var i := 0;
    ghost var launched, job := Launched(nodes, cancelAt), BufferWrite(w, cached);
    ghost var ws: seq<Write<string, NodeBuffer>> := [];
    assert launched[0..] == launched;
    while i < |nodes| && !(cancelAt.Some? && i >= cancelAt.value)
      invariant i <= |launched|
      invariant ws + JobWrites(launched[i..], job) == JobWrites(launched, job)
      invariant out == Apply(ws)
    {
      assert launched[i] == nodes[i];
      var write := BufferStep(w, cached, nodes[i]);
      NextWrite(launched, job, i, ws);
      ws := ws + Written(write);
      if write.Some? {
        out := out[write.value.key := write.value.value];
      }
      i := i + 1;
    }
    assert launched[i..] == [] && ws + [] == ws;
  }

  // ---- what a cancelled run reports -----------------------------------------------------------------------

  lemma {:induction false} CutSum(w: NodeWorld, cached: map<string, DirMetrics>, n: StreamNode, paths: seq<string>)
    ensures var full := w.(cut := (_, _) => None);
            && CountSum(w, cached, n, paths) <= CountSum(full, cached, n, paths)
            && (AllCount(w, cached, n, paths) ==>
                  AllCount(full, cached, n, paths) && CountSum(w, cached, n, paths) == CountSum(full, cached, n, paths))
  {
    if paths != [] {
      var last := |paths| - 1;
      CutSum(w, cached, n, paths[..last]);
      OneMorePath(w, cached, n, paths, last);
      OneMorePath(w.(cut := (_, _) => None), cached, n, paths, last);
      assert paths[..last + 1] == paths;
    }
  }

  /** A cancelled context leaves a collector's identity and paths alone, never raises its count,
      and a record that says success is the record of an undisturbed run. */
  lemma CutRecord(w: NodeWorld, cached: map<string, DirMetrics>, n: StreamNode)
    ensures var full := w.(cut := (_, _) => None);
            var (r, whole) := (BufferOf(w, cached, n), BufferOf(full, cached, n));
            && r.fileCount <= whole.fileCount && r == whole.(fileCount := r.fileCount, success := r.success)
            && (r.success ==> r == whole) && (HasBuffer(w, n) <==> HasBuffer(full, n))
  {
    CutSum(w, cached, n, ResolvePaths(w, n.nodeDir).1);
  }

  // ---- reuse changes nothing ----------------------------------------------------------------------------

  /** The results of a ScanAll over an unchanged disk: cleaned paths, each with the success and
      the count of its own scan. */
  ghost predicate ScannedFrom(results: map<string, DirMetrics>, w: NodeWorld, maxFiles: int, maxStat: int) {
    forall a :: a in results ==>
      var scan := Scan(w.directory(a), maxFiles, maxStat);
      Clean(a) == a && results[a].success == scan.success && results[a].fileCount == scan.fileCount
  }

  /** Each cached value then stands for its own path, whatever order the map was walked in. */
  lemma CleanedIsSame(cached: map<string, DirMetrics>, results: map<string, DirMetrics>)
    requires IsCleaned(cached, results) && forall a :: a in results ==> Clean(a) == a
    ensures cached == results
  {
    forall k ensures k in cached <==> k in results {
    }
    forall k | k in cached ensures k in results && cached[k] == results[k] {
    }
  }

  lemma PathCountsAgree(
      w: NodeWorld, cached: map<string, DirMetrics>, maxFiles: int, maxStat: int, n: StreamNode, i: nat, path: string)
    requires Uncut(w) && ScannedFrom(cached, w, maxFiles, maxStat) && maxFiles <= 0
    ensures PathCount(w, cached, n, i, path) == PathCount(w, map[], n, i, path)
  {
    UncappedScanCountsAll(w.directory(Clean(path)), maxFiles, maxStat);
  }

  lemma {:induction false} SumsAgree(
      w: NodeWorld, cached: map<string, DirMetrics>, maxFiles: int, maxStat: int, n: StreamNode, paths: seq<string>)
    requires Uncut(w) && ScannedFrom(cached, w, maxFiles, maxStat) && maxFiles <= 0
    ensures CountSum(w, cached, n, paths) == CountSum(w, map[], n, paths)
    ensures AllCount(w, cached, n, paths) == AllCount(w, map[], n, paths)
  {
    forall i | 0 <= i < |paths|
      ensures PathCount(w, cached, n, i, paths[i]) == PathCount(w, map[], n, i, paths[i])
    {
      PathCountsAgree(w, cached, maxFiles, maxStat, n, i, paths[i]);
    }
    if paths != [] {
      SumsAgree(w, cached, maxFiles, maxStat, n, paths[..|paths| - 1]);
    }
  }

  lemma CachedChangesNothing(
      w: NodeWorld, nodes: seq<StreamNode>, cached: map<string, DirMetrics>, maxFiles: int, maxStat: int)
    requires Uncut(w) && maxFiles <= 0 && ScannedFrom(cached, w, maxFiles, maxStat)
    ensures JobWrites(nodes, BufferWrite(w, cached)) == JobWrites(nodes, BufferWrite(w, map[]))
  {
    forall i | 0 <= i < |nodes| ensures BufferWrite(w, cached)(nodes[i]) == BufferWrite(w, map[])(nodes[i]) {
      SumsAgree(w, cached, maxFiles, maxStat, nodes[i], ResolvePaths(w, nodes[i].nodeDir).1);
    }
    SameJobs(nodes, BufferWrite(w, cached), BufferWrite(w, map[]));
  }

  /** Given the scans of an unchanged disk without a count cap, and time to finish,
      ScanAllNodeBuffers returns the map it returns when given no scans at all: same keys, counts
      and success flags. */
  lemma ReuseChangesNothing(
      w: NodeWorld, nodes: seq<StreamNode>, results: map<string, DirMetrics>, maxFiles: int, maxStat: int,
      reused: map<string, NodeBuffer>, counted: map<string, NodeBuffer>)
    requires Uncut(w) && maxFiles <= 0 && ScannedFrom(results, w, maxFiles, maxStat)
    requires BuffersOver(w, nodes, None, results, reused) && BuffersOver(w, nodes, None, map[], counted)
    ensures reused == counted
  {
    var cached :| IsCleaned(cached, results) && reused == Apply(JobWrites(Launched(nodes, None), BufferWrite(w, cached)));
    var none :| IsCleaned(none, map[]) && counted == Apply(JobWrites(Launched(nodes, None), BufferWrite(w, none)));
    CleanedIsSame(cached, results);
    CleanedIsSame(none, map[]);
    CachedChangesNothing(w, nodes, cached, maxFiles, maxStat);
  }

  // ---- under a count cap reuse changes something ----------------------------------------------------------

  /** A collector with one path over the cap reports less when the scan is reused. */
  lemma ReuseCutsRecord(
      w: NodeWorld, cached: map<string, DirMetrics>, n: StreamNode, path: string, entries: seq<FileEntry>,
      maxFiles: int, maxStat: int)
    requires Uncut(w) && ResolvePaths(w, n.nodeDir).1 == [path]
    requires w.directory(Clean(path)) == Opened(ReadDirCalls(entries)) && 0 < maxFiles < |CountedFiles(entries)|
    requires Clean(path) in cached && cached[Clean(path)].success
    requires cached[Clean(path)].fileCount == Scan(w.directory(Clean(path)), maxFiles, maxStat).fileCount
    ensures BufferOf(w, cached, n).fileCount < BufferOf(w, map[], n).fileCount
  {
    OneMorePath(w, cached, n, [path], 0);
    OneMorePath(w, map[], n, [path], 0);
    assert [path][..1] == [path] && [path][..0] == [];
    CallsFlatten(entries);
    CountIsCappedAt(entries, maxFiles, maxStat);
  }

  /** Every directory that can be opened is read to its end. */
  ghost predicate ReadsWhole(w: NodeWorld) {
    forall path :: w.directory(path).Opened? ==> exists entries :: w.directory(path).chunks == ReadDirCalls(entries)
  }

  /** Over every unchanged disk, giving ScanAllNodeBuffers the scans changes nothing. */
  ghost predicate ReuseIsHarmless(maxFiles: int, maxStat: int) {
    forall w, nodes, results, reused, counted ::
      Uncut(w) && ReadsWhole(w) && ScannedFrom(results, w, maxFiles, maxStat)
      && BuffersOver(w, nodes, None, results, reused) && BuffersOver(w, nodes, None, map[], counted)
      ==> reused == counted
  }

  /** One collector whose one source directory holds one file more than the cap. */
  function CapWorld(maxFiles: nat): NodeWorld {
    NodeWorld(_ => ("col", ["/d"]), (_, _) => "", _ => Opened(ReadDirCalls(PlainFiles(maxFiles + 1))), (_, _) => None)
  }

  const COLLECTOR := StreamNode("b", "s", "n", "/n", "")

  lemma CapWorldNode(maxFiles: nat)
    ensures HasBuffer(CapWorld(maxFiles), COLLECTOR)
    ensures ResolvePaths(CapWorld(maxFiles), COLLECTOR.nodeDir) == ("col", ["/d"]) && Clean("/d") == "/d"
  {
    var s := "col";
    assert TrimSpace(s) == s && Lower(s) == s;
    assert IsCollector(s);
    AnalyseRender(Cleaned(true, ["d"]));
    assert Render(Cleaned(true, ["d"])) == "/" + "d" == "/d";
  }

  lemma OneWrite(w: NodeWorld, cached: map<string, DirMetrics>, n: StreamNode)
    requires HasBuffer(w, n)
    ensures Apply(JobWrites([n], BufferWrite(w, cached))) == map[BufferKey(n) := BufferOf(w, cached, n)]
  {
    var job := BufferWrite(w, cached);
    var write := Write(BufferKey(n), BufferOf(w, cached, n));
    assert job(n) == Some(write) && [n][1..] == [];
    assert JobWrites([n], job) == [write] + [] == [write];
    assert [write][..0] == [];
  }

  function CapScan(maxFiles: nat, maxStat: int): ScanResult {
    Scan(Opened(ReadDirCalls(PlainFiles(maxFiles + 1))), maxFiles, maxStat)
  }

  function CapResults(maxFiles: nat, maxStat: int): map<string, DirMetrics> {
    map["/d" := DirMetrics(CapScan(maxFiles, maxStat).fileCount, 0, 0, 0, true, true, DirLabels("", "", ""))]
  }

  lemma CapWorldScanned(maxFiles: nat, maxStat: int)
    ensures Uncut(CapWorld(maxFiles)) && ReadsWhole(CapWorld(maxFiles))
    ensures ScannedFrom(CapResults(maxFiles, maxStat), CapWorld(maxFiles), maxFiles, maxStat)
    ensures IsCleaned(CapResults(maxFiles, maxStat), CapResults(maxFiles, maxStat))
  {
    CapWorldNode(maxFiles);
    assert CapScan(maxFiles, maxStat).success;
  }

  lemma CapWorldBuffers(maxFiles: nat, cached: map<string, DirMetrics>)
    requires IsCleaned(cached, cached)
    ensures BuffersOver(CapWorld(maxFiles), [COLLECTOR], None, cached, CapBuffers(maxFiles, cached))
  {
    CapWorldNode(maxFiles);
    OneWrite(CapWorld(maxFiles), cached, COLLECTOR);
  }

  function CapBuffers(maxFiles: nat, cached: map<string, DirMetrics>): map<string, NodeBuffer> {
    map[BufferKey(COLLECTOR) := BufferOf(CapWorld(maxFiles), cached, COLLECTOR)]
  }

  lemma CapWorldDiffers(maxFiles: nat, maxStat: int)
    requires maxFiles > 0
    ensures CapBuffers(maxFiles, CapResults(maxFiles, maxStat)) != CapBuffers(maxFiles, map[])
  {
    var w, n, results := CapWorld(maxFiles), COLLECTOR, CapResults(maxFiles, maxStat);
    CapWorldNode(maxFiles);
    CapWorldScanned(maxFiles, maxStat);
    PlainFilesCounted(maxFiles + 1);
    ReuseCutsRecord(w, results, n, "/d", PlainFiles(maxFiles + 1), maxFiles, maxStat);
    assert CapBuffers(maxFiles, results)[BufferKey(n)] != CapBuffers(maxFiles, map[])[BufferKey(n)];
  }

  lemma CapHarms(maxFiles: int, maxStat: int)
    requires maxFiles > 0
    ensures !ReuseIsHarmless(maxFiles, maxStat)
  {
    var results := CapResults(maxFiles, maxStat);
    CapWorldScanned(maxFiles, maxStat);
    CapWorldBuffers(maxFiles, results);
    CapWorldBuffers(maxFiles, map[]);
    CapWorldDiffers(maxFiles, maxStat);
    if ReuseIsHarmless(maxFiles, maxStat) {
      HarmlessAt(CapWorld(maxFiles), [COLLECTOR], results, CapBuffers(maxFiles, results), CapBuffers(maxFiles, map[]),
                 maxFiles, maxStat);
      assert false;
    }
  }

  lemma HarmlessAt(
      w: NodeWorld, nodes: seq<StreamNode>, results: map<string, DirMetrics>,
      reused: map<string, NodeBuffer>, counted: map<string, NodeBuffer>, maxFiles: int, maxStat: int)
    requires ReuseIsHarmless(maxFiles, maxStat)
    requires Uncut(w) && ReadsWhole(w) && ScannedFrom(results, w, maxFiles, maxStat)
    requires BuffersOver(w, nodes, None, results, reused) && BuffersOver(w, nodes, None, map[], counted)
    ensures reused == counted
  {
  }

  /** Reusing scans leaves the map of ScanAllNodeBuffers alone, over every unchanged disk, exactly
      when there is no count cap. */
  lemma ReuseIsHarmlessIff(maxFiles: int, maxStat: int)
    ensures ReuseIsHarmless(maxFiles, maxStat) <==> maxFiles <= 0
  {
    if maxFiles > 0 {
      CapHarms(maxFiles, maxStat);
    } else {
      forall w, nodes, results, reused, counted |
        Uncut(w) && ReadsWhole(w) && ScannedFrom(results, w, maxFiles, maxStat)
        && BuffersOver(w, nodes, None, results, reused) && BuffersOver(w, nodes, None, map[], counted)
        ensures reused == counted
      {
        ReuseChangesNothing(w, nodes, results, maxFiles, maxStat, reused, counted);
      }
    }
  }

  // ---- one record for each node ------------------------------------------------------------------------------

  /** In whatever order the goroutines store, the map is the same, and it holds exactly one
      record for each collector node, under that node's key. */
  lemma OneBufferPerCollector(
      w: NodeWorld, cached: map<string, DirMetrics>, nodes: seq<StreamNode>, order: seq<Write<string, NodeBuffer>>)
    requires ProperNodes(nodes) && multiset(order) == multiset(JobWrites(nodes, BufferWrite(w, cached)))
    ensures Apply(order) == Apply(JobWrites(nodes, BufferWrite(w, cached)))
    ensures forall n :: n in nodes && HasBuffer(w, n) ==>
              BufferKey(n) in Apply(order) && Apply(order)[BufferKey(n)] == BufferOf(w, cached, n)
    ensures forall k :: k in Apply(order) ==> exists n :: n in nodes && HasBuffer(w, n) && k == BufferKey(n)
  {
    var job := BufferWrite(w, cached);
    forall i, j | 0 <= i < j < |nodes| && job(nodes[i]).Some? && job(nodes[j]).Some?
      ensures job(nodes[i]).value.key != job(nodes[j]).value.key
    {
      BufferKeysDiffer(nodes, i, j);
    }
    FannedOut(nodes, job, order);
    forall n | n in nodes && HasBuffer(w, n)
      ensures BufferKey(n) in Apply(order) && Apply(order)[BufferKey(n)] == BufferOf(w, cached, n)
    {
      assert job(n).Some?;
    }
    forall k | k in Apply(order) ensures exists n :: n in nodes && HasBuffer(w, n) && k == BufferKey(n) {
      var n :| n in nodes && job(n).Some? && job(n).value.key == k;
    }
  }

  /** Buffers sit under their own keys. */
  lemma BuffersKeyed(
      w: NodeWorld, cached: map<string, DirMetrics>, nodes: seq<StreamNode>, order: seq<Write<string, NodeBuffer>>,
      k: string)
    requires multiset(order) == multiset(JobWrites(nodes, BufferWrite(w, cached))) && k in Apply(order)
    ensures var b := Apply(order)[k]; TypedKey(b.base, b.stream, b.node, b.nodeType) == k
  {
    AppliedFrom(order, k);
    var x :| x in order && x.key == k && x.value == Apply(order)[k];
    SameMembers(order, JobWrites(nodes, BufferWrite(w, cached)));
    JobWritesMember(nodes, BufferWrite(w, cached), x);
    var n :| n in nodes && BufferWrite(w, cached)(n) == Some(x);
  }

  lemma BufferKeysDiffer(nodes: seq<StreamNode>, i: nat, j: nat)
    requires ProperNodes(nodes) && i < j < |nodes|
    ensures BufferKey(nodes[i]) != BufferKey(nodes[j])
  {
    if BufferKey(nodes[i]) == BufferKey(nodes[j]) {
      var n, m := nodes[i], nodes[j];
      TypedKeyInjective(n.base, n.stream, n.node, "collector", m.base, m.stream, m.node, "collector");
      assert false;
    }
  }
}
