/** RenderMetrics (metrics.go): what is written for a snapshot, family by family. */
module Render {
  import opened Wrappers
  import opened Records
  import opened CacheStore
  import opened Exposition
  import opened Sorting
  import opened NodeKeys

  // ---- the metric families ---------------------------------------------------------------------

  datatype Metric =
    | CacheReady | LastScan | WatchedTotal | ScanErrors | ReloadTotal
    | FileCount | OldestFile | NewestFile | ScanDuration
    | CollectorLast | CollectorDelay | DistributorLast | DistributorDelay
    | LastFile | BufferFiles

  /** Long names are spelled in pieces. */
  function Name(m: Metric): string {
    match m
    case CacheReady => "directory_cache_ready"
    case LastScan => "directory_last_scan" + "_timestamp_seconds"
    case WatchedTotal => "directory_watched_total"
    case ScanErrors => "directory_scan" + "_errors_total"
    case ReloadTotal => "directory_reload_total"
    case FileCount => "directory_file_count"
    case OldestFile => "directory_oldest_file" + "_timestamp_seconds"
    case NewestFile => "directory_newest_file" + "_timestamp_seconds"
    case ScanDuration => "directory_scrape" + "_duration_seconds"
    case CollectorLast => "directory_collector" + "_last_activity" + "_timestamp_seconds"
    case CollectorDelay => "directory_collector" + "_delay_seconds"
    case DistributorLast => "directory_distributor" + "_last_activity" + "_timestamp_seconds"
    case DistributorDelay => "directory_distributor" + "_delay_seconds"
    case LastFile => "directory_node" + "_last_file_info"
    case BufferFiles => "directory_buffer_files"
  }

  function Kind(m: Metric): string {
    if m.ScanErrors? || m.ReloadTotal? then "counter" else "gauge"
  }

  /** What the writer is given besides the snapshot: names, help texts, %g and %d. */
  datatype Formats = Formats(
    name: Metric -> string, text: Metric -> string, gauge: int -> string, count: int -> string)

  function StandardNames(): Metric -> string {
    (m: Metric) => Name(m)
  }

  ghost predicate NamesOk(f: Formats) {
    && (forall m :: MetricOk(f.name(m)))
    && (forall m, n :: m != n ==> f.name(m) != f.name(n))
  }

  /** Names tell families apart, and nothing printed breaks a line. */
  ghost predicate FormatsOk(f: Formats) {
    && NamesOk(f)
    && (forall m :: '\n' !in f.text(m))
    && (forall n :: '\n' !in f.gauge(n))
    && (forall n :: '\n' !in f.count(n))
  }

  datatype Family = Family(metric: Metric, samples: seq<Line>)

  function FamilyLines(f: Formats, fam: Family): seq<Line> {
    [Help(f.name(fam.metric), f.text(fam.metric)), Type(f.name(fam.metric), Kind(fam.metric))] + fam.samples
  }

  function AllLines(f: Formats, fams: seq<Family>): seq<Line> {
    if fams == [] then [] else FamilyLines(f, fams[0]) + AllLines(f, fams[1..])
  }

  /** The samples a loop over records prints. */
  function Each<T>(xs: seq<T>, line: T -> Option<Line>): seq<Line> {
    if xs == [] then []
    else (if line(xs[0]).Some? then [line(xs[0]).value] else []) + Each(xs[1..], line)
  }

  function Plain(f: Formats, m: Metric, value: string): Family {
    Family(m, [Sample(f.name(m), [], value)])
  }

  // ---- labels and lines of the records ------------------------------------------------------------

  function DirPairs(l: DirLabels): seq<LabelPair> {
    [LabelPair("base", l.base), LabelPair("stream", l.stream), LabelPair("type", l.kind)]
  }

  function NodePairs(base: string, stream: string, node: string): seq<LabelPair> {
    [LabelPair("base", base), LabelPair("stream", stream), LabelPair("node", node)]
  }

  function TypedPairs(base: string, stream: string, node: string, nodeType: string): seq<LabelPair> {
    NodePairs(base, stream, node) + [LabelPair("type", nodeType)]
  }

  function DirLine(f: Formats, m: Metric, e: DirMetrics, value: string): Line {
    Sample(f.name(m), DirPairs(e.labels), value)
  }

  function NodeLine(f: Formats, m: Metric, a: NodeActivity, value: string): Line {
    Sample(f.name(m), NodePairs(a.base, a.stream, a.node), value)
  }

  predicate HasFiles(e: DirMetrics) {
    e.success && e.fileCount > 0
  }

  predicate HasFile(a: NodeActivity) {
    a.success && a.lastFile != "" && a.lastFile != "-"
  }

  function CountSample(f: Formats, e: DirMetrics): Option<Line> {
    Some(DirLine(f, FileCount, e, f.count(e.fileCount)))
  }

  function OldestSample(f: Formats, e: DirMetrics): Option<Line> {
    if HasFiles(e) then Some(DirLine(f, OldestFile, e, f.gauge(e.oldest))) else None
  }

  function NewestSample(f: Formats, e: DirMetrics): Option<Line> {
    if HasFiles(e) then Some(DirLine(f, NewestFile, e, f.gauge(e.newest))) else None
  }

  function DurationSample(f: Formats, e: DirMetrics): Option<Line> {
    Some(DirLine(f, ScanDuration, e, f.gauge(e.duration)))
  }

  function LastSample(f: Formats, nodeType: string, m: Metric, a: NodeActivity): Option<Line> {
    if a.nodeType == nodeType && a.success && a.lastActivity > 0
    then Some(NodeLine(f, m, a, f.gauge(a.lastActivity)))
    else None
  }

  function DelaySample(f: Formats, nodeType: string, m: Metric, a: NodeActivity): Option<Line> {
    if a.nodeType == nodeType && a.success then Some(NodeLine(f, m, a, f.gauge(a.delay))) else None
  }

  function InfoSample(f: Formats, a: NodeActivity): Option<Line> {
    if HasFile(a)
    then Some(Sample(f.name(LastFile),
                     TypedPairs(a.base, a.stream, a.node, a.nodeType) + [LabelPair("filename", a.lastFile)], "1"))
    else None
  }

  function BufferSample(f: Formats, b: NodeBuffer): Option<Line> {
    Some(Sample(f.name(BufferFiles), TypedPairs(b.base, b.stream, b.node, b.nodeType), f.count(b.fileCount)))
  }

  function CountLine(f: Formats): DirMetrics -> Option<Line> {
    (e: DirMetrics) => CountSample(f, e)
  }

  function OldestLine(f: Formats): DirMetrics -> Option<Line> {
    (e: DirMetrics) => OldestSample(f, e)
  }

  function NewestLine(f: Formats): DirMetrics -> Option<Line> {
    (e: DirMetrics) => NewestSample(f, e)
  }

  function DurationLine(f: Formats): DirMetrics -> Option<Line> {
    (e: DirMetrics) => DurationSample(f, e)
  }

  function LastLine(f: Formats, nodeType: string, m: Metric): NodeActivity -> Option<Line> {
    (a: NodeActivity) => LastSample(f, nodeType, m, a)
  }

  function DelayLine(f: Formats, nodeType: string, m: Metric): NodeActivity -> Option<Line> {
    (a: NodeActivity) => DelaySample(f, nodeType, m, a)
  }

  function InfoLine(f: Formats): NodeActivity -> Option<Line> {
    (a: NodeActivity) => InfoSample(f, a)
  }

  function BufferLine(f: Formats): NodeBuffer -> Option<Line> {
    (b: NodeBuffer) => BufferSample(f, b)
  }

  // ---- sort keys ------------------------------------------------------------------------------------

  function KeyOfLabels(l: DirLabels): string {
    l.base + "/" + l.stream + "/" + l.kind
  }

  function DirKey(): DirMetrics -> string {
    (e: DirMetrics) => KeyOfLabels(e.labels)
  }

  function ActKey(): NodeActivity -> string {
    (a: NodeActivity) => TypedKey(a.base, a.stream, a.node, a.nodeType)
  }

  function BufKey(): NodeBuffer -> string {
    (b: NodeBuffer) => TypedKey(b.base, b.stream, b.node, b.nodeType)
  }

  // ---- the document -----------------------------------------------------------------------------------

  function ControlFamilies(f: Formats, snap: CacheSnapshot): seq<Family> {
    [Plain(f, LastScan, f.gauge(snap.lastScanTime)), Plain(f, WatchedTotal, f.count(snap.watchedTotal)),
     Plain(f, ScanErrors, f.count(snap.scanErrors)), Plain(f, ReloadTotal, f.count(snap.reloadTotal))]
  }

  function DirectoryFamilies(f: Formats, es: seq<DirMetrics>): seq<Family> {
    if es == [] then []
    else [Family(FileCount, Each(es, CountLine(f))), Family(OldestFile, Each(es, OldestLine(f))),
          Family(NewestFile, Each(es, NewestLine(f))), Family(ScanDuration, Each(es, DurationLine(f)))]
  }

  predicate AnyNode(acts: seq<NodeActivity>, nodeType: string) {
    exists i :: 0 <= i < |acts| && acts[i].nodeType == nodeType && acts[i].success
  }

  predicate AnyFile(acts: seq<NodeActivity>) {
    exists i :: 0 <= i < |acts| && HasFile(acts[i])
  }

  function NodeFamilies(f: Formats, acts: seq<NodeActivity>, nodeType: string, last: Metric, delay: Metric)
    : seq<Family>
  {
    if AnyNode(acts, nodeType) then
      [Family(last, Each(acts, LastLine(f, nodeType, last))), Family(delay, Each(acts, DelayLine(f, nodeType, delay)))]
    else []
  }

  function FileFamilies(f: Formats, acts: seq<NodeActivity>): seq<Family> {
    if AnyFile(acts) then [Family(LastFile, Each(acts, InfoLine(f)))] else []
  }

  function BufferFamilies(f: Formats, bufs: seq<NodeBuffer>): seq<Family> {
    if bufs == [] then [] else [Family(BufferFiles, Each(bufs, BufferLine(f)))]
  }

  function ActivityFamilies(f: Formats, acts: seq<NodeActivity>): seq<Family> {
    NodeFamilies(f, acts, "collector", CollectorLast, CollectorDelay)
    + (NodeFamilies(f, acts, "distributor", DistributorLast, DistributorDelay) + FileFamilies(f, acts))
  }

  /** The families of a snapshot whose lists have been put in the given orders. */
  function Families(
      f: Formats, snap: CacheSnapshot, es: seq<DirMetrics>, acts: seq<NodeActivity>, bufs: seq<NodeBuffer>)
    : seq<Family>
  {
    var ready := Plain(f, CacheReady, f.gauge(if snap.ready then 1 else 0));
    if !snap.ready then [ready]
    else
      [ready] + (ControlFamilies(f, snap)
        + (DirectoryFamilies(f, es) + (ActivityFamilies(f, acts) + BufferFamilies(f, bufs))))
  }

  function Document(
      f: Formats, snap: CacheSnapshot, es: seq<DirMetrics>, acts: seq<NodeActivity>, bufs: seq<NodeBuffer>)
    : seq<Line>
  {
    AllLines(f, Families(f, snap, es, acts, bufs))
  }

  /** Some sort of each list of the snapshot. */
  ghost predicate SortedLists(
      snap: CacheSnapshot, es: seq<DirMetrics>, acts: seq<NodeActivity>, bufs: seq<NodeBuffer>)
  {
    && IsSortOf(es, snap.entries, ByKey(DirKey()))
    && IsSortOf(acts, snap.nodeActivities, ByKey(ActKey()))
    && IsSortOf(bufs, snap.nodeBuffers, ByKey(BufKey()))
  }

  // ---- writing -----------------------------------------------------------------------------------------

  lemma {:induction false} LinesConcat(f: Formats, a: seq<Family>, b: seq<Family>)
    ensures AllLines(f, a + b) == AllLines(f, a) + AllLines(f, b)
  {
    if a == [] {
      assert a + b == b;
    } else {
      assert (a + b)[1..] == a[1..] + b;
      LinesConcat(f, a[1..], b);
    }
  }

  function PrintFamilies(f: Formats, fams: seq<Family>): string {
    Print(AllLines(f, fams))
  }

  lemma Printed(f: Formats, a: seq<Family>, b: seq<Family>, before: string)
    ensures before + PrintFamilies(f, a + b) == (before + PrintFamilies(f, a)) + PrintFamilies(f, b)
  {
    LinesConcat(f, a, b);
    PrintConcat(AllLines(f, a), AllLines(f, b));
  }

  lemma PrintOne(l: Line)
    ensures Print([l]) == LineText(l)
  {
    assert [l][1..] == [];
  }

  lemma OneFamily(f: Formats, fam: Family)
    ensures AllLines(f, [fam]) == FamilyLines(f, fam)
  {
    assert [fam][1..] == [];
  }

  lemma EachFrom<T>(xs: seq<T>, line: T -> Option<Line>, i: nat, before: string)
    requires i < |xs|
    ensures before + Print(Each(xs[i..], line))
            == (if line(xs[i]).Some? then before + LineText(line(xs[i]).value) else before)
               + Print(Each(xs[i + 1..], line))
  {
    assert xs[i..][0] == xs[i] && xs[i..][1..] == xs[i + 1..];
    var later := Each(xs[i + 1..], line);
    if line(xs[i]).Some? {
      PrintConcat([line(xs[i]).value], later);
      PrintOne(line(xs[i]).value);
    } else {
      assert [] + later == later;
    }
  }

  class Writer {
    const f: Formats
    var text: string

    constructor (f: Formats)
      ensures this.f == f && text == ""
    {
      this.f := f;
      text := "";
    }

    /** A family's HELP and TYPE lines and the loop that prints its samples. */
    method Emit<T>(m: Metric, xs: seq<T>, line: T -> Option<Line>)
      modifies this`text
      ensures text == old(text) + PrintFamilies(f, [Family(m, Each(xs, line))])
    {
      var help, kind := Help(f.name(m), f.text(m)), Type(f.name(m), Kind(m));
      text := text + LineText(help) + LineText(kind);
      ghost var before := text;
      assert xs[0..] == xs;
      for i := 0 to |xs|
        invariant text + Print(Each(xs[i..], line)) == before + Print(Each(xs, line))
      {
        EachFrom(xs, line, i, text);
        if line(xs[i]).Some? {
          text := text + LineText(line(xs[i]).value);
        }
      }
      Emitted(f, m, Each(xs, line), old(text));
    }

    method EmitPlain(m: Metric, value: string)
      modifies this`text
      ensures text == old(text) + PrintFamilies(f, [Plain(f, m, value)])
    {
      var one := Some(Sample(f.name(m), [], value));
      EachUnit(one);
      Emit(m, [()], (u: ()) => one);
    }

    method RenderControl(snap: CacheSnapshot)
      modifies this`text
      ensures text == old(text) + PrintFamilies(f, ControlFamilies(f, snap))
    {
      ghost var all, t := ControlFamilies(f, snap), text;
      Printed(f, all[..1], all[1..2], t);
      Printed(f, all[..2], all[2..3], t);
      Printed(f, all[..3], all[3..4], t);
      Quarters(all);
      EmitPlain(LastScan, f.gauge(snap.lastScanTime));
      EmitPlain(WatchedTotal, f.count(snap.watchedTotal));
      EmitPlain(ScanErrors, f.count(snap.scanErrors));
      EmitPlain(ReloadTotal, f.count(snap.reloadTotal));
    }

    method RenderDirectories(es: seq<DirMetrics>)
      modifies this`text
      ensures text == old(text) + PrintFamilies(f, DirectoryFamilies(f, es))
    {
      if |es| > 0 {
        ghost var all, t := DirectoryFamilies(f, es), text;
        Printed(f, all[..1], all[1..2], t);
        Printed(f, all[..2], all[2..3], t);
        Printed(f, all[..3], all[3..4], t);
        Quarters(all);
        Emit(FileCount, es, CountLine(f));
        Emit(OldestFile, es, OldestLine(f));
        Emit(NewestFile, es, NewestLine(f));
        Emit(ScanDuration, es, DurationLine(f));
      } else {
        assert text + "" == text;
      }
    }

    /** The two families of one type of node, when some node of that type succeeded. */
    method RenderNodes(acts: seq<NodeActivity>, nodeType: string, last: Metric, delay: Metric)
      modifies this`text
      ensures text == old(text) + PrintFamilies(f, NodeFamilies(f, acts, nodeType, last, delay))
    {
      var has := false;
      for i := 0 to |acts|
        invariant !has && forall k :: 0 <= k < i ==> !(acts[k].nodeType == nodeType && acts[k].success)
      {
        if acts[i].nodeType == nodeType && acts[i].success {
          has := true;
          break;
        }
      }
      if has {
        Printed(f, [Family(last, Each(acts, LastLine(f, nodeType, last)))],
                [Family(delay, Each(acts, DelayLine(f, nodeType, delay)))], text);
        Emit(last, acts, LastLine(f, nodeType, last));
        Emit(delay, acts, DelayLine(f, nodeType, delay));
      } else {
        assert text + "" == text;
      }
    }

    method RenderFiles(acts: seq<NodeActivity>)
      modifies this`text
      ensures text == old(text) + PrintFamilies(f, FileFamilies(f, acts))
    {
      var has := false;
      for i := 0 to |acts|
        invariant !has && forall k :: 0 <= k < i ==> !HasFile(acts[k])
      {
        if acts[i].success && acts[i].lastFile != "" && acts[i].lastFile != "-" {
          has := true;
          break;
        }
      }
      if has {
        Emit(LastFile, acts, InfoLine(f));
      } else {
        assert text + "" == text;
      }
    }

    method RenderActivities(acts: seq<NodeActivity>)
      modifies this`text
      ensures text == old(text) + PrintFamilies(f, ActivityFamilies(f, acts))
    {
      ghost var t := text;
      ghost var collectors := NodeFamilies(f, acts, "collector", CollectorLast, CollectorDelay);
      ghost var distributors := NodeFamilies(f, acts, "distributor", DistributorLast, DistributorDelay);
      RenderNodes(acts, "collector", CollectorLast, CollectorDelay);
      Printed(f, collectors, distributors + FileFamilies(f, acts), t);
      Printed(f, distributors, FileFamilies(f, acts), text);
      RenderNodes(acts, "distributor", DistributorLast, DistributorDelay);
      RenderFiles(acts);
    }

    method RenderBuffers(bufs: seq<NodeBuffer>)
      modifies this`text
      ensures text == old(text) + PrintFamilies(f, BufferFamilies(f, bufs))
    {
      if |bufs| > 0 {
        Emit(BufferFiles, bufs, BufferLine(f));
      } else {
        assert text + "" == text;
      }
    }

    /** RenderMetrics: the document of the snapshot, its lists put in some sorted order. */
    method RenderMetrics(snap: CacheSnapshot)
      returns (ghost es: seq<DirMetrics>, ghost acts: seq<NodeActivity>, ghost bufs: seq<NodeBuffer>)
      modifies this`text
      ensures SortedLists(snap, es, acts, bufs)
      ensures text == old(text) + Print(Document(f, snap, es, acts, bufs))
    {
      var sorted := SortSlice(snap.entries, DirKey());
      var sortedAct := SortSlice(snap.nodeActivities, ActKey());
      var sortedBuf := SortSlice(snap.nodeBuffers, BufKey());
      es, acts, bufs := sorted, sortedAct, sortedBuf;
      ghost var t := text;
      EmitPlain(CacheReady, f.gauge(if snap.ready then 1 else 0));
      if !snap.ready {
        return;
      }
      ghost var dirs, nodes := DirectoryFamilies(f, es), ActivityFamilies(f, acts);
      ghost var buffers := BufferFamilies(f, bufs);
      Printed(f, [Plain(f, CacheReady, f.gauge(1))], ControlFamilies(f, snap) + (dirs + (nodes + buffers)), t);
      Printed(f, ControlFamilies(f, snap), dirs + (nodes + buffers), text);
      RenderControl(snap);
      Printed(f, dirs, nodes + buffers, text);
      RenderDirectories(sorted);
      Printed(f, nodes, buffers, text);
      RenderActivities(sortedAct);
      RenderBuffers(sortedBuf);
    }
  }

  /** A sorted copy, as make, copy and sort.Slice leave it. */
  method SortSlice<T(!new)>(xs: seq<T>, key: T -> string) returns (sorted: seq<T>)
    ensures IsSortOf(sorted, xs, ByKey(key))
  {
    sorted := Sorted(xs, ByKey(key));
    ByKeyWeak(key);
    SortedIsSort(xs, ByKey(key));
  }

  lemma Emitted(f: Formats, m: Metric, samples: seq<Line>, before: string)
    ensures var (help, kind) := (Help(f.name(m), f.text(m)), Type(f.name(m), Kind(m)));
            before + LineText(help) + LineText(kind) + Print(samples) == before + PrintFamilies(f, [Family(m, samples)])
  {
    OneFamily(f, Family(m, samples));
    PrintAfterTwo(Help(f.name(m), f.text(m)), Type(f.name(m), Kind(m)), samples, before);
  }

  lemma PrintAfterTwo(help: Line, kind: Line, samples: seq<Line>, before: string)
    ensures before + LineText(help) + LineText(kind) + Print(samples) == before + Print([help, kind] + samples)
  {
    PrintConcat([help, kind], samples);
    PrintTwo(help, kind);
    var h, k, s := LineText(help), LineText(kind), Print(samples);
    Regroup(before, h, k, s);
  }

  lemma PrintTwo(a: Line, b: Line)
    ensures Print([a, b]) == LineText(a) + LineText(b)
  {
    assert [a, b][1..] == [b];
    PrintOne(b);
  }

  lemma Regroup(a: string, b: string, c: string, d: string)
    ensures a + b + c + d == a + ((b + c) + d)
  {
  }

  lemma EachUnit(one: Option<Line>)
    requires one.Some?
    ensures Each([()], (u: ()) => one) == [one.value]
  {
    assert Each([()][1..], (u: ()) => one) == [];
  }

  lemma Quarters(all: seq<Family>)
    requires |all| == 4
    ensures all[..1] == [all[0]] && all[1..2] == [all[1]] && all[2..3] == [all[2]] && all[3..4] == [all[3]]
    ensures all[..1] + all[1..2] == all[..2] && all[..2] + all[2..3] == all[..3] && all[..3] + all[3..4] == all
  {
  }
}
