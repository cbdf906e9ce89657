/** What the samples of a rendered document say, and when no series appears twice. */
module RenderContent {
  import opened Wrappers
  import opened Records
  import opened CacheStore
  import opened Exposition
  import opened Sorting
  import opened Render
  import opened RenderTheorems

  // ---- the samples of one metric ---------------------------------------------------------------

  /** The samples written for a metric, none when its family is left out. */
  function SamplesOf(
      f: Formats, snap: CacheSnapshot, es: seq<DirMetrics>, acts: seq<NodeActivity>, bufs: seq<NodeBuffer>, m: Metric)
    : seq<Line>
  {
    if m.CacheReady? then Plain(f, m, f.gauge(if snap.ready then 1 else 0)).samples
    else if !snap.ready then []
    else
      match m
      case LastScan => Plain(f, m, f.gauge(snap.lastScanTime)).samples
      case WatchedTotal => Plain(f, m, f.count(snap.watchedTotal)).samples
      case ScanErrors => Plain(f, m, f.count(snap.scanErrors)).samples
      case ReloadTotal => Plain(f, m, f.count(snap.reloadTotal)).samples
      case FileCount => Each(es, CountLine(f))
      case OldestFile => Each(es, OldestLine(f))
      case NewestFile => Each(es, NewestLine(f))
      case ScanDuration => Each(es, DurationLine(f))
      case CollectorLast => if AnyNode(acts, "collector") then Each(acts, LastLine(f, "collector", m)) else []
      case CollectorDelay => if AnyNode(acts, "collector") then Each(acts, DelayLine(f, "collector", m)) else []
      case DistributorLast => if AnyNode(acts, "distributor") then Each(acts, LastLine(f, "distributor", m)) else []
      case DistributorDelay => if AnyNode(acts, "distributor") then Each(acts, DelayLine(f, "distributor", m)) else []
      case LastFile => if AnyFile(acts) then Each(acts, InfoLine(f)) else []
      case BufferFiles => Each(bufs, BufferLine(f))
      case CacheReady => []
  }

  /** The families cover the metrics placed in a range, each with its samples. */
  ghost predicate Covers(fams: seq<Family>, from: nat, to: nat, samples: Metric -> seq<Line>) {
    && (forall i :: 0 <= i < |fams| ==> fams[i].samples == samples(fams[i].metric))
    && (forall m :: from <= Place(m) < to && samples(m) != [] ==> Present(fams, m))
  }

  predicate Present(fams: seq<Family>, m: Metric) {
    exists i :: 0 <= i < |fams| && fams[i].metric == m
  }

  lemma PresentConcat(a: seq<Family>, b: seq<Family>, m: Metric)
    ensures Present(a + b, m) <==> Present(a, m) || Present(b, m)
  {
    if Present(a, m) {
      var i :| 0 <= i < |a| && a[i].metric == m;
      assert (a + b)[i].metric == m;
    }
    if Present(b, m) {
      var i :| 0 <= i < |b| && b[i].metric == m;
      assert (a + b)[|a| + i].metric == m;
    }
  }

  lemma CoversConcat(a: seq<Family>, b: seq<Family>, from: nat, mid: nat, to: nat, samples: Metric -> seq<Line>)
    requires Covers(a, from, mid, samples) && Covers(b, mid, to, samples)
    ensures Covers(a + b, from, to, samples)
  {
    forall m | from <= Place(m) < to && samples(m) != [] ensures Present(a + b, m) {
      PresentConcat(a, b, m);
    }
  }

  function SamplesIn(
      f: Formats, snap: CacheSnapshot, es: seq<DirMetrics>, acts: seq<NodeActivity>, bufs: seq<NodeBuffer>)
    : Metric -> seq<Line>
  {
    (m: Metric) => SamplesOf(f, snap, es, acts, bufs, m)
  }

  lemma PresentAt(fams: seq<Family>, i: nat)
    requires i < |fams|
    ensures Present(fams, fams[i].metric)
  {
  }

  lemma DirectoriesPresent(f: Formats, es: seq<DirMetrics>, m: Metric)
    ensures Present(DirectoryFamilies(f, es), m) <==> es != [] && 5 <= Place(m) < 9
  {
    if es != [] && 5 <= Place(m) < 9 {
      PresentAt(DirectoryFamilies(f, es), Place(m) - 5);
    }
  }

  lemma DirectoriesCover(
      f: Formats, snap: CacheSnapshot, es: seq<DirMetrics>, acts: seq<NodeActivity>, bufs: seq<NodeBuffer>)
    requires snap.ready
    ensures Covers(DirectoryFamilies(f, es), 5, 9, SamplesIn(f, snap, es, acts, bufs))
  {
    forall m | 5 <= Place(m) < 9 && SamplesOf(f, snap, es, acts, bufs, m) != []
      ensures Present(DirectoryFamilies(f, es), m)
    {
      DirectoriesPresent(f, es, m);
    }
  }

  lemma ControlCovers(
      f: Formats, snap: CacheSnapshot, es: seq<DirMetrics>, acts: seq<NodeActivity>, bufs: seq<NodeBuffer>)
    requires snap.ready
    ensures Covers(ControlFamilies(f, snap), 1, 5, SamplesIn(f, snap, es, acts, bufs))
  {
    var fams := ControlFamilies(f, snap);
    forall m | 1 <= Place(m) < 5 ensures Present(fams, m) {
      PresentAt(fams, Place(m) - 1);
    }
  }

  lemma CollectorsCover(
      f: Formats, snap: CacheSnapshot, es: seq<DirMetrics>, acts: seq<NodeActivity>, bufs: seq<NodeBuffer>)
    requires snap.ready
    ensures Covers(NodeFamilies(f, acts, "collector", CollectorLast, CollectorDelay), 9, 11,
                   SamplesIn(f, snap, es, acts, bufs))
  {
    var fams := NodeFamilies(f, acts, "collector", CollectorLast, CollectorDelay);
    forall m | 9 <= Place(m) < 11 && SamplesOf(f, snap, es, acts, bufs, m) != [] ensures Present(fams, m) {
      PresentAt(fams, Place(m) - 9);
    }
  }

  lemma DistributorsCover(
      f: Formats, snap: CacheSnapshot, es: seq<DirMetrics>, acts: seq<NodeActivity>, bufs: seq<NodeBuffer>)
    requires snap.ready
    ensures Covers(NodeFamilies(f, acts, "distributor", DistributorLast, DistributorDelay), 11, 13,
                   SamplesIn(f, snap, es, acts, bufs))
  {
    var fams := NodeFamilies(f, acts, "distributor", DistributorLast, DistributorDelay);
    forall m | 11 <= Place(m) < 13 && SamplesOf(f, snap, es, acts, bufs, m) != [] ensures Present(fams, m) {
      PresentAt(fams, Place(m) - 11);
    }
  }

  lemma FilesCover(
      f: Formats, snap: CacheSnapshot, es: seq<DirMetrics>, acts: seq<NodeActivity>, bufs: seq<NodeBuffer>)
    requires snap.ready
    ensures Covers(FileFamilies(f, acts), 13, 14, SamplesIn(f, snap, es, acts, bufs))
    ensures Covers(BufferFamilies(f, bufs), 14, 15, SamplesIn(f, snap, es, acts, bufs))
  {
    if AnyFile(acts) {
      PresentAt(FileFamilies(f, acts), 0);
    }
    if bufs != [] {
      PresentAt(BufferFamilies(f, bufs), 0);
    }
  }

  lemma DocumentCovers(
      f: Formats, snap: CacheSnapshot, es: seq<DirMetrics>, acts: seq<NodeActivity>, bufs: seq<NodeBuffer>)
    ensures Covers(Families(f, snap, es, acts, bufs), 0, 15, SamplesIn(f, snap, es, acts, bufs))
  {
    var samples := SamplesIn(f, snap, es, acts, bufs);
    var ready := [Plain(f, CacheReady, f.gauge(if snap.ready then 1 else 0))];
    PresentAt(ready, 0);
    if snap.ready {
      var (control, dirs, buffers) := (ControlFamilies(f, snap), DirectoryFamilies(f, es), BufferFamilies(f, bufs));
      var collectors := NodeFamilies(f, acts, "collector", CollectorLast, CollectorDelay);
      var distributors := NodeFamilies(f, acts, "distributor", DistributorLast, DistributorDelay);
      ControlCovers(f, snap, es, acts, bufs);
      DirectoriesCover(f, snap, es, acts, bufs);
      CollectorsCover(f, snap, es, acts, bufs);
      DistributorsCover(f, snap, es, acts, bufs);
      FilesCover(f, snap, es, acts, bufs);
      var files := FileFamilies(f, acts);
      CoversConcat(distributors, files, 11, 13, 14, samples);
      CoversConcat(collectors, distributors + files, 9, 11, 14, samples);
      var nodes := collectors + (distributors + files);
      CoversConcat(nodes, buffers, 9, 14, 15, samples);
      CoversConcat(dirs, nodes + buffers, 5, 9, 15, samples);
      CoversConcat(control, dirs + (nodes + buffers), 1, 5, 15, samples);
      CoversConcat(ready, control + (dirs + (nodes + buffers)), 0, 1, 15, samples);
    }
  }

  // ---- which samples are in the document --------------------------------------------------------------

  lemma {:induction false} InEach<T>(xs: seq<T>, line: T -> Option<Line>, s: Line)
    ensures s in Each(xs, line) <==> exists x :: x in xs && line(x) == Some(s)
  {
    if xs != [] {
      InEach(xs[1..], line, s);
      assert xs == [xs[0]] + xs[1..];
      assert s in Each(xs, line) <==> line(xs[0]) == Some(s) || s in Each(xs[1..], line);
    }
  }

  lemma {:induction false} InLines(f: Formats, fams: seq<Family>, s: Line)
    requires s.Sample?
    ensures s in AllLines(f, fams) <==> exists i :: 0 <= i < |fams| && s in fams[i].samples
  {
    if fams != [] {
      InLines(f, fams[1..], s);
      var first, rest := FamilyLines(f, fams[0]), AllLines(f, fams[1..]);
      assert s in first <==> s in fams[0].samples;
      assert s in first + rest <==> s in first || s in rest;
      if s in rest {
        var i :| 0 <= i < |fams[1..]| && s in fams[1..][i].samples;
        assert s in fams[i + 1].samples;
      }
      if i :| 0 <= i < |fams| && s in fams[i].samples {
        assert i > 0 ==> fams[1..][i - 1] == fams[i];
      }
    }
  }

  lemma InOwnFamily(f: Formats, fams: seq<Family>, samples: Metric -> seq<Line>, m: Metric, s: Line)
    requires NamesOk(f) && s.metric == f.name(m) && WellFormed(f, fams) && Covers(fams, 0, 15, samples)
    ensures (exists i :: 0 <= i < |fams| && s in fams[i].samples) <==> s in samples(m)
  {
    if i :| 0 <= i < |fams| && s in fams[i].samples {
      assert Own(f, fams[i]);
      var k :| 0 <= k < |fams[i].samples| && fams[i].samples[k] == s;
      assert fams[i].metric == m;
    }
    if s in samples(m) {
      assert Present(fams, m);
      var i :| 0 <= i < |fams| && fams[i].metric == m;
      assert fams[i].samples == samples(m);
    }
  }

  lemma InDocument(
      f: Formats, snap: CacheSnapshot, es: seq<DirMetrics>, acts: seq<NodeActivity>, bufs: seq<NodeBuffer>,
      m: Metric, s: Line)
    requires NamesOk(f) && s.Sample? && s.metric == f.name(m)
    ensures s in Document(f, snap, es, acts, bufs) <==> s in SamplesOf(f, snap, es, acts, bufs, m)
  {
    var fams := Families(f, snap, es, acts, bufs);
    DocumentCovers(f, snap, es, acts, bufs);
    DocumentWellFormed(f, snap, es, acts, bufs);
    InLines(f, fams, s);
    InOwnFamily(f, fams, SamplesIn(f, snap, es, acts, bufs), m, s);
  }

  /** Label blocks, pair by pair. */
  predicate DirectoryLabels(labels: seq<LabelPair>, l: DirLabels) {
    labels == [LabelPair("base", l.base), LabelPair("stream", l.stream), LabelPair("type", l.kind)]
  }

  predicate NodeLabels(labels: seq<LabelPair>, base: string, stream: string, node: string) {
    labels == [LabelPair("base", base), LabelPair("stream", stream), LabelPair("node", node)]
  }

  predicate TypedLabels(labels: seq<LabelPair>, base: string, stream: string, node: string, nodeType: string) {
    labels == [LabelPair("base", base), LabelPair("stream", stream), LabelPair("node", node), LabelPair("type", nodeType)]
  }

  predicate FileLabels(labels: seq<LabelPair>, a: NodeActivity) {
    labels == [LabelPair("base", a.base), LabelPair("stream", a.stream), LabelPair("node", a.node),
               LabelPair("type", a.nodeType), LabelPair("filename", a.lastFile)]
  }

  lemma TypedBlock(base: string, stream: string, node: string, nodeType: string)
    ensures TypedLabels(TypedPairs(base, stream, node, nodeType), base, stream, node, nodeType)
  {
  }

  lemma FileBlock(a: NodeActivity)
    ensures FileLabels(TypedPairs(a.base, a.stream, a.node, a.nodeType) + [LabelPair("filename", a.lastFile)], a)
  {
  }

  ghost predicate SaysOfDirectory(f: Formats, e: DirMetrics, m: Metric, labels: seq<LabelPair>, value: string) {
    DirectoryLabels(labels, e.labels) &&
    match m
    case FileCount => value == f.count(e.fileCount)
    case OldestFile => e.success && e.fileCount > 0 && value == f.gauge(e.oldest)
    case NewestFile => e.success && e.fileCount > 0 && value == f.gauge(e.newest)
    case ScanDuration => value == f.gauge(e.duration)
    case _ => false
  }

  ghost predicate SaysOfNode(f: Formats, a: NodeActivity, m: Metric, labels: seq<LabelPair>, value: string) {
    a.success &&
    match m
    case CollectorLast =>
      a.nodeType == "collector" && a.lastActivity > 0
      && NodeLabels(labels, a.base, a.stream, a.node) && value == f.gauge(a.lastActivity)
    case CollectorDelay =>
      a.nodeType == "collector" && NodeLabels(labels, a.base, a.stream, a.node) && value == f.gauge(a.delay)
    case DistributorLast =>
      a.nodeType == "distributor" && a.lastActivity > 0
      && NodeLabels(labels, a.base, a.stream, a.node) && value == f.gauge(a.lastActivity)
    case DistributorDelay =>
      a.nodeType == "distributor" && NodeLabels(labels, a.base, a.stream, a.node) && value == f.gauge(a.delay)
    case LastFile =>
      a.lastFile != "" && a.lastFile != "-" && value == "1" && FileLabels(labels, a)
    case _ => false
  }

  ghost predicate SaysOfBuffer(f: Formats, b: NodeBuffer, m: Metric, labels: seq<LabelPair>, value: string) {
    m.BufferFiles? && TypedLabels(labels, b.base, b.stream, b.node, b.nodeType) && value == f.count(b.fileCount)
  }

  /** What a snapshot has to say, order aside: nothing but its readiness before the first scan. */
  ghost predicate Says(f: Formats, snap: CacheSnapshot, m: Metric, labels: seq<LabelPair>, value: string) {
    if m.CacheReady? then labels == [] && value == f.gauge(if snap.ready then 1 else 0)
    else
      snap.ready &&
      match m
      case LastScan => labels == [] && value == f.gauge(snap.lastScanTime)
      case WatchedTotal => labels == [] && value == f.count(snap.watchedTotal)
      case ScanErrors => labels == [] && value == f.count(snap.scanErrors)
      case ReloadTotal => labels == [] && value == f.count(snap.reloadTotal)
      case _ =>
        || (exists e :: e in snap.entries && SaysOfDirectory(f, e, m, labels, value))
        || (exists a :: a in snap.nodeActivities && SaysOfNode(f, a, m, labels, value))
        || (exists b :: b in snap.nodeBuffers && SaysOfBuffer(f, b, m, labels, value))
  }

  predicate DirectoryMetric(m: Metric) {
    5 <= Place(m) < 9
  }

  predicate NodeMetric(m: Metric) {
    9 <= Place(m) < 14
  }

  lemma DirectorySamplesSay(
      f: Formats, snap: CacheSnapshot, es: seq<DirMetrics>, acts: seq<NodeActivity>, bufs: seq<NodeBuffer>,
      m: Metric, labels: seq<LabelPair>, value: string)
    requires snap.ready && DirectoryMetric(m)
    ensures Sample(f.name(m), labels, value) in SamplesOf(f, snap, es, acts, bufs, m)
            <==> exists e :: e in es && SaysOfDirectory(f, e, m, labels, value)
  {
    var s := Sample(f.name(m), labels, value);
    match m
    case FileCount => InEach(es, CountLine(f), s);
    case OldestFile => InEach(es, OldestLine(f), s);
    case NewestFile => InEach(es, NewestLine(f), s);
    case ScanDuration => InEach(es, DurationLine(f), s);
  }

  lemma TypedSamplesSay(
      f: Formats, acts: seq<NodeActivity>, nodeType: string, last: Metric, delay: Metric,
      labels: seq<LabelPair>, value: string)
    requires (nodeType, last, delay) in {("collector", CollectorLast, CollectorDelay),
                                         ("distributor", DistributorLast, DistributorDelay)}
    ensures Sample(f.name(last), labels, value) in Each(acts, LastLine(f, nodeType, last))
            <==> exists a :: a in acts && SaysOfNode(f, a, last, labels, value)
    ensures Sample(f.name(delay), labels, value) in Each(acts, DelayLine(f, nodeType, delay))
            <==> exists a :: a in acts && SaysOfNode(f, a, delay, labels, value)
  {
    var s, t := Sample(f.name(last), labels, value), Sample(f.name(delay), labels, value);
    InEach(acts, LastLine(f, nodeType, last), s);
    InEach(acts, DelayLine(f, nodeType, delay), t);
    forall a ensures LastSample(f, nodeType, last, a) == Some(s) <==> SaysOfNode(f, a, last, labels, value) {
    }
    forall a ensures DelaySample(f, nodeType, delay, a) == Some(t) <==> SaysOfNode(f, a, delay, labels, value) {
    }
  }

  /** A family left out would have had no samples. */
  lemma NothingLeftOut(f: Formats, acts: seq<NodeActivity>, m: Metric, labels: seq<LabelPair>, value: string)
    requires exists a :: a in acts && SaysOfNode(f, a, m, labels, value)
    ensures m in {CollectorLast, CollectorDelay} ==> AnyNode(acts, "collector")
    ensures m in {DistributorLast, DistributorDelay} ==> AnyNode(acts, "distributor")
    ensures m.LastFile? ==> AnyFile(acts)
  {
    var a :| a in acts && SaysOfNode(f, a, m, labels, value);
    var i :| 0 <= i < |acts| && acts[i] == a;
  }

  lemma FileSamplesSay(f: Formats, acts: seq<NodeActivity>, labels: seq<LabelPair>, value: string)
    ensures Sample(f.name(LastFile), labels, value) in Each(acts, InfoLine(f))
            <==> exists a :: a in acts && SaysOfNode(f, a, LastFile, labels, value)
  {
    var s := Sample(f.name(LastFile), labels, value);
    InEach(acts, InfoLine(f), s);
    forall a ensures InfoSample(f, a) == Some(s) <==> SaysOfNode(f, a, LastFile, labels, value) {
      FileBlock(a);
    }
  }

  lemma NodeSamplesSay(
      f: Formats, snap: CacheSnapshot, es: seq<DirMetrics>, acts: seq<NodeActivity>, bufs: seq<NodeBuffer>,
      m: Metric, labels: seq<LabelPair>, value: string)
    requires snap.ready && NodeMetric(m)
    ensures Sample(f.name(m), labels, value) in SamplesOf(f, snap, es, acts, bufs, m)
            <==> exists a :: a in acts && SaysOfNode(f, a, m, labels, value)
  {
    TypedSamplesSay(f, acts, "collector", CollectorLast, CollectorDelay, labels, value);
    TypedSamplesSay(f, acts, "distributor", DistributorLast, DistributorDelay, labels, value);
    FileSamplesSay(f, acts, labels, value);
    if exists a :: a in acts && SaysOfNode(f, a, m, labels, value) {
      NothingLeftOut(f, acts, m, labels, value);
    }
  }

  lemma BufferSamplesSay(
      f: Formats, snap: CacheSnapshot, es: seq<DirMetrics>, acts: seq<NodeActivity>, bufs: seq<NodeBuffer>,
      labels: seq<LabelPair>, value: string)
    requires snap.ready
    ensures Sample(f.name(BufferFiles), labels, value) in SamplesOf(f, snap, es, acts, bufs, BufferFiles)
            <==> exists b :: b in bufs && SaysOfBuffer(f, b, BufferFiles, labels, value)
  {
    var s := Sample(f.name(BufferFiles), labels, value);
    InEach(bufs, BufferLine(f), s);
    forall b ensures BufferSample(f, b) == Some(s) <==> SaysOfBuffer(f, b, BufferFiles, labels, value) {
      TypedBlock(b.base, b.stream, b.node, b.nodeType);
    }
  }

  lemma SaysByKind(f: Formats, snap: CacheSnapshot, m: Metric, labels: seq<LabelPair>, value: string)
    requires snap.ready
    ensures DirectoryMetric(m) ==>
              (Says(f, snap, m, labels, value) <==> exists e :: e in snap.entries && SaysOfDirectory(f, e, m, labels, value))
    ensures NodeMetric(m) ==>
              (Says(f, snap, m, labels, value) <==> exists a :: a in snap.nodeActivities && SaysOfNode(f, a, m, labels, value))
    ensures m.BufferFiles? ==>
              (Says(f, snap, m, labels, value) <==> exists b :: b in snap.nodeBuffers && SaysOfBuffer(f, b, m, labels, value))
  {
  }

  lemma SamplesSay(
      f: Formats, snap: CacheSnapshot, es: seq<DirMetrics>, acts: seq<NodeActivity>, bufs: seq<NodeBuffer>,
      m: Metric, labels: seq<LabelPair>, value: string)
    requires SortedLists(snap, es, acts, bufs)
    ensures Sample(f.name(m), labels, value) in SamplesOf(f, snap, es, acts, bufs, m) <==> Says(f, snap, m, labels, value)
  {
    if snap.ready {
      SaysByKind(f, snap, m, labels, value);
      if DirectoryMetric(m) {
        SameMembers(es, snap.entries);
        DirectorySamplesSay(f, snap, es, acts, bufs, m, labels, value);
      } else if NodeMetric(m) {
        SameMembers(acts, snap.nodeActivities);
        NodeSamplesSay(f, snap, es, acts, bufs, m, labels, value);
      } else if m.BufferFiles? {
        SameMembers(bufs, snap.nodeBuffers);
        BufferSamplesSay(f, snap, es, acts, bufs, labels, value);
      }
    }
  }

  /** The document carries a sample exactly when the snapshot says so: each directory, node and
      buffer in its families under its own labels, and before the first scan only readiness. */
  lemma DocumentMeaning(
      f: Formats, snap: CacheSnapshot, es: seq<DirMetrics>, acts: seq<NodeActivity>, bufs: seq<NodeBuffer>,
      m: Metric, labels: seq<LabelPair>, value: string)
    requires NamesOk(f) && SortedLists(snap, es, acts, bufs)
    ensures Sample(f.name(m), labels, value) in Document(f, snap, es, acts, bufs) <==> Says(f, snap, m, labels, value)
  {
    InDocument(f, snap, es, acts, bufs, m, Sample(f.name(m), labels, value));
    SamplesSay(f, snap, es, acts, bufs, m, labels, value);
  }
}
