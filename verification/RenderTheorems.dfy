/** What the rendered text promises: grouping, content, unique series. */
module RenderTheorems {
  import opened Wrappers
  import opened Records
  import opened CacheStore
  import opened Exposition
  import opened Render

  // ---- metric names are distinct -----------------------------------------------------------------

  /** A name's length and its eleventh character tell it from the others. */
  function Signature(m: Metric): (int, char) {
    match m
    case CacheReady => (21, 'c')
    case LastScan => (37, 'l')
    case WatchedTotal => (23, 'w')
    case ScanErrors => (27, 's')
    case ReloadTotal => (22, 'r')
    case FileCount => (20, 'f')
    case OldestFile => (39, 'o')
    case NewestFile => (39, 'n')
    case ScanDuration => (33, 's')
    case CollectorLast => (51, 'c')
    case CollectorDelay => (33, 'c')
    case DistributorLast => (53, 'd')
    case DistributorDelay => (35, 'd')
    case LastFile => (29, 'n')
    case BufferFiles => (22, 'b')
  }

  lemma NameSignature(m: Metric)
    ensures |Name(m)| > 10 && (|Name(m)|, Name(m)[10]) == Signature(m)
  {
  }

  lemma NamesDiffer(m: Metric, n: Metric)
    requires m != n
    ensures Name(m) != Name(n)
  {
    NameSignature(m);
    NameSignature(n);
  }

  /** The place of a metric in the order families are written. */
  function Place(m: Metric): nat {
    match m
    case CacheReady => 0
    case LastScan => 1
    case WatchedTotal => 2
    case ScanErrors => 3
    case ReloadTotal => 4
    case FileCount => 5
    case OldestFile => 6
    case NewestFile => 7
    case ScanDuration => 8
    case CollectorLast => 9
    case CollectorDelay => 10
    case DistributorLast => 11
    case DistributorDelay => 12
    case LastFile => 13
    case BufferFiles => 14
  }

  lemma CacheReadyOk()
    ensures MetricOk(Name(CacheReady))
  {
  }

  lemma LastScanOk()
    ensures MetricOk(Name(LastScan))
  {
  }

  lemma WatchedTotalOk()
    ensures MetricOk(Name(WatchedTotal))
  {
  }

  lemma ScanErrorsOk()
    ensures MetricOk(Name(ScanErrors))
  {
  }

  lemma ReloadTotalOk()
    ensures MetricOk(Name(ReloadTotal))
  {
  }

  lemma FileCountOk()
    ensures MetricOk(Name(FileCount))
  {
  }

  lemma OldestFileOk()
    ensures MetricOk(Name(OldestFile))
  {
  }

  lemma NewestFileOk()
    ensures MetricOk(Name(NewestFile))
  {
  }

  lemma ScanDurationOk()
    ensures MetricOk(Name(ScanDuration))
  {
  }

  lemma CollectorLastOk()
    ensures MetricOk(Name(CollectorLast))
  {
  }

  lemma CollectorDelayOk()
    ensures MetricOk(Name(CollectorDelay))
  {
  }

  lemma DistributorLastOk()
    ensures MetricOk(Name(DistributorLast))
  {
    var front, back := "directory_distributor" + "_last_activity", "_timestamp_seconds";
    assert MetricOk(front);
    assert ' ' !in back && '{' !in back;
  }

  lemma DistributorDelayOk()
    ensures MetricOk(Name(DistributorDelay))
  {
  }

  lemma LastFileOk()
    ensures MetricOk(Name(LastFile))
  {
  }

  lemma BufferFilesOk()
    ensures MetricOk(Name(BufferFiles))
  {
  }

  lemma NameIsOk(m: Metric)
    ensures MetricOk(StandardNames()(m))
  {
    match m
    case CacheReady => CacheReadyOk();
    case LastScan => LastScanOk();
    case WatchedTotal => WatchedTotalOk();
    case ScanErrors => ScanErrorsOk();
    case ReloadTotal => ReloadTotalOk();
    case FileCount => FileCountOk();
    case OldestFile => OldestFileOk();
    case NewestFile => NewestFileOk();
    case ScanDuration => ScanDurationOk();
    case CollectorLast => CollectorLastOk();
    case CollectorDelay => CollectorDelayOk();
    case DistributorLast => DistributorLastOk();
    case DistributorDelay => DistributorDelayOk();
    case LastFile => LastFileOk();
    case BufferFiles => BufferFilesOk();
  }

  /** The names of the source satisfy what the theorems below ask of names. */
  lemma StandardNamesOk(f: Formats)
    requires f.name == StandardNames()
    ensures NamesOk(f)
  {
    forall m ensures MetricOk(f.name(m)) {
      NameIsOk(m);
    }
    forall m, n | m != n ensures f.name(m) != f.name(n) {
      NamesDiffer(m, n);
    }
  }

  // ---- families of a document -------------------------------------------------------------------------

  /** The samples are samples of the family's own metric. */
  predicate Own(f: Formats, fam: Family) {
    forall i :: 0 <= i < |fam.samples| ==> fam.samples[i].Sample? && fam.samples[i].metric == f.name(fam.metric)
  }

  predicate WellFormed(f: Formats, fams: seq<Family>) {
    && (forall i :: 0 <= i < |fams| ==> Own(f, fams[i]))
    && (forall i, j :: 0 <= i < j < |fams| ==> fams[i].metric != fams[j].metric)
  }

  predicate Placed(f: Formats, fams: seq<Family>, from: nat, to: nat) {
    && (forall i :: 0 <= i < |fams| ==> Own(f, fams[i]) && from <= Place(fams[i].metric) < to)
    && (forall i, j :: 0 <= i < j < |fams| ==> Place(fams[i].metric) < Place(fams[j].metric))
  }

  lemma PlacedConcat(f: Formats, a: seq<Family>, b: seq<Family>, from: nat, mid: nat, to: nat)
    requires Placed(f, a, from, mid) && Placed(f, b, mid, to) && from <= mid <= to
    ensures Placed(f, a + b, from, to)
  {
  }

  ghost predicate Writes<T(!new)>(f: Formats, line: T -> Option<Line>, m: Metric) {
    forall x :: line(x).Some? ==> line(x).value.Sample? && line(x).value.metric == f.name(m)
  }

  lemma {:induction false} EachOwn<T(!new)>(f: Formats, xs: seq<T>, line: T -> Option<Line>, m: Metric)
    requires Writes(f, line, m)
    ensures Own(f, Family(m, Each(xs, line)))
  {
    if xs != [] {
      EachOwn(f, xs[1..], line, m);
      var rest := Family(m, Each(xs[1..], line)).samples;
      assert forall i :: 0 <= i < |rest| ==> rest[i].Sample? && rest[i].metric == f.name(m);
    }
  }

  lemma DirectoriesOwn(f: Formats, es: seq<DirMetrics>)
    ensures Own(f, Family(FileCount, Each(es, CountLine(f)))) && Own(f, Family(OldestFile, Each(es, OldestLine(f))))
  {
    EachOwn(f, es, CountLine(f), FileCount);
    EachOwn(f, es, OldestLine(f), OldestFile);
  }

  lemma ScansOwn(f: Formats, es: seq<DirMetrics>)
    ensures Own(f, Family(NewestFile, Each(es, NewestLine(f))))
    ensures Own(f, Family(ScanDuration, Each(es, DurationLine(f))))
  {
    EachOwn(f, es, NewestLine(f), NewestFile);
    EachOwn(f, es, DurationLine(f), ScanDuration);
  }

  lemma DirectoriesPlaced(f: Formats, es: seq<DirMetrics>)
    ensures Placed(f, DirectoryFamilies(f, es), 5, 9)
  {
    DirectoriesOwn(f, es);
    ScansOwn(f, es);
  }

  lemma NodesPlaced(f: Formats, acts: seq<NodeActivity>, nodeType: string, last: Metric, delay: Metric, from: nat)
    requires Place(last) == from && Place(delay) == from + 1
    ensures Placed(f, NodeFamilies(f, acts, nodeType, last, delay), from, from + 2)
  {
    EachOwn(f, acts, LastLine(f, nodeType, last), last);
    EachOwn(f, acts, DelayLine(f, nodeType, delay), delay);
  }

  lemma FilesPlaced(f: Formats, acts: seq<NodeActivity>)
    ensures Placed(f, FileFamilies(f, acts), 13, 14)
  {
    EachOwn(f, acts, InfoLine(f), LastFile);
  }

  lemma ActivitiesPlaced(f: Formats, acts: seq<NodeActivity>)
    ensures Placed(f, ActivityFamilies(f, acts), 9, 14)
  {
    NodesPlaced(f, acts, "collector", CollectorLast, CollectorDelay, 9);
    NodesPlaced(f, acts, "distributor", DistributorLast, DistributorDelay, 11);
    FilesPlaced(f, acts);
    var distributors := NodeFamilies(f, acts, "distributor", DistributorLast, DistributorDelay);
    PlacedConcat(f, distributors, FileFamilies(f, acts), 11, 13, 14);
    PlacedConcat(f, NodeFamilies(f, acts, "collector", CollectorLast, CollectorDelay),
                 distributors + FileFamilies(f, acts), 9, 11, 14);
  }

  lemma BuffersPlaced(f: Formats, bufs: seq<NodeBuffer>)
    ensures Placed(f, BufferFamilies(f, bufs), 14, 15)
  {
    EachOwn(f, bufs, BufferLine(f), BufferFiles);
  }

  lemma ControlPlaced(f: Formats, snap: CacheSnapshot)
    ensures Placed(f, [Plain(f, CacheReady, f.gauge(if snap.ready then 1 else 0))], 0, 1)
    ensures Placed(f, ControlFamilies(f, snap), 1, 5)
  {
  }

  lemma DocumentWellFormed(
      f: Formats, snap: CacheSnapshot, es: seq<DirMetrics>, acts: seq<NodeActivity>, bufs: seq<NodeBuffer>)
    ensures WellFormed(f, Families(f, snap, es, acts, bufs))
  {
    var ready := [Plain(f, CacheReady, f.gauge(if snap.ready then 1 else 0))];
    var control := ControlFamilies(f, snap);
    var (dirs, nodes, buffers) := (DirectoryFamilies(f, es), ActivityFamilies(f, acts), BufferFamilies(f, bufs));
    ControlPlaced(f, snap);
    DirectoriesPlaced(f, es);
    ActivitiesPlaced(f, acts);
    BuffersPlaced(f, bufs);
    PlacedConcat(f, nodes, buffers, 9, 14, 15);
    PlacedConcat(f, dirs, nodes + buffers, 5, 9, 15);
    PlacedConcat(f, control, dirs + (nodes + buffers), 1, 5, 15);
    PlacedConcat(f, ready, control + (dirs + (nodes + buffers)), 0, 1, 15);
    PlacedWellFormed(f, Families(f, snap, es, acts, bufs), 0, 15);
  }

  lemma PlacedWellFormed(f: Formats, fams: seq<Family>, from: nat, to: nat)
    requires Placed(f, fams, from, to)
    ensures WellFormed(f, fams)
  {
    forall i, j | 0 <= i < j < |fams| ensures fams[i].metric != fams[j].metric {
      assert Place(fams[i].metric) < Place(fams[j].metric);
    }
  }

  // ---- each family is one group -------------------------------------------------------------------------

  /** The lines of a metric are just those from a to b: HELP, TYPE, then samples. */
  predicate Group(lines: seq<Line>, name: string, a: nat, b: nat) {
    && a <= b <= |lines|
    && (forall i :: 0 <= i < |lines| ==> (lines[i].metric == name <==> a <= i < b))
    && (a < b ==> b - a >= 2 && lines[a].Help? && lines[a + 1].Type?)
    && (forall i :: a + 2 <= i < b ==> lines[i].Sample?)
  }

  ghost predicate OneGroup(lines: seq<Line>, name: string) {
    exists a, b :: Group(lines, name, a, b)
  }

  lemma FamilyMetric(f: Formats, fam: Family)
    requires Own(f, fam)
    ensures var lines := FamilyLines(f, fam);
            && Group(lines, f.name(fam.metric), 0, |lines|)
            && forall i :: 0 <= i < |lines| ==> lines[i].metric == f.name(fam.metric)
  {
    var lines := FamilyLines(f, fam);
    forall i | 0 <= i < |lines| ensures lines[i].metric == f.name(fam.metric) && (i >= 2 ==> lines[i].Sample?) {
      assert i >= 2 ==> lines[i] == fam.samples[i - 2];
    }
  }

  predicate Without(lines: seq<Line>, name: string) {
    forall i :: 0 <= i < |lines| ==> lines[i].metric != name
  }

  lemma {:induction false} NoLines(f: Formats, fams: seq<Family>, name: string)
    requires forall i :: 0 <= i < |fams| ==> Own(f, fams[i]) && f.name(fams[i].metric) != name
    ensures Without(AllLines(f, fams), name)
  {
    if fams != [] {
      NoLines(f, fams[1..], name);
      FamilyMetric(f, fams[0]);
    }
  }

  lemma GroupExtends(lines: seq<Line>, after: seq<Line>, name: string)
    requires Group(lines, name, 0, |lines|) && Without(after, name)
    ensures OneGroup(lines + after, name)
  {
    var all, n := lines + after, |lines|;
    forall i | 0 <= i < |all| ensures all[i] == if i < n then lines[i] else after[i - n] {
    }
    assert Group(all, name, 0, n);
  }

  lemma GroupShifts(before: seq<Line>, lines: seq<Line>, name: string, a: nat, b: nat)
    requires Group(lines, name, a, b) && Without(before, name)
    ensures OneGroup(before + lines, name)
  {
    var all, n := before + lines, |before|;
    var from, to := if a < b then a + n else 0, if a < b then b + n else 0;
    forall i | 0 <= i < |all| ensures all[i].metric == name <==> from <= i < to {
      assert all[i] == if i < n then before[i] else lines[i - n];
    }
    forall i | from + 2 <= i < to ensures all[i].Sample? {
      assert all[i] == lines[i - n];
    }
    assert Group(all, name, from, to);
  }

  lemma {:induction false} FamiliesGroup(f: Formats, fams: seq<Family>, name: string)
    requires NamesOk(f) && WellFormed(f, fams)
    ensures OneGroup(AllLines(f, fams), name)
  {
    if fams == [] {
      assert Group([], name, 0, 0);
    } else {
      var first, rest := FamilyLines(f, fams[0]), AllLines(f, fams[1..]);
      FamilyMetric(f, fams[0]);
      if f.name(fams[0].metric) == name {
        forall i | 0 <= i < |fams[1..]| ensures Own(f, fams[1..][i]) && f.name(fams[1..][i].metric) != name {
          assert fams[1..][i] == fams[i + 1];
          assert fams[0].metric != fams[i + 1].metric;
        }
        NoLines(f, fams[1..], name);
        GroupExtends(first, rest, name);
      } else {
        FamiliesGroup(f, fams[1..], name);
        var a, b :| Group(rest, name, a, b);
        GroupShifts(first, rest, name, a, b);
      }
    }
  }

  /** Every metric's lines form one group with HELP and TYPE once, first. */
  lemma EachFamilyOnce(
      f: Formats, snap: CacheSnapshot, es: seq<DirMetrics>, acts: seq<NodeActivity>, bufs: seq<NodeBuffer>)
    requires NamesOk(f)
    ensures forall name :: OneGroup(Document(f, snap, es, acts, bufs), name)
  {
    DocumentWellFormed(f, snap, es, acts, bufs);
    forall name ensures OneGroup(Document(f, snap, es, acts, bufs), name) {
      FamiliesGroup(f, Families(f, snap, es, acts, bufs), name);
    }
  }

  // ---- the text can be read back ------------------------------------------------------------------------

  lemma {:induction false} EachOk<T>(xs: seq<T>, line: T -> Option<Line>)
    requires forall x :: x in xs && line(x).Some? ==> LineOk(line(x).value)
    ensures LinesOk(Each(xs, line))
  {
    if xs != [] {
      EachOk(xs[1..], line);
    }
  }

  predicate FamiliesOk(fams: seq<Family>) {
    forall i :: 0 <= i < |fams| ==> LinesOk(fams[i].samples)
  }

  lemma KindOneLine(m: Metric)
    ensures '\n' !in Kind(m)
  {
  }

  lemma {:induction false} AllLinesOk(f: Formats, fams: seq<Family>)
    requires FormatsOk(f) && FamiliesOk(fams)
    ensures LinesOk(AllLines(f, fams))
  {
    if fams != [] {
      AllLinesOk(f, fams[1..]);
      KindOneLine(fams[0].metric);
      assert LinesOk(fams[0].samples);
    }
  }

  lemma LabelNamesOk()
    ensures '=' !in "base" && '=' !in "stream" && '=' !in "type" && '=' !in "node" && '=' !in "filename"
    ensures '\n' !in "1"
  {
  }

  lemma DirectorySamplesOk(f: Formats, e: DirMetrics)
    requires FormatsOk(f)
    ensures CountSample(f, e).Some? && LineOk(CountSample(f, e).value)
    ensures DurationSample(f, e).Some? && LineOk(DurationSample(f, e).value)
    ensures OldestSample(f, e).Some? ==> LineOk(OldestSample(f, e).value)
    ensures NewestSample(f, e).Some? ==> LineOk(NewestSample(f, e).value)
  {
    LabelNamesOk();
  }

  lemma DirectoriesOk(f: Formats, es: seq<DirMetrics>)
    requires FormatsOk(f)
    ensures FamiliesOk(DirectoryFamilies(f, es))
  {
    forall e ensures LineOk(CountSample(f, e).value) && LineOk(DurationSample(f, e).value)
      && (OldestSample(f, e).Some? ==> LineOk(OldestSample(f, e).value))
      && (NewestSample(f, e).Some? ==> LineOk(NewestSample(f, e).value))
    {
      DirectorySamplesOk(f, e);
    }
    EachOk(es, CountLine(f));
    EachOk(es, OldestLine(f));
    EachOk(es, NewestLine(f));
    EachOk(es, DurationLine(f));
  }

  lemma NodesOk(f: Formats, acts: seq<NodeActivity>, nodeType: string, last: Metric, delay: Metric)
    requires FormatsOk(f)
    ensures FamiliesOk(NodeFamilies(f, acts, nodeType, last, delay))
  {
    LabelNamesOk();
    EachOk(acts, LastLine(f, nodeType, last));
    EachOk(acts, DelayLine(f, nodeType, delay));
  }

  lemma FilesOk(f: Formats, acts: seq<NodeActivity>)
    requires FormatsOk(f)
    ensures FamiliesOk(FileFamilies(f, acts))
  {
    LabelNamesOk();
    EachOk(acts, InfoLine(f));
  }

  lemma BuffersOk(f: Formats, bufs: seq<NodeBuffer>)
    requires FormatsOk(f)
    ensures FamiliesOk(BufferFamilies(f, bufs))
  {
    LabelNamesOk();
    EachOk(bufs, BufferLine(f));
  }

  lemma ControlOk(f: Formats, snap: CacheSnapshot)
    requires FormatsOk(f)
    ensures FamiliesOk([Plain(f, CacheReady, f.gauge(if snap.ready then 1 else 0))])
    ensures FamiliesOk(ControlFamilies(f, snap))
  {
  }

  lemma OkConcat(a: seq<Family>, b: seq<Family>)
    requires FamiliesOk(a) && FamiliesOk(b)
    ensures FamiliesOk(a + b)
  {
  }

  lemma ChainOk(a: seq<Family>, b: seq<Family>, c: seq<Family>, d: seq<Family>, e: seq<Family>)
    requires FamiliesOk(a) && FamiliesOk(b) && FamiliesOk(c) && FamiliesOk(d) && FamiliesOk(e)
    ensures FamiliesOk(a + (b + (c + (d + e))))
  {
    OkConcat(d, e);
    OkConcat(c, d + e);
    OkConcat(b, c + (d + e));
    OkConcat(a, b + (c + (d + e)));
  }

  lemma ActivitiesOk(f: Formats, acts: seq<NodeActivity>)
    requires FormatsOk(f)
    ensures FamiliesOk(ActivityFamilies(f, acts))
  {
    var collectors := NodeFamilies(f, acts, "collector", CollectorLast, CollectorDelay);
    var distributors := NodeFamilies(f, acts, "distributor", DistributorLast, DistributorDelay);
    NodesOk(f, acts, "collector", CollectorLast, CollectorDelay);
    NodesOk(f, acts, "distributor", DistributorLast, DistributorDelay);
    FilesOk(f, acts);
    OkConcat(distributors, FileFamilies(f, acts));
    OkConcat(collectors, distributors + FileFamilies(f, acts));
  }

  lemma DocumentOk(
      f: Formats, snap: CacheSnapshot, es: seq<DirMetrics>, acts: seq<NodeActivity>, bufs: seq<NodeBuffer>)
    requires FormatsOk(f)
    ensures FamiliesOk(Families(f, snap, es, acts, bufs))
  {
    var ready := [Plain(f, CacheReady, f.gauge(if snap.ready then 1 else 0))];
    var (dirs, nodes, buffers) := (DirectoryFamilies(f, es), ActivityFamilies(f, acts), BufferFamilies(f, bufs));
    ControlOk(f, snap);
    DirectoriesOk(f, es);
    ActivitiesOk(f, acts);
    BuffersOk(f, bufs);
    ChainOk(ready, ControlFamilies(f, snap), dirs, nodes, buffers);
  }

  lemma DocumentLinesOk(
      f: Formats, snap: CacheSnapshot, es: seq<DirMetrics>, acts: seq<NodeActivity>, bufs: seq<NodeBuffer>)
    requires FormatsOk(f)
    ensures LinesOk(Document(f, snap, es, acts, bufs))
  {
    DocumentOk(f, snap, es, acts, bufs);
    AllLinesOk(f, Families(f, snap, es, acts, bufs));
  }

  /** Whatever the labels hold, the text reads back as the lines of the document. */
  lemma DocumentRoundTrip(
      f: Formats, snap: CacheSnapshot, es: seq<DirMetrics>, acts: seq<NodeActivity>, bufs: seq<NodeBuffer>)
    requires FormatsOk(f)
    ensures ReadAll(Print(Document(f, snap, es, acts, bufs))) == Some(Document(f, snap, es, acts, bufs))
  {
    DocumentLinesOk(f, snap, es, acts, bufs);
    PrintRoundTrip(Document(f, snap, es, acts, bufs));
  }
}
