/** When no two samples of a rendered document share metric and labels. */
module RenderSeries {
  import opened Wrappers
  import opened Records
  import opened CacheStore
  import opened Exposition
  import opened Sorting
  import opened Render
  import opened RenderTheorems
  import opened RenderContent

  /** Each sample line has its own combination of metric and labels. */
  predicate Unique(lines: seq<Line>) {
    forall i, j :: 0 <= i < j < |lines| && lines[i].Sample? && lines[j].Sample? ==>
      lines[i].metric != lines[j].metric || lines[i].labels != lines[j].labels
  }

  predicate MetricsApart(a: seq<Line>, b: seq<Line>) {
    forall i, j :: 0 <= i < |a| && 0 <= j < |b| ==> a[i].metric != b[j].metric
  }

  lemma UniqueParts(a: seq<Line>, b: seq<Line>)
    requires Unique(a + b)
    ensures Unique(a) && Unique(b)
  {
    var all := a + b;
    forall i | 0 <= i < |a| ensures a[i] == all[i] {
    }
    forall i | 0 <= i < |b| ensures b[i] == all[|a| + i] {
    }
  }

  lemma UniqueConcat(a: seq<Line>, b: seq<Line>)
    requires MetricsApart(a, b)
    ensures Unique(a + b) <==> Unique(a) && Unique(b)
  {
    if Unique(a + b) {
      UniqueParts(a, b);
    }
  }

  lemma UniqueFamily(f: Formats, fam: Family)
    ensures Unique(FamilyLines(f, fam)) <==> Unique(fam.samples)
  {
    var lines := FamilyLines(f, fam);
    assert forall i :: 0 <= i < |fam.samples| ==> lines[i + 2] == fam.samples[i];
    if Unique(lines) {
      UniqueParts(lines[..2], fam.samples);
      assert lines == lines[..2] + fam.samples;
    }
  }

  ghost predicate UniqueEach(fams: seq<Family>) {
    forall i :: 0 <= i < |fams| ==> Unique(fams[i].samples)
  }

  lemma {:induction false} UniqueFamilies(f: Formats, fams: seq<Family>)
    requires NamesOk(f) && WellFormed(f, fams)
    ensures Unique(AllLines(f, fams)) <==> UniqueEach(fams)
  {
    if fams != [] {
      var first, rest := FamilyLines(f, fams[0]), AllLines(f, fams[1..]);
      FamilyMetric(f, fams[0]);
      forall i | 0 <= i < |fams[1..]| ensures Own(f, fams[1..][i]) && f.name(fams[1..][i].metric) != f.name(fams[0].metric) {
        assert fams[1..][i] == fams[i + 1];
      }
      NoLines(f, fams[1..], f.name(fams[0].metric));
      UniqueFamily(f, fams[0]);
      UniqueFamilies(f, fams[1..]);
      UniqueConcat(first, rest);
      assert UniqueEach(fams) <==> Unique(fams[0].samples) && UniqueEach(fams[1..]) by {
        assert forall i :: 1 <= i < |fams| ==> fams[i] == fams[1..][i - 1];
      }
    }
  }

  lemma UniqueCovered(fams: seq<Family>, samples: Metric -> seq<Line>)
    requires Covers(fams, 0, 15, samples)
    ensures UniqueEach(fams) <==> forall m :: Unique(samples(m))
  {
    if UniqueEach(fams) {
      forall m ensures Unique(samples(m)) {
        if samples(m) != [] {
          assert Present(fams, m);
          var i :| 0 <= i < |fams| && fams[i].metric == m;
          assert fams[i].samples == samples(m);
        }
      }
    }
    if forall m :: Unique(samples(m)) {
      forall i | 0 <= i < |fams| ensures Unique(fams[i].samples) {
        assert fams[i].samples == samples(fams[i].metric);
      }
    }
  }

  lemma UniqueByMetric(
      f: Formats, snap: CacheSnapshot, es: seq<DirMetrics>, acts: seq<NodeActivity>, bufs: seq<NodeBuffer>)
    requires NamesOk(f)
    ensures Unique(Document(f, snap, es, acts, bufs))
            <==> forall m :: Unique(SamplesIn(f, snap, es, acts, bufs)(m))
  {
    var fams := Families(f, snap, es, acts, bufs);
    DocumentWellFormed(f, snap, es, acts, bufs);
    DocumentCovers(f, snap, es, acts, bufs);
    UniqueFamilies(f, fams);
    UniqueCovered(fams, SamplesIn(f, snap, es, acts, bufs));
  }

  // ---- unique labels within a family -----------------------------------------------------------

  predicate LabelsApart<T>(xs: seq<T>, line: T -> Option<Line>) {
    forall i, j :: 0 <= i < j < |xs| ==> Differ(line(xs[i]), line(xs[j]))
  }

  predicate Differ(a: Option<Line>, b: Option<Line>) {
    a.Some? && a.value.Sample? && b.Some? && b.value.Sample? ==> a.value.labels != b.value.labels
  }

  lemma ApartHead<T>(xs: seq<T>, line: T -> Option<Line>)
    requires xs != []
    ensures LabelsApart(xs, line)
            <==> LabelsApart(xs[1..], line) && forall x :: x in xs[1..] ==> Differ(line(xs[0]), line(x))
  {
    var rest := xs[1..];
    assert forall i :: 1 <= i < |xs| ==> xs[i] == rest[i - 1] && xs[i] in rest;
    if LabelsApart(xs, line) {
      forall i, j | 0 <= i < j < |rest| ensures Differ(line(rest[i]), line(rest[j])) {
        assert rest[i] == xs[i + 1] && rest[j] == xs[j + 1];
      }
      forall x | x in rest ensures Differ(line(xs[0]), line(x)) {
        var j :| 0 <= j < |rest| && rest[j] == x;
        assert xs[j + 1] == x;
      }
    }
  }

  predicate OfMetric(lines: seq<Line>, name: string) {
    forall i :: 0 <= i < |lines| ==> lines[i].Sample? && lines[i].metric == name
  }

  lemma UniqueHead(l: Line, rest: seq<Line>)
    requires l.Sample? && OfMetric(rest, l.metric)
    ensures Unique([l] + rest) <==> Unique(rest) && forall s :: s in rest ==> Differ(Some(l), Some(s))
  {
    var all := [l] + rest;
    assert forall i :: 1 <= i < |all| ==> all[i] == rest[i - 1] && all[i] in rest;
    if Unique(all) {
      UniqueParts([l], rest);
      forall s | s in rest ensures Differ(Some(l), Some(s)) {
        var j :| 0 <= j < |rest| && rest[j] == s;
        assert all[0] == l && all[j + 1] == s;
      }
    }
  }

  lemma {:induction false} EachUnique<T(!new)>(f: Formats, xs: seq<T>, line: T -> Option<Line>, m: Metric)
    requires Writes(f, line, m)
    ensures Unique(Each(xs, line)) <==> LabelsApart(xs, line)
  {
    if xs != [] {
      EachUnique(f, xs[1..], line, m);
      ApartHead(xs, line);
      var first, rest := line(xs[0]), Each(xs[1..], line);
      if first.Some? {
        EachOwn(f, xs[1..], line, m);
        assert Own(f, Family(m, rest));
        UniqueHead(first.value, rest);
        HeadDiffers(xs[1..], line, first.value);
      } else {
        assert [] + rest == rest;
      }
    }
  }

  lemma HeadDiffers<T>(xs: seq<T>, line: T -> Option<Line>, l: Line)
    ensures (forall s :: s in Each(xs, line) ==> Differ(Some(l), Some(s)))
            <==> forall x :: x in xs ==> Differ(Some(l), line(x))
  {
    if forall s :: s in Each(xs, line) ==> Differ(Some(l), Some(s)) {
      forall x | x in xs ensures Differ(Some(l), line(x)) {
        if line(x).Some? {
          InEach(xs, line, line(x).value);
        }
      }
    }
    if forall x :: x in xs ==> Differ(Some(l), line(x)) {
      forall s | s in Each(xs, line) ensures Differ(Some(l), Some(s)) {
        InEach(xs, line, s);
      }
    }
  }

  // ---- what makes labels differ -----------------------------------------------------------------

  function LabelsKey(): DirMetrics -> DirLabels {
    (e: DirMetrics) => e.labels
  }

  function NodeId(): NodeActivity -> (string, string, string, string) {
    (a: NodeActivity) => (a.base, a.stream, a.node, a.nodeType)
  }

  function BufferId(): NodeBuffer -> (string, string, string, string) {
    (b: NodeBuffer) => (b.base, b.stream, b.node, b.nodeType)
  }

  lemma DirPairsDiffer(k: DirLabels, l: DirLabels)
    ensures DirPairs(k) == DirPairs(l) <==> k == l
  {
    if DirPairs(k) == DirPairs(l) {
      assert DirPairs(k)[0] == DirPairs(l)[0] && DirPairs(k)[1] == DirPairs(l)[1] && DirPairs(k)[2] == DirPairs(l)[2];
    }
  }

  lemma TypedPairsDiffer(b: string, s: string, n: string, t: string, b': string, s': string, n': string, t': string)
    ensures TypedPairs(b, s, n, t) == TypedPairs(b', s', n', t') <==> (b, s, n, t) == (b', s', n', t')
    ensures NodePairs(b, s, n) == NodePairs(b', s', n') <==> (b, s, n) == (b', s', n')
  {
    var p, q := NodePairs(b, s, n), NodePairs(b', s', n');
    if p == q {
      assert p[0] == q[0] && p[1] == q[1] && p[2] == q[2];
    }
    var x, y := TypedPairs(b, s, n, t), TypedPairs(b', s', n', t');
    if x == y {
      assert x[..3] == p && y[..3] == q && x[3] == y[3];
    }
  }

  /** Directory lines tell directories apart by their labels, whichever family they are in. */
  lemma DirectoryLinesDiffer(f: Formats, d: DirMetrics, e: DirMetrics)
    ensures Differ(CountSample(f, d), CountSample(f, e)) <==> d.labels != e.labels
    ensures Differ(DurationSample(f, d), DurationSample(f, e)) <==> d.labels != e.labels
    ensures d.labels != e.labels ==> Differ(OldestSample(f, d), OldestSample(f, e))
    ensures d.labels != e.labels ==> Differ(NewestSample(f, d), NewestSample(f, e))
  {
    DirPairsDiffer(d.labels, e.labels);
  }

  lemma DirectoriesApart(f: Formats, es: seq<DirMetrics>)
    ensures LabelsApart(es, CountLine(f)) <==> DistinctBy(es, LabelsKey())
    ensures LabelsApart(es, DurationLine(f)) <==> DistinctBy(es, LabelsKey())
    ensures DistinctBy(es, LabelsKey()) ==> LabelsApart(es, OldestLine(f)) && LabelsApart(es, NewestLine(f))
  {
    forall i, j | 0 <= i < j < |es|
      ensures Differ(CountLine(f)(es[i]), CountLine(f)(es[j])) <==> LabelsKey()(es[i]) != LabelsKey()(es[j])
      ensures Differ(DurationLine(f)(es[i]), DurationLine(f)(es[j])) <==> LabelsKey()(es[i]) != LabelsKey()(es[j])
      ensures LabelsKey()(es[i]) != LabelsKey()(es[j]) ==>
                Differ(OldestLine(f)(es[i]), OldestLine(f)(es[j])) && Differ(NewestLine(f)(es[i]), NewestLine(f)(es[j]))
    {
      DirectoryLinesDiffer(f, es[i], es[j]);
    }
  }

  lemma NodeLinesDiffer(f: Formats, a: NodeActivity, b: NodeActivity, nodeType: string, m: Metric)
    ensures Differ(DelaySample(f, nodeType, m, a), DelaySample(f, nodeType, m, b))
            <==> NodeId()(a) != NodeId()(b) || !(a.nodeType == nodeType && a.success && b.success)
    ensures NodeId()(a) != NodeId()(b) ==> Differ(LastSample(f, nodeType, m, a), LastSample(f, nodeType, m, b))
    ensures NodeId()(a) != NodeId()(b) ==> Differ(InfoSample(f, a), InfoSample(f, b))
  {
    TypedPairsDiffer(a.base, a.stream, a.node, a.nodeType, b.base, b.stream, b.node, b.nodeType);
    var p, q := TypedPairs(a.base, a.stream, a.node, a.nodeType), TypedPairs(b.base, b.stream, b.node, b.nodeType);
    var x, y := p + [LabelPair("filename", a.lastFile)], q + [LabelPair("filename", b.lastFile)];
    assert x[..4] == p && y[..4] == q;
  }

  /** The activities ScanAllNodeActivities stores: successful, of one of two types. */
  predicate Stored(acts: seq<NodeActivity>) {
    forall i :: 0 <= i < |acts| ==> acts[i].success && acts[i].nodeType in {"collector", "distributor"}
  }

  lemma NodesApart(f: Formats, acts: seq<NodeActivity>, nodeType: string, last: Metric, delay: Metric)
    requires DistinctBy(acts, NodeId())
    ensures LabelsApart(acts, LastLine(f, nodeType, last)) && LabelsApart(acts, DelayLine(f, nodeType, delay))
    ensures LabelsApart(acts, InfoLine(f))
  {
    forall i, j | 0 <= i < j < |acts|
      ensures Differ(LastLine(f, nodeType, last)(acts[i]), LastLine(f, nodeType, last)(acts[j]))
      ensures Differ(DelayLine(f, nodeType, delay)(acts[i]), DelayLine(f, nodeType, delay)(acts[j]))
      ensures Differ(InfoLine(f)(acts[i]), InfoLine(f)(acts[j]))
    {
      assert NodeId()(acts[i]) != NodeId()(acts[j]);
      NodeLinesDiffer(f, acts[i], acts[j], nodeType, last);
      NodeLinesDiffer(f, acts[i], acts[j], nodeType, delay);
    }
  }

  lemma ApartNodes(f: Formats, acts: seq<NodeActivity>, c: Metric, d: Metric)
    requires Stored(acts)
    requires LabelsApart(acts, DelayLine(f, "collector", c)) && LabelsApart(acts, DelayLine(f, "distributor", d))
    ensures DistinctBy(acts, NodeId())
  {
    forall i, j | 0 <= i < j < |acts| ensures NodeId()(acts[i]) != NodeId()(acts[j]) {
      assert Differ(DelayLine(f, "collector", c)(acts[i]), DelayLine(f, "collector", c)(acts[j]));
      assert Differ(DelayLine(f, "distributor", d)(acts[i]), DelayLine(f, "distributor", d)(acts[j]));
      NodeLinesDiffer(f, acts[i], acts[j], "collector", c);
      NodeLinesDiffer(f, acts[i], acts[j], "distributor", d);
    }
  }

  lemma BuffersApart(f: Formats, bufs: seq<NodeBuffer>)
    ensures LabelsApart(bufs, BufferLine(f)) <==> DistinctBy(bufs, BufferId())
  {
    forall i, j | 0 <= i < j < |bufs|
      ensures Differ(BufferLine(f)(bufs[i]), BufferLine(f)(bufs[j])) <==> BufferId()(bufs[i]) != BufferId()(bufs[j])
    {
      var b, c := bufs[i], bufs[j];
      TypedPairsDiffer(b.base, b.stream, b.node, b.nodeType, c.base, c.stream, c.node, c.nodeType);
    }
  }

  // ---- the whole document -----------------------------------------------------------------------------

  lemma DirectoriesUnique(f: Formats, es: seq<DirMetrics>)
    ensures Unique(Each(es, CountLine(f))) <==> DistinctBy(es, LabelsKey())
    ensures DistinctBy(es, LabelsKey()) ==>
              && Unique(Each(es, OldestLine(f))) && Unique(Each(es, NewestLine(f)))
              && Unique(Each(es, DurationLine(f)))
  {
    DirectoriesApart(f, es);
    EachUnique(f, es, CountLine(f), FileCount);
    EachUnique(f, es, OldestLine(f), OldestFile);
    EachUnique(f, es, NewestLine(f), NewestFile);
    EachUnique(f, es, DurationLine(f), ScanDuration);
  }

  lemma NodesUnique(f: Formats, acts: seq<NodeActivity>, nodeType: string, last: Metric, delay: Metric)
    requires DistinctBy(acts, NodeId())
    ensures Unique(Each(acts, LastLine(f, nodeType, last))) && Unique(Each(acts, DelayLine(f, nodeType, delay)))
    ensures Unique(Each(acts, InfoLine(f)))
  {
    NodesApart(f, acts, nodeType, last, delay);
    EachUnique(f, acts, LastLine(f, nodeType, last), last);
    EachUnique(f, acts, DelayLine(f, nodeType, delay), delay);
    EachUnique(f, acts, InfoLine(f), LastFile);
  }

  lemma UniqueNodes(f: Formats, acts: seq<NodeActivity>)
    requires Stored(acts)
    requires AnyNode(acts, "collector") ==> Unique(Each(acts, DelayLine(f, "collector", CollectorDelay)))
    requires AnyNode(acts, "distributor") ==> Unique(Each(acts, DelayLine(f, "distributor", DistributorDelay)))
    ensures DistinctBy(acts, NodeId())
  {
    EachUnique(f, acts, DelayLine(f, "collector", CollectorDelay), CollectorDelay);
    EachUnique(f, acts, DelayLine(f, "distributor", DistributorDelay), DistributorDelay);
    ApartNodes(f, acts, CollectorDelay, DistributorDelay);
  }

  /** No record of a snapshot shares its labels with another of its kind. */
  predicate DistinctLabels(snap: CacheSnapshot) {
    && DistinctBy(snap.entries, LabelsKey())
    && DistinctBy(snap.nodeActivities, NodeId())
    && DistinctBy(snap.nodeBuffers, BufferId())
  }

  lemma SortedLabels(snap: CacheSnapshot, es: seq<DirMetrics>, acts: seq<NodeActivity>, bufs: seq<NodeBuffer>)
    requires SortedLists(snap, es, acts, bufs)
    ensures DistinctBy(es, LabelsKey()) <==> DistinctBy(snap.entries, LabelsKey())
    ensures DistinctBy(acts, NodeId()) <==> DistinctBy(snap.nodeActivities, NodeId())
    ensures DistinctBy(bufs, BufferId()) <==> DistinctBy(snap.nodeBuffers, BufferId())
    ensures Stored(snap.nodeActivities) ==> Stored(acts)
  {
    RearrangedBoth(es, snap.entries, LabelsKey());
    RearrangedBoth(acts, snap.nodeActivities, NodeId());
    RearrangedBoth(bufs, snap.nodeBuffers, BufferId());
    SameMembers(acts, snap.nodeActivities);
    if Stored(snap.nodeActivities) {
      forall i | 0 <= i < |acts| ensures acts[i].success && acts[i].nodeType in {"collector", "distributor"} {
        assert acts[i] in snap.nodeActivities;
      }
    }
  }

  lemma RearrangedBoth<T, K>(xs: seq<T>, ys: seq<T>, key: T -> K)
    requires multiset(xs) == multiset(ys)
    ensures DistinctBy(xs, key) <==> DistinctBy(ys, key)
  {
    if DistinctBy(xs, key) {
      DistinctRearranged(xs, ys, key);
    }
    if DistinctBy(ys, key) {
      DistinctRearranged(ys, xs, key);
    }
  }

  lemma SamplesUnique(
      f: Formats, snap: CacheSnapshot, es: seq<DirMetrics>, acts: seq<NodeActivity>, bufs: seq<NodeBuffer>, m: Metric)
    requires DistinctBy(es, LabelsKey()) && DistinctBy(acts, NodeId()) && DistinctBy(bufs, BufferId())
    ensures Unique(SamplesOf(f, snap, es, acts, bufs, m))
  {
    if DirectoryMetric(m) {
      DirectoriesUnique(f, es);
    } else if NodeMetric(m) {
      NodesUnique(f, acts, "collector", CollectorLast, CollectorDelay);
      NodesUnique(f, acts, "distributor", DistributorLast, DistributorDelay);
    } else if m.BufferFiles? {
      BuffersApart(f, bufs);
      EachUnique(f, bufs, BufferLine(f), BufferFiles);
    }
  }

  lemma NodeSamplesTell(
      f: Formats, snap: CacheSnapshot, es: seq<DirMetrics>, acts: seq<NodeActivity>, bufs: seq<NodeBuffer>)
    requires snap.ready && Stored(acts)
    requires Unique(SamplesOf(f, snap, es, acts, bufs, CollectorDelay))
    requires Unique(SamplesOf(f, snap, es, acts, bufs, DistributorDelay))
    ensures DistinctBy(acts, NodeId())
  {
    UniqueNodes(f, acts);
  }

  lemma DirectorySamplesTell(
      f: Formats, snap: CacheSnapshot, es: seq<DirMetrics>, acts: seq<NodeActivity>, bufs: seq<NodeBuffer>)
    requires snap.ready && Unique(SamplesOf(f, snap, es, acts, bufs, FileCount))
    ensures DistinctBy(es, LabelsKey())
  {
    DirectoriesUnique(f, es);
  }

  lemma BufferSamplesTell(
      f: Formats, snap: CacheSnapshot, es: seq<DirMetrics>, acts: seq<NodeActivity>, bufs: seq<NodeBuffer>)
    requires snap.ready && Unique(SamplesOf(f, snap, es, acts, bufs, BufferFiles))
    ensures DistinctBy(bufs, BufferId())
  {
    BuffersApart(f, bufs);
    EachUnique(f, bufs, BufferLine(f), BufferFiles);
  }

  lemma SamplesTell(
      f: Formats, snap: CacheSnapshot, es: seq<DirMetrics>, acts: seq<NodeActivity>, bufs: seq<NodeBuffer>)
    requires snap.ready && Stored(acts) && forall m :: Unique(SamplesIn(f, snap, es, acts, bufs)(m))
    ensures DistinctBy(es, LabelsKey()) && DistinctBy(acts, NodeId()) && DistinctBy(bufs, BufferId())
  {
    var samples := SamplesIn(f, snap, es, acts, bufs);
    assert Unique(samples(FileCount)) && Unique(samples(BufferFiles));
    assert Unique(samples(CollectorDelay)) && Unique(samples(DistributorDelay));
    DirectorySamplesTell(f, snap, es, acts, bufs);
    NodeSamplesTell(f, snap, es, acts, bufs);
    BufferSamplesTell(f, snap, es, acts, bufs);
  }

  /** After the first scan, every sample has its own metric and labels exactly when no two
      records of a kind share their labels. */
  lemma UniqueSeriesIff(
      f: Formats, snap: CacheSnapshot, es: seq<DirMetrics>, acts: seq<NodeActivity>, bufs: seq<NodeBuffer>)
    requires NamesOk(f) && SortedLists(snap, es, acts, bufs) && snap.ready && Stored(snap.nodeActivities)
    ensures Unique(Document(f, snap, es, acts, bufs)) <==> DistinctLabels(snap)
  {
    SortedLabels(snap, es, acts, bufs);
    UniqueByMetric(f, snap, es, acts, bufs);
    if DistinctLabels(snap) {
      forall m ensures Unique(SamplesIn(f, snap, es, acts, bufs)(m)) {
        SamplesUnique(f, snap, es, acts, bufs, m);
      }
    }
    if forall m :: Unique(SamplesIn(f, snap, es, acts, bufs)(m)) {
      SamplesTell(f, snap, es, acts, bufs);
    }
  }
}
