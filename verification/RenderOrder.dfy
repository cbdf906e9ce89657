/** Whether the rendered text depends on the order Go ranges over the cache's maps. */
module RenderOrder {
  import opened Wrappers
  import opened Text
  import opened Paths
  import opened FileSystem
  import opened Records
  import opened Discovery
  import opened Targets
  import opened CacheStore
  import opened Exposition
  import opened Sorting
  import opened Render
  import opened RenderTheorems
  import opened RenderContent
  import opened RenderSeries

  /** A text RenderMetrics may write for a snapshot. */
  ghost predicate Rendered(f: Formats, snap: CacheSnapshot, text: string) {
    exists es, acts, bufs :: SortedLists(snap, es, acts, bufs) && text == Print(Document(f, snap, es, acts, bufs))
  }

  ghost predicate TextFixed(f: Formats, snap: CacheSnapshot) {
    forall a, b :: Rendered(f, snap, a) && Rendered(f, snap, b) ==> a == b
  }

  /** The same records in other orders, and the same scalars. */
  predicate SameContents(s: CacheSnapshot, t: CacheSnapshot) {
    && multiset(s.entries) == multiset(t.entries)
    && multiset(s.nodeActivities) == multiset(t.nodeActivities)
    && multiset(s.nodeBuffers) == multiset(t.nodeBuffers)
    && s.(entries := t.entries, nodeActivities := t.nodeActivities, nodeBuffers := t.nodeBuffers) == t
  }

  lemma SameContentsSameTexts(f: Formats, s: CacheSnapshot, t: CacheSnapshot, text: string)
    requires SameContents(s, t) && Rendered(f, s, text)
    ensures Rendered(f, t, text)
  {
    var es, acts, bufs :| SortedLists(s, es, acts, bufs) && text == Print(Document(f, s, es, acts, bufs));
    assert SortedLists(t, es, acts, bufs);
    assert Document(f, s, es, acts, bufs) == Document(f, t, es, acts, bufs);
  }

  // ---- distinct sort keys fix the text -------------------------------------------------------------

  predicate NodeKeysDistinct(snap: CacheSnapshot) {
    DistinctBy(snap.nodeActivities, ActKey()) && DistinctBy(snap.nodeBuffers, BufKey())
  }

  lemma OneSort<T(!new)>(a: seq<T>, b: seq<T>, xs: seq<T>, key: T -> string)
    requires IsSortOf(a, xs, ByKey(key)) && IsSortOf(b, xs, ByKey(key)) && DistinctBy(xs, key)
    ensures a == b
  {
    DistinctRearranged(xs, a, key);
    DistinctKeysFixTheSort(a, b, key);
  }

  lemma DistinctKeysFixTheText(f: Formats, snap: CacheSnapshot)
    requires DistinctBy(snap.entries, DirKey()) && NodeKeysDistinct(snap)
    ensures TextFixed(f, snap)
  {
    forall a, b | Rendered(f, snap, a) && Rendered(f, snap, b) ensures a == b {
      var es, acts, bufs :| SortedLists(snap, es, acts, bufs) && a == Print(Document(f, snap, es, acts, bufs));
      var es', acts', bufs' :|
        SortedLists(snap, es', acts', bufs') && b == Print(Document(f, snap, es', acts', bufs'));
      OneSort(es, es', snap.entries, DirKey());
      OneSort(acts, acts', snap.nodeActivities, ActKey());
      OneSort(bufs, bufs', snap.nodeBuffers, BufKey());
    }
  }

  // ---- the document of a metric ------------------------------------------------------------------

  /** The samples of one metric among some lines. */
  function Named(lines: seq<Line>, name: string): seq<Line> {
    if lines == [] then []
    else
      (if lines[0].Sample? && lines[0].metric == name then [lines[0]] else []) + Named(lines[1..], name)
  }

  lemma {:induction false} NamedConcat(a: seq<Line>, b: seq<Line>, name: string)
    ensures Named(a + b, name) == Named(a, name) + Named(b, name)
  {
    if a == [] {
      assert a + b == b;
    } else {
      assert (a + b)[1..] == a[1..] + b;
      NamedConcat(a[1..], b, name);
      ConcatAssociates(if a[0].Sample? && a[0].metric == name then [a[0]] else [], Named(a[1..], name), Named(b, name));
    }
  }

  lemma {:induction false} NamedAll(lines: seq<Line>, name: string)
    requires forall i :: 0 <= i < |lines| ==> lines[i].Sample?
    ensures (forall i :: 0 <= i < |lines| ==> lines[i].metric == name) ==> Named(lines, name) == lines
    ensures (forall i :: 0 <= i < |lines| ==> lines[i].metric != name) ==> Named(lines, name) == []
  {
    if lines != [] {
      NamedAll(lines[1..], name);
      assert lines == [lines[0]] + lines[1..];
    }
  }

  lemma NamedFamily(f: Formats, fam: Family, name: string)
    requires Own(f, fam)
    ensures Named(FamilyLines(f, fam), name) == if f.name(fam.metric) == name then fam.samples else []
  {
    var head := [Help(f.name(fam.metric), f.text(fam.metric)), Type(f.name(fam.metric), Kind(fam.metric))];
    NamedConcat(head, fam.samples, name);
    assert head[1..][1..] == [] && Named(head[1..][1..], name) == [];
    assert Named(head, name) == [];
    NamedAll(fam.samples, name);
  }

  lemma {:induction false} NamedNothing(f: Formats, fams: seq<Family>, m: Metric)
    requires NamesOk(f) && WellFormed(f, fams) && !Present(fams, m)
    ensures Named(AllLines(f, fams), f.name(m)) == []
  {
    if fams != [] {
      assert fams[0].metric != m && Own(f, fams[0]);
      WellFormedRest(f, fams);
      assert forall i :: 0 <= i < |fams[1..]| ==> fams[1..][i] == fams[i + 1];
      NamedFamily(f, fams[0], f.name(m));
      NamedNothing(f, fams[1..], m);
      NamedConcat(FamilyLines(f, fams[0]), AllLines(f, fams[1..]), f.name(m));
    }
  }

  lemma WellFormedRest(f: Formats, fams: seq<Family>)
    requires WellFormed(f, fams) && fams != []
    ensures WellFormed(f, fams[1..]) && !Present(fams[1..], fams[0].metric)
  {
    assert forall i :: 0 <= i < |fams[1..]| ==> fams[1..][i] == fams[i + 1];
  }

  lemma {:induction false} NamedSamples(f: Formats, fams: seq<Family>, i: nat)
    requires NamesOk(f) && WellFormed(f, fams) && i < |fams|
    ensures Named(AllLines(f, fams), f.name(fams[i].metric)) == fams[i].samples
  {
    var m := fams[i].metric;
    assert Own(f, fams[0]);
    WellFormedRest(f, fams);
    NamedFamily(f, fams[0], f.name(m));
    NamedConcat(FamilyLines(f, fams[0]), AllLines(f, fams[1..]), f.name(m));
    if i == 0 {
      NamedNothing(f, fams[1..], m);
    } else {
      assert fams[1..][i - 1] == fams[i];
      NamedSamples(f, fams[1..], i - 1);
    }
  }

  lemma NamedCovered(f: Formats, fams: seq<Family>, samples: Metric -> seq<Line>, m: Metric)
    requires NamesOk(f) && WellFormed(f, fams) && Covers(fams, 0, 15, samples)
    ensures Named(AllLines(f, fams), f.name(m)) == samples(m)
  {
    if Present(fams, m) {
      var i :| 0 <= i < |fams| && fams[i].metric == m;
      NamedSamples(f, fams, i);
    } else {
      NamedNothing(f, fams, m);
    }
  }

  /** The samples of a metric can be read off the document. */
  lemma NamedDocument(
      f: Formats, snap: CacheSnapshot, es: seq<DirMetrics>, acts: seq<NodeActivity>, bufs: seq<NodeBuffer>, m: Metric)
    requires NamesOk(f)
    ensures Named(Document(f, snap, es, acts, bufs), f.name(m)) == SamplesOf(f, snap, es, acts, bufs, m)
  {
    DocumentWellFormed(f, snap, es, acts, bufs);
    DocumentCovers(f, snap, es, acts, bufs);
    NamedCovered(f, Families(f, snap, es, acts, bufs), SamplesIn(f, snap, es, acts, bufs), m);
  }

  // ---- shared sort keys show the map order -----------------------------------------------------------

  /** Two directories print the same samples. */
  predicate PrintsSame(f: Formats, x: DirMetrics, y: DirMetrics) {
    && CountSample(f, x) == CountSample(f, y) && OldestSample(f, x) == OldestSample(f, y)
    && NewestSample(f, x) == NewestSample(f, y) && DurationSample(f, x) == DurationSample(f, y)
  }

  /** Directories with equal sort keys print the same samples. */
  ghost predicate TiesPrintSame(f: Formats, es: seq<DirMetrics>) {
    forall x, y :: x in es && y in es && DirKey()(x) == DirKey()(y) ==> PrintsSame(f, x, y)
  }

  lemma {:induction false} EachSame<T>(a: seq<T>, b: seq<T>, line: T -> Option<Line>)
    requires |a| == |b| && forall i :: 0 <= i < |a| ==> line(a[i]) == line(b[i])
    ensures Each(a, line) == Each(b, line)
  {
    if a != [] {
      forall i | 0 <= i < |a[1..]| ensures line(a[1..][i]) == line(b[1..][i]) {
        assert line(a[i + 1]) == line(b[i + 1]);
      }
      EachSame(a[1..], b[1..], line);
    }
  }

  /** Records that print in the same places and print the same lines print alike. */
  lemma {:induction false} EachTells<T>(a: seq<T>, b: seq<T>, line: T -> Option<Line>, k: nat)
    requires |a| == |b| && k < |a| && Each(a, line) == Each(b, line)
    requires forall i :: 0 <= i < |a| ==> (line(a[i]).Some? <==> line(b[i]).Some?)
    ensures line(a[k]) == line(b[k])
  {
    var ra, rb := Each(a[1..], line), Each(b[1..], line);
    if line(a[0]).Some? {
      assert ([line(a[0]).value] + ra)[0] == ([line(b[0]).value] + rb)[0];
      assert ([line(a[0]).value] + ra)[1..] == ra && ([line(b[0]).value] + rb)[1..] == rb;
    } else {
      assert [] + ra == ra && [] + rb == rb;
    }
    if k > 0 {
      forall i | 0 <= i < |a[1..]| ensures line(a[1..][i]).Some? <==> line(b[1..][i]).Some? {
        assert line(a[i + 1]).Some? <==> line(b[i + 1]).Some?;
      }
      EachTells(a[1..], b[1..], line, k - 1);
    }
  }

  lemma TiesSameFamilies(f: Formats, a: seq<DirMetrics>, b: seq<DirMetrics>, es: seq<DirMetrics>)
    requires IsSortOf(a, es, ByKey(DirKey())) && IsSortOf(b, es, ByKey(DirKey())) && TiesPrintSame(f, es)
    ensures DirectoryFamilies(f, a) == DirectoryFamilies(f, b)
  {
    ByKeyWeak(DirKey());
    SortsTie(a, b, ByKey(DirKey()));
    SameMembers(a, es);
    SameMembers(b, es);
    forall i | 0 <= i < |a| ensures PrintsSame(f, a[i], b[i]) {
      assert a[i] in es && b[i] in es && Tied(a[i], b[i], ByKey(DirKey()));
    }
    forall i | 0 <= i < |a|
      ensures CountLine(f)(a[i]) == CountLine(f)(b[i]) && OldestLine(f)(a[i]) == OldestLine(f)(b[i])
      ensures NewestLine(f)(a[i]) == NewestLine(f)(b[i]) && DurationLine(f)(a[i]) == DurationLine(f)(b[i])
    {
      assert PrintsSame(f, a[i], b[i]);
    }
    EachSame(a, b, CountLine(f));
    EachSame(a, b, OldestLine(f));
    EachSame(a, b, NewestLine(f));
    EachSame(a, b, DurationLine(f));
  }

  lemma TiesFixTheText(f: Formats, snap: CacheSnapshot)
    requires TiesPrintSame(f, snap.entries) && NodeKeysDistinct(snap)
    ensures TextFixed(f, snap)
  {
    forall a, b | Rendered(f, snap, a) && Rendered(f, snap, b) ensures a == b {
      var es, acts, bufs :| SortedLists(snap, es, acts, bufs) && a == Print(Document(f, snap, es, acts, bufs));
      var es', acts', bufs' :|
        SortedLists(snap, es', acts', bufs') && b == Print(Document(f, snap, es', acts', bufs'));
      TiesSameFamilies(f, es, es', snap.entries);
      OneSort(acts, acts', snap.nodeActivities, ActKey());
      OneSort(bufs, bufs', snap.nodeBuffers, BufKey());
    }
  }

  lemma TwoPlaces(es: seq<DirMetrics>, x: DirMetrics, y: DirMetrics) returns (i: nat, j: nat)
    requires x in es && y in es && x != y
    ensures i < j < |es| && ((es[i] == x && es[j] == y) || (es[i] == y && es[j] == x))
  {
    var p :| 0 <= p < |es| && es[p] == x;
    var q :| 0 <= q < |es| && es[q] == y;
    i, j := if p < q then p else q, if p < q then q else p;
  }

  lemma SomeSort(snap: CacheSnapshot)
    returns (es: seq<DirMetrics>, acts: seq<NodeActivity>, bufs: seq<NodeBuffer>)
    ensures SortedLists(snap, es, acts, bufs)
  {
    es, acts := Sorted(snap.entries, ByKey(DirKey())), Sorted(snap.nodeActivities, ByKey(ActKey()));
    bufs := Sorted(snap.nodeBuffers, ByKey(BufKey()));
    ByKeyWeak(DirKey());
    ByKeyWeak(ActKey());
    ByKeyWeak(BufKey());
    SortedIsSort(snap.entries, ByKey(DirKey()));
    SortedIsSort(snap.nodeActivities, ByKey(ActKey()));
    SortedIsSort(snap.nodeBuffers, ByKey(BufKey()));
  }

  lemma ExchangeTells(es: seq<DirMetrics>, i: nat, j: nat, line: DirMetrics -> Option<Line>)
    requires i < j < |es| && (line(es[i]).Some? <==> line(es[j]).Some?)
    requires Each(es, line) == Each(Exchanged(es, i, j), line)
    ensures line(es[i]) == line(es[j])
  {
    var es' := Exchanged(es, i, j);
    forall k | 0 <= k < |es| ensures line(es[k]).Some? <==> line(es'[k]).Some? {
      assert k != i && k != j ==> es'[k] == es[k];
    }
    EachTells(es, es', line, i);
  }

  /** Exchanging two places whose lines of some metric differ changes the text. */
  lemma ExchangeShows(
      f: Formats, snap: CacheSnapshot, es: seq<DirMetrics>, acts: seq<NodeActivity>, bufs: seq<NodeBuffer>,
      i: nat, j: nat, m: Metric, line: DirMetrics -> Option<Line>)
    requires FormatsOk(f) && snap.ready && i < j < |es|
    requires forall s :: SamplesOf(f, snap, s, acts, bufs, m) == Each(s, line)
    requires line(es[i]) != line(es[j]) && (line(es[i]).Some? <==> line(es[j]).Some?)
    ensures Print(Document(f, snap, es, acts, bufs)) != Print(Document(f, snap, Exchanged(es, i, j), acts, bufs))
  {
    var es' := Exchanged(es, i, j);
    var d, d' := Document(f, snap, es, acts, bufs), Document(f, snap, es', acts, bufs);
    if Print(d) == Print(d') {
      DocumentLinesOk(f, snap, es, acts, bufs);
      DocumentLinesOk(f, snap, es', acts, bufs);
      PrintInjective(d, d');
      NamedDocument(f, snap, es, acts, bufs, m);
      NamedDocument(f, snap, es', acts, bufs, m);
      assert Each(es, line) == Each(es', line);
      ExchangeTells(es, i, j, line);
      assert false;
    }
  }

  /** Two directories with equal sort keys whose lines of some metric differ. */
  lemma SharedKeyShows(
      f: Formats, snap: CacheSnapshot, x: DirMetrics, y: DirMetrics, m: Metric, line: DirMetrics -> Option<Line>)
    requires FormatsOk(f) && snap.ready && x in snap.entries && y in snap.entries && DirKey()(x) == DirKey()(y)
    requires forall s, acts, bufs :: SamplesOf(f, snap, s, acts, bufs, m) == Each(s, line)
    requires line(x) != line(y) && (line(x).Some? <==> line(y).Some?)
    ensures !TextFixed(f, snap)
  {
    var es, acts, bufs := SomeSort(snap);
    SameMembers(es, snap.entries);
    var i, j := TwoPlaces(es, x, y);
    ByKeyWeak(DirKey());
    ExchangeIsSort(es, i, j, ByKey(DirKey()));
    var es' := Exchanged(es, i, j);
    assert SortedLists(snap, es', acts, bufs);
    ExchangeShows(f, snap, es, acts, bufs, i, j, m, line);
    assert Rendered(f, snap, Print(Document(f, snap, es, acts, bufs)));
    assert Rendered(f, snap, Print(Document(f, snap, es', acts, bufs)));
  }

  /** Different counts print differently. */
  ghost predicate CountsTell(f: Formats) {
    forall m, n :: f.count(m) == f.count(n) ==> m == n
  }

  /** A failed scan has counted nothing. */
  predicate FailedAreEmpty(es: seq<DirMetrics>) {
    forall i :: 0 <= i < |es| ==> es[i].success || es[i].fileCount == 0
  }

  lemma CountTells(f: Formats, x: DirMetrics, y: DirMetrics)
    requires CountsTell(f) && CountSample(f, x) == CountSample(f, y)
    requires (x.success || x.fileCount == 0) && (y.success || y.fileCount == 0)
    ensures OldestSample(f, x).Some? <==> OldestSample(f, y).Some?
    ensures NewestSample(f, x).Some? <==> NewestSample(f, y).Some?
  {
    assert f.count(x.fileCount) == f.count(y.fileCount);
  }

  lemma SamplesByLine(f: Formats, snap: CacheSnapshot)
    requires snap.ready
    ensures forall s, acts, bufs :: SamplesOf(f, snap, s, acts, bufs, FileCount) == Each(s, CountLine(f))
    ensures forall s, acts, bufs :: SamplesOf(f, snap, s, acts, bufs, OldestFile) == Each(s, OldestLine(f))
    ensures forall s, acts, bufs :: SamplesOf(f, snap, s, acts, bufs, NewestFile) == Each(s, NewestLine(f))
    ensures forall s, acts, bufs :: SamplesOf(f, snap, s, acts, bufs, ScanDuration) == Each(s, DurationLine(f))
  {
  }

  lemma TieShows(f: Formats, snap: CacheSnapshot, x: DirMetrics, y: DirMetrics)
    requires FormatsOk(f) && CountsTell(f) && snap.ready && FailedAreEmpty(snap.entries)
    requires x in snap.entries && y in snap.entries && DirKey()(x) == DirKey()(y) && !PrintsSame(f, x, y)
    ensures !TextFixed(f, snap)
  {
    SamplesByLine(f, snap);
    if CountSample(f, x) != CountSample(f, y) {
      SharedKeyShows(f, snap, x, y, FileCount, CountLine(f));
    } else {
      CountTells(f, x, y);
      if OldestSample(f, x) != OldestSample(f, y) {
        SharedKeyShows(f, snap, x, y, OldestFile, OldestLine(f));
      } else if NewestSample(f, x) != NewestSample(f, y) {
        SharedKeyShows(f, snap, x, y, NewestFile, NewestLine(f));
      } else {
        SharedKeyShows(f, snap, x, y, ScanDuration, DurationLine(f));
      }
    }
  }

  /** The text does not depend on map order exactly when directories with equal sort keys print the
      same samples: not so for different labels whose concatenations coincide, nor for equal
      labels with different counts. */
  lemma TextFixedIff(f: Formats, snap: CacheSnapshot)
    requires FormatsOk(f) && CountsTell(f) && snap.ready && NodeKeysDistinct(snap) && FailedAreEmpty(snap.entries)
    ensures TextFixed(f, snap) <==> TiesPrintSame(f, snap.entries)
  {
    if TiesPrintSame(f, snap.entries) {
      TiesFixTheText(f, snap);
    } else {
      var x, y :|
        x in snap.entries && y in snap.entries && DirKey()(x) == DirKey()(y) && !PrintsSame(f, x, y);
      TieShows(f, snap, x, y);
    }
  }

  // ---- one target ------------------------------------------------------------------------------------------

  lemma FirstPart(a: string, x: string, b: string, y: string)
    requires '/' !in a && '/' !in b && a + "/" + x == b + "/" + y
    ensures a == b && x == y
  {
    SplitAfterWord(a, x, '/');
    SplitAfterWord(b, y, '/');
    assert a + ['/'] + x == a + "/" + x && b + ['/'] + y == b + "/" + y;
    assert ([a] + Split(x, '/'))[0] == ([b] + Split(y, '/'))[0];
    var s := a + "/" + x;
    assert s[|a| + 1..] == x && s[|b| + 1..] == y;
  }

  lemma KeyOfLabelsInjective(k: DirLabels, l: DirLabels)
    requires k.base == l.base && '/' !in k.stream && '/' !in l.stream && KeyOfLabels(k) == KeyOfLabels(l)
    ensures k == l
  {
    var n := |k.base| + 1;
    assert KeyOfLabels(k)[n..] == k.stream + "/" + k.kind;
    assert KeyOfLabels(l)[n..] == l.stream + "/" + l.kind;
    FirstPart(k.stream, k.kind, l.stream, l.kind);
  }

  predicate LabelledBy(l: DirLabels, base: string) {
    l.base == base && '/' !in l.stream
  }

  lemma {:induction false} EntriesLabelled(q: Query, nodes: seq<seq<string>>)
    requires forall n :: n in nodes ==> GoodNames(n)
    ensures forall e :: e in Entries(q, nodes) ==> LabelledBy(e.labels, q.baseLabel)
  {
    if nodes != [] {
      EntriesLabelled(q, nodes[1..]);
      assert nodes[0] in nodes;
      if Accepts(q, nodes[0]) {
        assert EntryFor(q, nodes[0]) == [EntryOf(q, nodes[0])];
        assert GoodName(nodes[0][0]);
      }
    }
  }

  lemma ExplicitLabelled(base: string, baseLabel: string, rels: seq<string>)
    ensures forall e :: e in ExplicitEntries(base, baseLabel, rels) ==> LabelledBy(e.labels, baseLabel)
  {
    forall i | 0 <= i < |rels| ensures LabelledBy(ExplicitLabels(baseLabel, rels[i]), baseLabel) {
      JoinSplit(rels[i], '/');
    }
  }

  lemma DiscoveredLabelled(q: Query)
    ensures forall e :: e in Entries(q, Visited(q, [])) ==> LabelledBy(e.labels, q.baseLabel)
  {
    forall n | n in Visited(q, []) ensures GoodNames(n) {
      EnumerateBelow(q.tree, q.base, [], q.maxDepth, n);
    }
    EntriesLabelled(q, Visited(q, []));
  }

  lemma TargetLabelled(tree: Tree, t: Target)
    ensures forall e :: e in TargetResult(tree, t).0 ==> LabelledBy(e.labels, LabelFor(t))
  {
    if t.dirs != [] {
      ExplicitLabelled(Clean(t.base), LabelFor(t), FreshRels(t.dirs, {}));
    } else if !PatternRefused(t.pattern) {
      DiscoveredLabelled(TargetQuery(tree, t));
    }
  }

  lemma SameKeySamePath(tree: Tree, t: Target, m: map<string, DirMetrics>, p: string, q: string)
    requires Protocol.ScannedFor(m, TargetResult(tree, t).0) && p in m && q in m
    requires KeyOfLabels(m[p].labels) == KeyOfLabels(m[q].labels)
    ensures p == q
  {
    var watched := TargetResult(tree, t).0;
    var d :| d in watched && d.absPath == p && d.labels == m[p].labels;
    var e :| e in watched && e.absPath == q && e.labels == m[q].labels;
    TargetLabelled(tree, t);
    KeyOfLabelsInjective(d.labels, e.labels);
    TargetLabelsDiffer(tree, t);
    var i :| 0 <= i < |watched| && watched[i] == d;
    var j :| 0 <= j < |watched| && watched[j] == e;
    assert i == j;
  }

  lemma TargetKeysDistinct(tree: Tree, t: Target, m: map<string, DirMetrics>, es: seq<DirMetrics>)
    requires Protocol.ScannedFor(m, TargetResult(tree, t).0) && ListsValues(es, m)
    ensures DistinctBy(es, DirKey())
  {
    var order :| Lists(order, es, m);
    forall i, j | 0 <= i < j < |es| ensures DirKey()(es[i]) != DirKey()(es[j]) {
      assert order[i] in order && order[j] in order;
      if DirKey()(es[i]) == DirKey()(es[j]) {
        SameKeySamePath(tree, t, m, order[i], order[j]);
        assert false;
      }
    }
  }

  /** A map whose values are stored under their own keys lists them with distinct keys. */
  lemma KeyedListing<V>(m: map<string, V>, vs: seq<V>, key: V -> string)
    requires (forall k :: k in m ==> key(m[k]) == k) && ListsValues(vs, m)
    ensures DistinctBy(vs, key)
  {
    var order :| Lists(order, vs, m);
    forall i, j | 0 <= i < j < |vs| ensures key(vs[i]) != key(vs[j]) {
      assert order[i] in order && order[j] in order;
    }
  }

  /** What Snapshot may return for a cache. */
  ghost predicate SnapshotOf(
      s: CacheSnapshot, entries: map<string, DirMetrics>, acts: map<string, NodeActivity>, bufs: map<string, NodeBuffer>)
  {
    ListsValues(s.entries, entries) && ListsValues(s.nodeActivities, acts) && ListsValues(s.nodeBuffers, bufs)
  }

  /** With one target, any two snapshots of one cache render the same text, whatever order Go
      ranged over the maps in and however the sorts broke ties. */
  lemma OneTargetOneText(
      f: Formats, tree: Tree, t: Target, s: CacheSnapshot, s': CacheSnapshot,
      entries: map<string, DirMetrics>, acts: map<string, NodeActivity>, bufs: map<string, NodeBuffer>,
      a: string, b: string)
    requires Protocol.ScannedFor(entries, TargetResult(tree, t).0)
    requires forall k :: k in acts ==> ActKey()(acts[k]) == k
    requires forall k :: k in bufs ==> BufKey()(bufs[k]) == k
    requires SnapshotOf(s, entries, acts, bufs) && SnapshotOf(s', entries, acts, bufs)
    requires s.(entries := s'.entries, nodeActivities := s'.nodeActivities, nodeBuffers := s'.nodeBuffers) == s'
    requires Rendered(f, s, a) && Rendered(f, s', b)
    ensures a == b
  {
    ListingsArePermutations(s.entries, s'.entries, entries);
    ListingsArePermutations(s.nodeActivities, s'.nodeActivities, acts);
    ListingsArePermutations(s.nodeBuffers, s'.nodeBuffers, bufs);
    SameContentsSameTexts(f, s, s', a);
    TargetKeysDistinct(tree, t, entries, s'.entries);
    KeyedListing(acts, s'.nodeActivities, ActKey());
    KeyedListing(bufs, s'.nodeBuffers, BufKey());
    DistinctKeysFixTheText(f, s');
  }

  /** In the running system: once both loops are idle over a watch list that is one target's, any two
      texts of its cache are the same. */
  lemma QuiescentOneText(
      workers: nat, watchList: seq<WatchEntry>, run: seq<Protocol.Action>,
      f: Formats, tree: Tree, t: Target, s: CacheSnapshot, s': CacheSnapshot, a: string, b: string)
    requires Protocol.Run(Protocol.Start(workers, watchList), run).Some?
    requires var p := Protocol.Run(Protocol.Start(workers, watchList), run).value;
             var held := p.cache.cells.fields;
             && p.scan.AtSelect? && !p.token && (p.discovery.Waiting? || p.discovery.DiscoveryStopped?)
             && p.watchList == TargetResult(tree, t).0
             && (forall k :: k in held.activities ==> ActKey()(held.activities[k]) == k)
             && (forall k :: k in held.buffers ==> BufKey()(held.buffers[k]) == k)
             && SnapshotOf(s, held.entries, held.activities, held.buffers)
             && SnapshotOf(s', held.entries, held.activities, held.buffers)
    requires s.(entries := s'.entries, nodeActivities := s'.nodeActivities, nodeBuffers := s'.nodeBuffers) == s'
    requires Rendered(f, s, a) && Rendered(f, s', b)
    ensures a == b
  {
    Protocol.QuiescentAgreement(workers, watchList, run);
    var held := Protocol.Run(Protocol.Start(workers, watchList), run).value.cache.cells.fields;
    OneTargetOneText(f, tree, t, s, s', held.entries, held.activities, held.buffers, a, b);
  }

  // ---- two targets ------------------------------------------------------------------------------------------

  function ListedTarget(base: string, baseLabel: string, dir: string): Target {
    Target(base, baseLabel, [dir], 0, "", [])
  }

  lemma CleanNames(names: seq<string>)
    requires GoodNames(names) && names != []
    ensures Clean(Join(names, '/')) == Join(names, '/') && Split(Join(names, '/'), '/') == names
  {
    AnalyseRender(Cleaned(false, names));
    SplitJoin(names, '/');
  }

  lemma ListedEntry(tree: Tree, base: string, baseLabel: string, names: seq<string>)
    requires GoodNames(names) && names != [] && baseLabel != ""
    ensures var entries := TargetResult(tree, ListedTarget(base, baseLabel, Join(names, '/'))).0;
            |entries| == 1 && entries[0].labels == DirLabels(baseLabel, names[0], Join(names[1..], '/'))
  {
    CleanNames(names);
    var dir := Join(names, '/');
    assert FreshRels([dir][1..], {dir}) == [];
    assert FreshRels([dir], {}) == [dir];
  }

  lemma CollidingKeys(x: DirMetrics, y: DirMetrics)
    requires x.labels == DirLabels("x", "a", "b/c") && y.labels == DirLabels("x/a", "b", "c")
    ensures DirKey()(x) == DirKey()(y) && x.labels != y.labels
  {
    assert DirKey()(x) == "x/a/b/c" && DirKey()(y) == "x/a/b/c";
    assert |x.labels.base| == 1 && |y.labels.base| == 3;
  }

  lemma TwoEntries(tree: Tree, t1: Target, t2: Target)
    ensures AllEntries(tree, [t1, t2]) == TargetResult(tree, t1).0 + TargetResult(tree, t2).0
  {
    var rest := TargetResult(tree, t2).0;
    assert AllEntries(tree, []) == [] && rest + [] == rest;
    assert [t2][1..] == [] && AllEntries(tree, [t2]) == rest;
    assert [t1, t2][1..] == [t2];
  }

  lemma CollidingTargets(tree: Tree, base1: string, base2: string)
    ensures var watched := AllEntries(tree, [ListedTarget(base1, "x", "a/b/c"), ListedTarget(base2, "x/a", "b/c")]);
            && |watched| == 2 && watched[0].labels == DirLabels("x", "a", "b/c")
            && watched[1].labels == DirLabels("x/a", "b", "c")
  {
    JoinedNames();
    ListedEntry(tree, base1, "x", ["a", "b", "c"]);
    ListedEntry(tree, base2, "x/a", ["b", "c"]);
    TwoEntries(tree, ListedTarget(base1, "x", "a/b/c"), ListedTarget(base2, "x/a", "b/c"));
  }

  /** Two targets may watch directories with distinct labels whose sort keys coincide: label
      "x" with directory a/b/c, and label "x/a" with directory b/c. The text of such a cache does
      depend on map order. */
  lemma TwoTargetsCollide(f: Formats, tree: Tree, base1: string, base2: string, snap: CacheSnapshot)
    requires FormatsOk(f) && snap.ready
    requires var watched := AllEntries(tree, [ListedTarget(base1, "x", "a/b/c"), ListedTarget(base2, "x/a", "b/c")]);
             forall i :: 0 <= i < |watched| ==> exists e :: e in snap.entries && e.labels == watched[i].labels
    ensures !TextFixed(f, snap)
  {
    var watched := AllEntries(tree, [ListedTarget(base1, "x", "a/b/c"), ListedTarget(base2, "x/a", "b/c")]);
    CollidingTargets(tree, base1, base2);
    var x :| x in snap.entries && x.labels == watched[0].labels;
    var y :| y in snap.entries && y.labels == watched[1].labels;
    CollidingKeys(x, y);
    DirPairsDiffer(x.labels, y.labels);
    SamplesByLine(f, snap);
    SharedKeyShows(f, snap, x, y, FileCount, CountLine(f));
  }

  lemma JoinedNames()
    ensures Join(["a", "b", "c"], '/') == "a/b/c" && Join(["b", "c"], '/') == "b/c" && Join(["c"], '/') == "c"
    ensures ["a", "b", "c"][1..] == ["b", "c"] && ["b", "c"][1..] == ["c"]
    ensures GoodNames(["a", "b", "c"]) && GoodNames(["b", "c"])
  {
    assert ["a", "b", "c"][1..] == ["b", "c"] && ["b", "c"][1..] == ["c"];
  }

  /** Two targets with one label may watch the same relative directory below different bases: equal
      labels, and a text that depends on map order as soon as their counts print differently. */
  lemma OneLabelTwoBases(
      f: Formats, tree: Tree, base1: string, base2: string, snap: CacheSnapshot, x: DirMetrics, y: DirMetrics)
    requires FormatsOk(f) && snap.ready && x in snap.entries && y in snap.entries
    requires var watched := AllEntries(tree, [ListedTarget(base1, "x", "a"), ListedTarget(base2, "x", "a")]);
             forall i :: 0 <= i < |watched| ==> x.labels == watched[i].labels && y.labels == watched[i].labels
    requires f.count(x.fileCount) != f.count(y.fileCount)
    ensures !TextFixed(f, snap)
  {
    assert Join(["a"], '/') == "a" && GoodNames(["a"]);
    ListedEntry(tree, base1, "x", ["a"]);
    ListedEntry(tree, base2, "x", ["a"]);
    TwoEntries(tree, ListedTarget(base1, "x", "a"), ListedTarget(base2, "x", "a"));
    var watched := AllEntries(tree, [ListedTarget(base1, "x", "a"), ListedTarget(base2, "x", "a")]);
    assert |watched| == 2 && x.labels == watched[0].labels && y.labels == watched[0].labels;
    SamplesByLine(f, snap);
    SharedKeyShows(f, snap, x, y, FileCount, CountLine(f));
  }

  // ---- one target, no series twice -------------------------------------------------------------------------

  lemma KeysTellLabels(snap: CacheSnapshot)
    requires DistinctBy(snap.entries, DirKey()) && NodeKeysDistinct(snap)
    ensures DistinctLabels(snap)
  {
    forall i, j | 0 <= i < j < |snap.entries| ensures LabelsKey()(snap.entries[i]) != LabelsKey()(snap.entries[j]) {
      assert DirKey()(snap.entries[i]) != DirKey()(snap.entries[j]);
    }
    forall i, j | 0 <= i < j < |snap.nodeActivities|
      ensures NodeId()(snap.nodeActivities[i]) != NodeId()(snap.nodeActivities[j])
    {
      assert ActKey()(snap.nodeActivities[i]) != ActKey()(snap.nodeActivities[j]);
    }
    forall i, j | 0 <= i < j < |snap.nodeBuffers| ensures BufferId()(snap.nodeBuffers[i]) != BufferId()(snap.nodeBuffers[j]) {
      assert BufKey()(snap.nodeBuffers[i]) != BufKey()(snap.nodeBuffers[j]);
    }
  }

  /** With one target no series is written twice. */
  lemma OneTargetUniqueSeries(
      f: Formats, tree: Tree, t: Target, snap: CacheSnapshot,
      entries: map<string, DirMetrics>, acts: map<string, NodeActivity>, bufs: map<string, NodeBuffer>,
      es: seq<DirMetrics>, as_: seq<NodeActivity>, bs: seq<NodeBuffer>)
    requires NamesOk(f) && snap.ready && Stored(snap.nodeActivities)
    requires Protocol.ScannedFor(entries, TargetResult(tree, t).0)
    requires forall k :: k in acts ==> ActKey()(acts[k]) == k
    requires forall k :: k in bufs ==> BufKey()(bufs[k]) == k
    requires SnapshotOf(snap, entries, acts, bufs) && SortedLists(snap, es, as_, bs)
    ensures Unique(Document(f, snap, es, as_, bs))
  {
    TargetKeysDistinct(tree, t, entries, snap.entries);
    KeyedListing(acts, snap.nodeActivities, ActKey());
    KeyedListing(bufs, snap.nodeBuffers, BufKey());
    KeysTellLabels(snap);
    UniqueSeriesIff(f, snap, es, as_, bs);
  }
}
