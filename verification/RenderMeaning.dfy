/** Headers and order of a rendered document, told by the snapshot alone. */
module RenderMeaning {
  import opened Wrappers
  import opened Text
  import opened Records
  import opened Selection
  import opened CacheStore
  import opened Exposition
  import Sorting
  import opened Render
  import opened RenderTheorems
  import opened RenderContent

  // ---- which families -------------------------------------------------------------------------------

  predicate SomeNode(acts: seq<NodeActivity>, nodeType: string) {
    exists a :: a in acts && a.nodeType == nodeType && a.success
  }

  predicate SomeFile(acts: seq<NodeActivity>) {
    exists a :: a in acts && a.success && a.lastFile != "" && a.lastFile != "-"
  }

  /** The families of a snapshot: readiness always, the others once a scan is done and there is
      something to tell. */
  predicate HasFamily(snap: CacheSnapshot, m: Metric) {
    if m.CacheReady? then true
    else
      snap.ready &&
      match m
      case CollectorLast => SomeNode(snap.nodeActivities, "collector")
      case CollectorDelay => SomeNode(snap.nodeActivities, "collector")
      case DistributorLast => SomeNode(snap.nodeActivities, "distributor")
      case DistributorDelay => SomeNode(snap.nodeActivities, "distributor")
      case LastFile => SomeFile(snap.nodeActivities)
      case BufferFiles => snap.nodeBuffers != []
      case FileCount => snap.entries != []
      case OldestFile => snap.entries != []
      case NewestFile => snap.entries != []
      case ScanDuration => snap.entries != []
      case _ => true
  }

  lemma SameNodes(acts: seq<NodeActivity>, all: seq<NodeActivity>, nodeType: string)
    requires multiset(acts) == multiset(all)
    ensures AnyNode(acts, nodeType) <==> SomeNode(all, nodeType)
    ensures AnyFile(acts) <==> SomeFile(all)
  {
    Sorting.SameMembers(acts, all);
    if AnyNode(acts, nodeType) {
      var i :| 0 <= i < |acts| && acts[i].nodeType == nodeType && acts[i].success;
      assert acts[i] in all;
    }
    if a :| a in all && a.nodeType == nodeType && a.success {
      var i :| 0 <= i < |acts| && acts[i] == a;
    }
    if AnyFile(acts) {
      var i :| 0 <= i < |acts| && HasFile(acts[i]);
      assert acts[i] in all;
    }
    if a :| a in all && a.success && a.lastFile != "" && a.lastFile != "-" {
      var i :| 0 <= i < |acts| && acts[i] == a;
    }
  }

  lemma ControlPresent(f: Formats, snap: CacheSnapshot, m: Metric)
    ensures Present(ControlFamilies(f, snap), m) <==> 1 <= Place(m) < 5
  {
    if 1 <= Place(m) < 5 {
      PresentAt(ControlFamilies(f, snap), Place(m) - 1);
    }
  }

  lemma OnePresent(fam: Family, m: Metric)
    ensures Present([fam], m) <==> m == fam.metric
  {
    PresentAt([fam], 0);
  }

  lemma BuffersPresent(f: Formats, bufs: seq<NodeBuffer>, m: Metric)
    ensures Present(BufferFamilies(f, bufs), m) <==> bufs != [] && m.BufferFiles?
  {
    OnePresent(Family(BufferFiles, Each(bufs, BufferLine(f))), m);
  }

  lemma FilesPresent(f: Formats, acts: seq<NodeActivity>, m: Metric)
    ensures Present(FileFamilies(f, acts), m) <==> AnyFile(acts) && m.LastFile?
  {
    OnePresent(Family(LastFile, Each(acts, InfoLine(f))), m);
  }

  lemma TwoPresent(a: Family, b: Family, m: Metric)
    ensures Present([a, b], m) <==> m == a.metric || m == b.metric
  {
    PresentAt([a, b], 0);
    PresentAt([a, b], 1);
  }

  lemma NodesPresent(f: Formats, acts: seq<NodeActivity>, nodeType: string, last: Metric, delay: Metric, m: Metric)
    ensures Present(NodeFamilies(f, acts, nodeType, last, delay), m)
            <==> AnyNode(acts, nodeType) && (m == last || m == delay)
  {
    TwoPresent(Family(last, Each(acts, LastLine(f, nodeType, last))),
               Family(delay, Each(acts, DelayLine(f, nodeType, delay))), m);
  }

  lemma ActivitiesPresent(f: Formats, acts: seq<NodeActivity>, m: Metric)
    ensures Present(ActivityFamilies(f, acts), m)
            <==> || (AnyNode(acts, "collector") && (m.CollectorLast? || m.CollectorDelay?))
                 || (AnyNode(acts, "distributor") && (m.DistributorLast? || m.DistributorDelay?))
                 || (AnyFile(acts) && m.LastFile?)
  {
    var collectors := NodeFamilies(f, acts, "collector", CollectorLast, CollectorDelay);
    var distributors := NodeFamilies(f, acts, "distributor", DistributorLast, DistributorDelay);
    NodesPresent(f, acts, "collector", CollectorLast, CollectorDelay, m);
    NodesPresent(f, acts, "distributor", DistributorLast, DistributorDelay, m);
    FilesPresent(f, acts, m);
    PresentConcat(distributors, FileFamilies(f, acts), m);
    PresentConcat(collectors, distributors + FileFamilies(f, acts), m);
  }

  lemma PresentInFive(
      ready: seq<Family>, control: seq<Family>, dirs: seq<Family>, nodes: seq<Family>, buffers: seq<Family>, m: Metric)
    ensures Present(ready + (control + (dirs + (nodes + buffers))), m)
            <==> Present(ready, m) || Present(control, m) || Present(dirs, m) || Present(nodes, m) || Present(buffers, m)
  {
    PresentConcat(nodes, buffers, m);
    PresentConcat(dirs, nodes + buffers, m);
    PresentConcat(control, dirs + (nodes + buffers), m);
    PresentConcat(ready, control + (dirs + (nodes + buffers)), m);
  }

  lemma SameLists(snap: CacheSnapshot, es: seq<DirMetrics>, acts: seq<NodeActivity>, bufs: seq<NodeBuffer>)
    requires SortedLists(snap, es, acts, bufs)
    ensures (es == [] <==> snap.entries == []) && (bufs == [] <==> snap.nodeBuffers == [])
    ensures AnyNode(acts, "collector") <==> SomeNode(snap.nodeActivities, "collector")
    ensures AnyNode(acts, "distributor") <==> SomeNode(snap.nodeActivities, "distributor")
    ensures AnyFile(acts) <==> SomeFile(snap.nodeActivities)
  {
    SameNodes(acts, snap.nodeActivities, "collector");
    SameNodes(acts, snap.nodeActivities, "distributor");
    Sorting.SameMembers(es, snap.entries);
    Sorting.SameMembers(bufs, snap.nodeBuffers);
  }

  lemma FamiliesPresent(
      f: Formats, snap: CacheSnapshot, es: seq<DirMetrics>, acts: seq<NodeActivity>, bufs: seq<NodeBuffer>, m: Metric)
    requires SortedLists(snap, es, acts, bufs)
    ensures Present(Families(f, snap, es, acts, bufs), m) <==> HasFamily(snap, m)
  {
    var ready := Plain(f, CacheReady, f.gauge(if snap.ready then 1 else 0));
    OnePresent(ready, m);
    if snap.ready {
      SameLists(snap, es, acts, bufs);
      ControlPresent(f, snap, m);
      DirectoriesPresent(f, es, m);
      ActivitiesPresent(f, acts, m);
      BuffersPresent(f, bufs, m);
      PresentInFive([ready], ControlFamilies(f, snap), DirectoryFamilies(f, es), ActivityFamilies(f, acts),
                    BufferFamilies(f, bufs), m);
    }
  }

  // ---- their headers ------------------------------------------------------------------------------------

  lemma {:induction false} HeaderIn(f: Formats, fams: seq<Family>, l: Line)
    requires !l.Sample? && forall i :: 0 <= i < |fams| ==> Own(f, fams[i])
    ensures l in AllLines(f, fams)
            <==> exists i :: 0 <= i < |fams| && (l == Help(f.name(fams[i].metric), f.text(fams[i].metric))
                                                 || l == Type(f.name(fams[i].metric), Kind(fams[i].metric)))
  {
    if fams != [] {
      HeaderIn(f, fams[1..], l);
      var first, rest := FamilyLines(f, fams[0]), AllLines(f, fams[1..]);
      assert l !in fams[0].samples by {
        assert Own(f, fams[0]);
      }
      assert l in first + rest <==> l in first || l in rest;
      if i :| 0 <= i < |fams| && (l == Help(f.name(fams[i].metric), f.text(fams[i].metric))
                                  || l == Type(f.name(fams[i].metric), Kind(fams[i].metric))) {
        assert i > 0 ==> fams[1..][i - 1] == fams[i];
      }
      if i :| 0 <= i < |fams[1..]| && (l == Help(f.name(fams[1..][i].metric), f.text(fams[1..][i].metric))
                                       || l == Type(f.name(fams[1..][i].metric), Kind(fams[1..][i].metric))) {
        assert fams[i + 1] == fams[1..][i];
      }
    }
  }

  lemma HeadersOf(f: Formats, fams: seq<Family>, m: Metric, text: string, kind: string)
    requires NamesOk(f) && forall i :: 0 <= i < |fams| ==> Own(f, fams[i])
    ensures Help(f.name(m), text) in AllLines(f, fams) <==> Present(fams, m) && text == f.text(m)
    ensures Type(f.name(m), kind) in AllLines(f, fams) <==> Present(fams, m) && kind == Kind(m)
  {
    HeaderIn(f, fams, Help(f.name(m), text));
    HeaderIn(f, fams, Type(f.name(m), kind));
  }

  lemma HeadersSay(f: Formats, fams: seq<Family>, snap: CacheSnapshot, m: Metric, text: string, kind: string)
    requires NamesOk(f) && WellFormed(f, fams) && (Present(fams, m) <==> HasFamily(snap, m))
    ensures Help(f.name(m), text) in AllLines(f, fams) <==> HasFamily(snap, m) && text == f.text(m)
    ensures Type(f.name(m), kind) in AllLines(f, fams)
            <==> HasFamily(snap, m) && kind == (if m in {ScanErrors, ReloadTotal} then "counter" else "gauge")
  {
    HeadersOf(f, fams, m, text, kind);
  }

  /** A family that is there has its help text and its type: the two totals of errors and reloads are
      counters, all others gauges. A family that is not has no header. */
  lemma HeaderMeaning(
      f: Formats, snap: CacheSnapshot, es: seq<DirMetrics>, acts: seq<NodeActivity>, bufs: seq<NodeBuffer>,
      m: Metric, text: string, kind: string)
    requires NamesOk(f) && SortedLists(snap, es, acts, bufs)
    ensures Help(f.name(m), text) in Document(f, snap, es, acts, bufs) <==> HasFamily(snap, m) && text == f.text(m)
    ensures Type(f.name(m), kind) in Document(f, snap, es, acts, bufs)
            <==> HasFamily(snap, m) && kind == (if m in {ScanErrors, ReloadTotal} then "counter" else "gauge")
  {
    DocumentWellFormed(f, snap, es, acts, bufs);
    FamiliesPresent(f, snap, es, acts, bufs, m);
    HeadersSay(f, Families(f, snap, es, acts, bufs), snap, m, text, kind);
  }

  // ---- in which order --------------------------------------------------------------------------------------

  function Prints<T>(xs: seq<T>, line: T -> Option<Line>): nat -> bool {
    (k: nat) => k < |xs| && line(xs[k]).Some?
  }

  /** A loop prints the lines of its records in their order. */
  lemma {:induction false} EachInOrder<T>(xs: seq<T>, line: T -> Option<Line>) returns (ks: seq<nat>)
    ensures Selects(ks, |xs|, Prints(xs, line)) && InRange(ks, |xs|)
    ensures |Each(xs, line)| == |ks| && forall i :: 0 <= i < |ks| ==> line(xs[ks[i]]) == Some(Each(xs, line)[i])
  {
    ks := [];
    if xs != [] {
      var rest := EachInOrder(xs[1..], line);
      ks := From(line(xs[0]).Some?, rest);
      FromSelects(rest, |xs| - 1, Prints(xs[1..], line), Prints(xs, line));
      FromAt(line(xs[0]).Some?, xs[0], xs[1..], rest);
      assert [xs[0]] + xs[1..] == xs;
      var all := Each(xs, line);
      forall i | 0 <= i < |ks| ensures line(xs[ks[i]]) == Some(all[i]) {
        var first := if line(xs[0]).Some? then 1 else 0;
        if i >= first {
          assert ks[i] == rest[i - first] + 1 && all[i] == Each(xs[1..], line)[i - first];
        }
      }
    }
  }

  /** The lists are printed in ascending order of their labels joined by slashes. */
  lemma ListsAscend(snap: CacheSnapshot, es: seq<DirMetrics>, acts: seq<NodeActivity>, bufs: seq<NodeBuffer>)
    requires SortedLists(snap, es, acts, bufs)
    ensures forall i, j :: 0 <= i < j < |es| ==>
              !Less(es[j].labels.base + "/" + es[j].labels.stream + "/" + es[j].labels.kind,
                    es[i].labels.base + "/" + es[i].labels.stream + "/" + es[i].labels.kind)
    ensures forall i, j :: 0 <= i < j < |acts| ==>
              !Less(acts[j].base + "/" + acts[j].stream + "/" + acts[j].node + "/" + acts[j].nodeType,
                    acts[i].base + "/" + acts[i].stream + "/" + acts[i].node + "/" + acts[i].nodeType)
    ensures forall i, j :: 0 <= i < j < |bufs| ==>
              !Less(bufs[j].base + "/" + bufs[j].stream + "/" + bufs[j].node + "/" + bufs[j].nodeType,
                    bufs[i].base + "/" + bufs[i].stream + "/" + bufs[i].node + "/" + bufs[i].nodeType)
  {
    forall i, j | 0 <= i < j < |es| ensures !Less(DirKey()(es[j]), DirKey()(es[i])) {
      assert !Sorting.ByKey(DirKey())(es[j], es[i]);
    }
    forall i, j | 0 <= i < j < |acts| ensures !Less(ActKey()(acts[j]), ActKey()(acts[i])) {
      assert !Sorting.ByKey(ActKey())(acts[j], acts[i]);
    }
    forall i, j | 0 <= i < j < |bufs| ensures !Less(BufKey()(bufs[j]), BufKey()(bufs[i])) {
      assert !Sorting.ByKey(BufKey())(bufs[j], bufs[i]);
    }
  }

  lemma {:induction false} BlockOf(f: Formats, fams: seq<Family>, i: nat)
    requires i < |fams|
    ensures AllLines(f, fams)
            == AllLines(f, fams[..i]) + FamilyLines(f, fams[i]) + AllLines(f, fams[i + 1..])
  {
    LinesConcat(f, fams[..i], fams[i..]);
    assert fams[..i] + fams[i..] == fams;
    assert fams[i..][0] == fams[i] && fams[i..][1..] == fams[i + 1..];
    ConcatAssociates(AllLines(f, fams[..i]), FamilyLines(f, fams[i]), AllLines(f, fams[i + 1..]));
  }

  lemma FamilyBlock(f: Formats, fams: seq<Family>, m: Metric, samples: Metric -> seq<Line>, lines: seq<Line>)
    returns (before: seq<Line>, after: seq<Line>)
    requires Present(fams, m) && samples(m) == lines
    requires forall i :: 0 <= i < |fams| ==> fams[i].samples == samples(fams[i].metric)
    ensures AllLines(f, fams) == before + ([Help(f.name(m), f.text(m)), Type(f.name(m), Kind(m))] + lines) + after
  {
    var i :| 0 <= i < |fams| && fams[i].metric == m;
    BlockOf(f, fams, i);
    before, after := AllLines(f, fams[..i]), AllLines(f, fams[i + 1..]);
  }

  /** The file counts stand in one block under their header, one line for each directory in the order
      of the sorted list. */
  lemma FileCountsInOrder(
      f: Formats, snap: CacheSnapshot, es: seq<DirMetrics>, acts: seq<NodeActivity>, bufs: seq<NodeBuffer>)
    returns (before: seq<Line>, lines: seq<Line>, after: seq<Line>)
    requires SortedLists(snap, es, acts, bufs) && snap.ready && es != []
    ensures Document(f, snap, es, acts, bufs)
            == before + ([Help(f.name(FileCount), f.text(FileCount)), Type(f.name(FileCount), "gauge")] + lines) + after
    ensures |lines| == |es|
    ensures forall i :: 0 <= i < |es| ==>
              && lines[i].Sample? && lines[i].metric == f.name(FileCount)
              && DirectoryLabels(lines[i].labels, es[i].labels) && lines[i].value == f.count(es[i].fileCount)
  {
    SameLists(snap, es, acts, bufs);
    FamiliesPresent(f, snap, es, acts, bufs, FileCount);
    DocumentCovers(f, snap, es, acts, bufs);
    lines := Each(es, CountLine(f));
    before, after := FamilyBlock(f, Families(f, snap, es, acts, bufs), FileCount, SamplesIn(f, snap, es, acts, bufs), lines);
    CountLines(f, es);
  }

  lemma {:induction false} CountLines(f: Formats, es: seq<DirMetrics>)
    ensures var lines := Each(es, CountLine(f));
            |lines| == |es| && forall i :: 0 <= i < |es| ==>
              && lines[i].Sample? && lines[i].metric == f.name(FileCount)
              && DirectoryLabels(lines[i].labels, es[i].labels) && lines[i].value == f.count(es[i].fileCount)
  {
    if es != [] {
      CountLines(f, es[1..]);
      var lines, later := Each(es, CountLine(f)), Each(es[1..], CountLine(f));
      assert lines == [CountSample(f, es[0]).value] + later;
      assert forall i :: 1 <= i < |es| ==> es[i] == es[1..][i - 1];
    }
  }
}
