/** Stream nodes (activity.go): their discovery, and the keyed fan-out of their activities. */
module Nodes {
  import opened Wrappers
  import opened Paths
  import opened FileSystem
  import opened Records
  import opened Targets
  import opened NodeKeys

  /** detectNodeType, a function of the node's directory and name. */
  type Detector = (string, string) -> string

  // ---- the nodes on disk ---------------------------------------------------------------------

  predicate IsNodeDir(d: DirEntry) {
    d.isDir && !("mail" <= d.name) && !("rap_import" <= d.name)
  }

  function NodeAt(detect: Detector, baseLabel: string, stream: string, nodesDir: string, name: string): StreamNode {
    var dir := JoinPath(nodesDir, name);
    StreamNode(baseLabel, stream, name, dir, detect(dir, name))
  }

  function NodesIn(detect: Detector, baseLabel: string, stream: string, nodesDir: string, list: seq<DirEntry>)
    : seq<StreamNode>
  {
    if list == [] then []
    else
      (if IsNodeDir(list[0]) then [NodeAt(detect, baseLabel, stream, nodesDir, list[0].name)] else [])
      + NodesIn(detect, baseLabel, stream, nodesDir, list[1..])
  }

  /** The nodes of one entry below a target's base: those under its nodes directory. */
  function NodesOfStream(tree: Tree, detect: Detector, base: string, baseLabel: string, d: DirEntry): seq<StreamNode> {
    var nodesDir := Clean(base + "/" + d.name + "/nodes");
    if !d.isDir || tree.stat(nodesDir) != Some(true) then []
    else
      match tree.readDir(nodesDir)
      case None => []
      case Some(list) => NodesIn(detect, baseLabel, d.name, nodesDir, list)
  }

  function NodesOfStreams(tree: Tree, detect: Detector, base: string, baseLabel: string, list: seq<DirEntry>)
    : seq<StreamNode>
  {
    if list == [] then []
    else NodesOfStream(tree, detect, base, baseLabel, list[0]) + NodesOfStreams(tree, detect, base, baseLabel, list[1..])
  }

  function NodesOfTarget(tree: Tree, detect: Detector, t: Target): seq<StreamNode> {
    var base := Clean(t.base);
    match tree.readDir(base)
    case None => []
    case Some(list) => NodesOfStreams(tree, detect, base, LabelFor(t), list)
  }

  /** Every node directory of every target, in the order the loops meet them. */
  function Candidates(tree: Tree, detect: Detector, targets: seq<Target>): seq<StreamNode> {
    if targets == [] then [] else NodesOfTarget(tree, detect, targets[0]) + Candidates(tree, detect, targets[1..])
  }

  function KeyOf(n: StreamNode): string {
    NodeKey(n.base, n.stream, n.node)
  }

  function Keys(nodes: seq<StreamNode>): set<string> {
    set n | n in nodes :: KeyOf(n)
  }

  /** The nodes whose key is new, in order. */
  function Fresh(nodes: seq<StreamNode>, seen: set<string>): seq<StreamNode>
    decreases |nodes|
  {
    if nodes == [] then []
    else if KeyOf(nodes[0]) in seen then Fresh(nodes[1..], seen)
    else [nodes[0]] + Fresh(nodes[1..], seen + {KeyOf(nodes[0])})
  }

  lemma {:induction false} FreshConcat(a: seq<StreamNode>, b: seq<StreamNode>, seen: set<string>)
    ensures Fresh(a + b, seen) == Fresh(a, seen) + Fresh(b, seen + Keys(a))
    decreases |a|
  {
    if a == [] {
      assert a + b == b && seen + Keys(a) == seen;
    } else {
      assert (a + b)[1..] == a[1..] + b;
      assert a == [a[0]] + a[1..];
      var k := KeyOf(a[0]);
      assert Keys(a) == {k} + Keys(a[1..]);
      if k in seen {
        FreshConcat(a[1..], b, seen);
        assert seen + Keys(a) == seen + Keys(a[1..]);
      } else {
        FreshConcat(a[1..], b, seen + {k});
        assert seen + Keys(a) == seen + {k} + Keys(a[1..]);
      }
    }
  }

  // ---- the discovery loops -----------------------------------------------------------------------

  /** DiscoverStreamNodes with the two variables its loops share. */
  class Finder {
    const tree: Tree
    const detect: Detector
    var nodes: seq<StreamNode>
    var seen: set<string>

    constructor (tree: Tree, detect: Detector)
      ensures this.tree == tree && this.detect == detect && nodes == [] && seen == {}
    {
      this.tree := tree;
      this.detect := detect;
      nodes, seen := [], {};
    }

    /** The effect of meeting some candidates, against the state before. */
    twostate predicate Met(candidates: seq<StreamNode>)
      reads this
    {
      nodes == old(nodes) + Fresh(candidates, old(seen)) && seen == old(seen) + Keys(candidates)
    }

    method VisitNode(baseLabel: string, stream: string, nodesDir: string, name: string)
      modifies this`nodes, this`seen
      ensures Met([NodeAt(detect, baseLabel, stream, nodesDir, name)])
    {
      var nodeDir := JoinPath(nodesDir, name);
      var key := baseLabel + "/" + stream + "/" + name;
      var n := StreamNode(baseLabel, stream, name, nodeDir, detect(nodeDir, name));
      MetOne(n, seen);
      if key in seen {
        return;
      }
      seen := seen + {key};
      nodes := nodes + [n];
    }

    method VisitNodes(baseLabel: string, stream: string, nodesDir: string, list: seq<DirEntry>)
      modifies this`nodes, this`seen
      ensures Met(NodesIn(detect, baseLabel, stream, nodesDir, list))
    {
      ghost var all := NodesIn(detect, baseLabel, stream, nodesDir, list);
      assert list[0..] == list;
      for i := 0 to |list|
        invariant nodes + Fresh(NodesIn(detect, baseLabel, stream, nodesDir, list[i..]), seen)
                  == old(nodes) + Fresh(all, old(seen))
        invariant seen + Keys(NodesIn(detect, baseLabel, stream, nodesDir, list[i..])) == old(seen) + Keys(all)
      {
        assert list[i..][0] == list[i] && list[i..][1..] == list[i + 1..];
        ghost var later := NodesIn(detect, baseLabel, stream, nodesDir, list[i + 1..]);
        if !IsNodeDir(list[i]) {
          assert [] + later == later;
          continue;
        }
        ghost var n := NodeAt(detect, baseLabel, stream, nodesDir, list[i].name);
        MeetNext(nodes, seen, [n], later);
        VisitNode(baseLabel, stream, nodesDir, list[i].name);
      }
      MetNothing(nodes, seen);
    }

    method VisitStream(base: string, baseLabel: string, d: DirEntry)
      modifies this`nodes, this`seen
      ensures Met(NodesOfStream(tree, detect, base, baseLabel, d))
    {
      MetNothing(nodes, seen);
      if !d.isDir {
        return;
      }
      var nodesDir := Clean(base + "/" + d.name + "/nodes");
      if tree.stat(nodesDir) != Some(true) {
        return;
      }
      match tree.readDir(nodesDir)
      case None =>
      case Some(list) => VisitNodes(baseLabel, d.name, nodesDir, list);
    }

    method VisitTarget(t: Target)
      modifies this`nodes, this`seen
      ensures Met(NodesOfTarget(tree, detect, t))
    {
      var base := Clean(t.base);
      var baseLabel := t.baseLabel;
      if baseLabel == "" {
        baseLabel := base;
      }
      MetNothing(nodes, seen);
      match tree.readDir(base)
      case None =>
      case Some(list) =>
        VisitStreams(base, baseLabel, list);
    }

    method VisitStreams(base: string, baseLabel: string, list: seq<DirEntry>)
      modifies this`nodes, this`seen
      ensures Met(NodesOfStreams(tree, detect, base, baseLabel, list))
    {
      ghost var all := NodesOfStreams(tree, detect, base, baseLabel, list);
      assert list[0..] == list;
      for i := 0 to |list|
        invariant nodes + Fresh(NodesOfStreams(tree, detect, base, baseLabel, list[i..]), seen)
                  == old(nodes) + Fresh(all, old(seen))
        invariant seen + Keys(NodesOfStreams(tree, detect, base, baseLabel, list[i..])) == old(seen) + Keys(all)
      {
        StreamsUnfold(tree, detect, base, baseLabel, list, i);
        MeetNext(nodes, seen, NodesOfStream(tree, detect, base, baseLabel, list[i]),
                 NodesOfStreams(tree, detect, base, baseLabel, list[i + 1..]));
        VisitStream(base, baseLabel, list[i]);
      }
      MetNothing(nodes, seen);
    }

    method VisitTargets(targets: seq<Target>)
      modifies this`nodes, this`seen
      ensures Met(Candidates(tree, detect, targets))
    {
      ghost var all := Candidates(tree, detect, targets);
      assert targets[0..] == targets;
      for i := 0 to |targets|
        invariant nodes + Fresh(Candidates(tree, detect, targets[i..]), seen) == old(nodes) + Fresh(all, old(seen))
        invariant seen + Keys(Candidates(tree, detect, targets[i..])) == old(seen) + Keys(all)
      {
        TargetsUnfold(tree, detect, targets, i);
        MeetNext(nodes, seen, NodesOfTarget(tree, detect, targets[i]), Candidates(tree, detect, targets[i + 1..]));
        VisitTarget(targets[i]);
      }
      MetNothing(nodes, seen);
    }
  }

  lemma StreamsUnfold(tree: Tree, detect: Detector, base: string, baseLabel: string, list: seq<DirEntry>, i: nat)
    requires i < |list|
    ensures NodesOfStreams(tree, detect, base, baseLabel, list[i..])
            == NodesOfStream(tree, detect, base, baseLabel, list[i])
               + NodesOfStreams(tree, detect, base, baseLabel, list[i + 1..])
  {
    assert list[i..][0] == list[i] && list[i..][1..] == list[i + 1..];
  }

  lemma TargetsUnfold(tree: Tree, detect: Detector, targets: seq<Target>, i: nat)
    requires i < |targets|
    ensures Candidates(tree, detect, targets[i..])
            == NodesOfTarget(tree, detect, targets[i]) + Candidates(tree, detect, targets[i + 1..])
  {
    assert targets[i..][0] == targets[i] && targets[i..][1..] == targets[i + 1..];
  }

  lemma MetNothing(nodes: seq<StreamNode>, seen: set<string>)
    ensures nodes + Fresh([], seen) == nodes && seen + Keys([]) == seen
  {
  }

  lemma MetOne(n: StreamNode, seen: set<string>)
    ensures Keys([n]) == {KeyOf(n)}
    ensures Fresh([n], seen) == if KeyOf(n) in seen then [] else [n]
  {
    assert n in [n];
    assert Fresh([n][1..], seen + {KeyOf(n)}) == [];
  }

  lemma MeetNext(nodes: seq<StreamNode>, seen: set<string>, here: seq<StreamNode>, later: seq<StreamNode>)
    ensures nodes + Fresh(here + later, seen) == (nodes + Fresh(here, seen)) + Fresh(later, seen + Keys(here))
    ensures seen + Keys(here + later) == (seen + Keys(here)) + Keys(later)
  {
    FreshConcat(here, later, seen);
  }

  /** DiscoverStreamNodes: each node directory once, in the order met. */
  method DiscoverStreamNodes(tree: Tree, detect: Detector, targets: seq<Target>) returns (nodes: seq<StreamNode>)
    ensures nodes == Fresh(Candidates(tree, detect, targets), {})
  {
    var f := new Finder(tree, detect);
    f.VisitTargets(targets);
    nodes := f.nodes;
  }

  // ---- seen drops only true duplicates -----------------------------------------------------------------

  predicate SlashFree(n: StreamNode) {
    '/' !in n.stream && '/' !in n.node
  }

  function Triple(n: StreamNode): (string, string, string) {
    (n.base, n.stream, n.node)
  }

  lemma {:induction false} NodesInSlashFree(
      detect: Detector, baseLabel: string, stream: string, nodesDir: string, list: seq<DirEntry>)
    requires ValidListing(list) && '/' !in stream
    ensures forall n :: n in NodesIn(detect, baseLabel, stream, nodesDir, list) ==> SlashFree(n)
  {
    if list != [] {
      NodesInSlashFree(detect, baseLabel, stream, nodesDir, list[1..]);
    }
  }

  lemma {:induction false} StreamsSlashFree(
      tree: Tree, detect: Detector, base: string, baseLabel: string, list: seq<DirEntry>)
    requires ValidListing(list)
    ensures forall n :: n in NodesOfStreams(tree, detect, base, baseLabel, list) ==> SlashFree(n)
  {
    if list != [] {
      var nodesDir := Clean(base + "/" + list[0].name + "/nodes");
      var inner := tree.readDir(nodesDir);
      if inner.Some? {
        NodesInSlashFree(detect, baseLabel, list[0].name, nodesDir, inner.value);
      }
      StreamsSlashFree(tree, detect, base, baseLabel, list[1..]);
    }
  }

  lemma {:induction false} CandidatesSlashFree(tree: Tree, detect: Detector, targets: seq<Target>)
    ensures forall n :: n in Candidates(tree, detect, targets) ==> SlashFree(n)
  {
    if targets != [] {
      var t := targets[0];
      var base := Clean(t.base);
      var list := tree.readDir(base);
      if list.Some? {
        StreamsSlashFree(tree, detect, base, LabelFor(t), list.value);
      }
      CandidatesSlashFree(tree, detect, targets[1..]);
    }
  }

  lemma {:induction false} FreshAreNew(nodes: seq<StreamNode>, seen: set<string>, n: StreamNode)
    requires n in Fresh(nodes, seen)
    ensures n in nodes && KeyOf(n) !in seen
    decreases |nodes|
  {
    var k := KeyOf(nodes[0]);
    if k in seen {
      FreshAreNew(nodes[1..], seen, n);
    } else if n != nodes[0] {
      FreshAreNew(nodes[1..], seen + {k}, n);
    }
  }

  predicate KeysDiffer(nodes: seq<StreamNode>) {
    forall i, j :: 0 <= i < j < |nodes| ==> KeyOf(nodes[i]) != KeyOf(nodes[j])
  }

  lemma {:induction false} FreshDiffer(nodes: seq<StreamNode>, seen: set<string>)
    ensures KeysDiffer(Fresh(nodes, seen))
    decreases |nodes|
  {
    if nodes != [] {
      var k := KeyOf(nodes[0]);
      if k in seen {
        FreshDiffer(nodes[1..], seen);
      } else {
        var rest := Fresh(nodes[1..], seen + {k});
        FreshDiffer(nodes[1..], seen + {k});
        forall j | 0 <= j < |rest| ensures KeyOf(rest[j]) != k {
          FreshAreNew(nodes[1..], seen + {k}, rest[j]);
        }
      }
    }
  }

  lemma {:induction false} FreshRepresent(nodes: seq<StreamNode>, seen: set<string>, n: StreamNode)
    requires n in nodes && KeyOf(n) !in seen
    ensures exists m :: m in Fresh(nodes, seen) && KeyOf(m) == KeyOf(n)
    decreases |nodes|
  {
    var k := KeyOf(nodes[0]);
    if k in seen {
      FreshRepresent(nodes[1..], seen, n);
    } else if k == KeyOf(n) {
      assert nodes[0] in Fresh(nodes, seen);
    } else {
      FreshRepresent(nodes[1..], seen + {k}, n);
      var m :| m in Fresh(nodes[1..], seen + {k}) && KeyOf(m) == KeyOf(n);
      assert m in Fresh(nodes, seen);
    }
  }

  lemma Represented(tree: Tree, detect: Detector, targets: seq<Target>, n: StreamNode)
    requires n in Candidates(tree, detect, targets)
    ensures exists m :: m in Fresh(Candidates(tree, detect, targets), {}) && Triple(m) == Triple(n)
  {
    var all := Candidates(tree, detect, targets);
    FreshRepresent(all, {}, n);
    var m :| m in Fresh(all, {}) && KeyOf(m) == KeyOf(n);
    FreshAreNew(all, {}, m);
    CandidatesSlashFree(tree, detect, targets);
    assert SlashFree(m) && SlashFree(n);
    NodeKeyInjective(m.base, m.stream, m.node, n.base, n.stream, n.node);
  }

  lemma KeysDifferTriplesDiffer(nodes: seq<StreamNode>)
    requires KeysDiffer(nodes) && forall n :: n in nodes ==> SlashFree(n)
    ensures ProperNodes(nodes)
  {
    forall i | 0 <= i < |nodes| ensures '/' !in nodes[i].stream && '/' !in nodes[i].node {
      assert SlashFree(nodes[i]);
    }
    forall i, j | 0 <= i < j < |nodes| ensures Triple(nodes[i]) != Triple(nodes[j]) {
      assert KeyOf(nodes[i]) != KeyOf(nodes[j]);
    }
  }

  /** The nodes discovered have slash-free names and pairwise different (label, stream, node),
      and every node directory met is represented: one is dropped only for another with the same
      label, stream and node. */
  lemma DiscoveryDropsOnlyDuplicates(tree: Tree, detect: Detector, targets: seq<Target>)
    ensures var all := Candidates(tree, detect, targets); var nodes := Fresh(all, {});
            && ProperNodes(nodes) && (forall n :: n in nodes ==> n in all)
            && (forall n :: n in all ==> exists m :: m in nodes && Triple(m) == Triple(n))
  {
    var all := Candidates(tree, detect, targets);
    var nodes := Fresh(all, {});
    CandidatesSlashFree(tree, detect, targets);
    FreshDiffer(all, {});
    forall n | n in nodes ensures n in all && SlashFree(n) {
      FreshAreNew(all, {}, n);
    }
    KeysDifferTriplesDiffer(nodes);
    forall n | n in all ensures exists m :: m in nodes && Triple(m) == Triple(n) {
      Represented(tree, detect, targets, n);
    }
  }

  // ---- when a dropped node is the same directory --------------------------------------------------------

  function DirIn(base: string, stream: string, node: string): string {
    JoinPath(Clean(base + "/" + stream + "/nodes"), node)
  }

  /** The node is the one its stream and node name stand for below the target's base. */
  predicate FoundIn(detect: Detector, n: StreamNode, t: Target) {
    n == StreamNode(LabelFor(t), n.stream, n.node, DirIn(Clean(t.base), n.stream, n.node),
                    detect(DirIn(Clean(t.base), n.stream, n.node), n.node))
  }

  lemma {:induction false} NodesInPlace(
      detect: Detector, baseLabel: string, stream: string, nodesDir: string, list: seq<DirEntry>, n: StreamNode)
    requires n in NodesIn(detect, baseLabel, stream, nodesDir, list)
    ensures n == NodeAt(detect, baseLabel, stream, nodesDir, n.node)
  {
    if n in NodesIn(detect, baseLabel, stream, nodesDir, list[1..]) {
      NodesInPlace(detect, baseLabel, stream, nodesDir, list[1..], n);
    }
  }

  lemma {:induction false} StreamsInPlace(
      tree: Tree, detect: Detector, base: string, baseLabel: string, list: seq<DirEntry>, n: StreamNode)
    requires n in NodesOfStreams(tree, detect, base, baseLabel, list)
    ensures n == NodeAt(detect, baseLabel, n.stream, Clean(base + "/" + n.stream + "/nodes"), n.node)
  {
    if n in NodesOfStream(tree, detect, base, baseLabel, list[0]) {
      var nodesDir := Clean(base + "/" + list[0].name + "/nodes");
      NodesInPlace(detect, baseLabel, list[0].name, nodesDir, tree.readDir(nodesDir).value, n);
    } else {
      StreamsInPlace(tree, detect, base, baseLabel, list[1..], n);
    }
  }

  lemma {:induction false} CandidateFound(tree: Tree, detect: Detector, targets: seq<Target>, n: StreamNode) returns (t: Target)
    requires n in Candidates(tree, detect, targets)
    ensures t in targets && FoundIn(detect, n, t)
  {
    t := targets[0];
    if n in NodesOfTarget(tree, detect, t) {
      var base := Clean(t.base);
      StreamsInPlace(tree, detect, base, LabelFor(t), tree.readDir(base).value, n);
    } else {
      t := CandidateFound(tree, detect, targets[1..], n);
    }
  }

  /** No label stands for two bases. */
  ghost predicate LabelsFixBases(targets: seq<Target>) {
    forall t, u :: t in targets && u in targets && LabelFor(t) == LabelFor(u) ==> Clean(t.base) == Clean(u.base)
  }

  lemma SameTripleSameNode(tree: Tree, detect: Detector, targets: seq<Target>, m: StreamNode, n: StreamNode)
    requires LabelsFixBases(targets) && Triple(m) == Triple(n)
    requires m in Candidates(tree, detect, targets) && n in Candidates(tree, detect, targets)
    ensures m == n
  {
    var t := CandidateFound(tree, detect, targets, m);
    var u := CandidateFound(tree, detect, targets, n);
    assert LabelFor(t) == LabelFor(u);
  }

  /** When no two targets share a label over different bases, discovery keeps every node met,
      directory and type included. */
  lemma DiscoveryKeepsEveryNode(tree: Tree, detect: Detector, targets: seq<Target>)
    requires LabelsFixBases(targets)
    ensures var all := Candidates(tree, detect, targets);
            forall n :: n in all <==> n in Fresh(all, {})
  {
    var all := Candidates(tree, detect, targets);
    forall n ensures n in all <==> n in Fresh(all, {}) {
      if n in Fresh(all, {}) {
        FreshAreNew(all, {}, n);
      }
      if n in all {
        KeptItself(tree, detect, targets, n);
      }
    }
  }

  lemma KeptItself(tree: Tree, detect: Detector, targets: seq<Target>, n: StreamNode)
    requires LabelsFixBases(targets) && n in Candidates(tree, detect, targets)
    ensures n in Fresh(Candidates(tree, detect, targets), {})
  {
    var all := Candidates(tree, detect, targets);
    Represented(tree, detect, targets, n);
    var m :| m in Fresh(all, {}) && Triple(m) == Triple(n);
    FreshAreNew(all, {}, m);
    SameTripleSameNode(tree, detect, targets, m, n);
  }

  // ---- two targets under one label ----------------------------------------------------------------------

  lemma {:induction false} CandidateOf(tree: Tree, detect: Detector, targets: seq<Target>, t: Target, n: StreamNode)
    requires t in targets && n in NodesOfTarget(tree, detect, t)
    ensures n in Candidates(tree, detect, targets)
  {
    if t != targets[0] {
      CandidateOf(tree, detect, targets[1..], t, n);
    }
  }

  const ONLY_CHILD := DirEntry("a", true, false)

  /** The nodes directory of stream a below a base. */
  function NodesDir(base: string): string {
    Clean(base + "/" + "a" + "/nodes")
  }

  /** Two bases, each with one stream a that has one node a, and nothing else listed. */
  function TwoBaseTree(base1: string, base2: string): Tree {
    var listed := {base1, base2, NodesDir(base1), NodesDir(base2)};
    Tree(path => Some(if path in listed then [ONLY_CHILD] else []), path => Some(true), path => Some(path))
  }

  lemma OnlyNode(tree: Tree, detect: Detector, t: Target)
    requires tree.readDir(Clean(t.base)) == Some([ONLY_CHILD]) && tree.stat(NodesDir(Clean(t.base))) == Some(true)
    requires tree.readDir(NodesDir(Clean(t.base))) == Some([ONLY_CHILD])
    ensures NodeAt(detect, LabelFor(t), "a", NodesDir(Clean(t.base)), "a") in NodesOfTarget(tree, detect, t)
  {
    var base, list := Clean(t.base), [ONLY_CHILD];
    var n := NodeAt(detect, LabelFor(t), "a", NodesDir(base), "a");
    assert list[1..] == [];
    assert NodesIn(detect, LabelFor(t), "a", NodesDir(base), list) == [n] + [];
    assert NodesOfStream(tree, detect, base, LabelFor(t), ONLY_CHILD) == [n];
    assert NodesOfStreams(tree, detect, base, LabelFor(t), list) == [n] + [];
  }

  function BelowNodes(c: Cleaned): Cleaned {
    Cleaned(c.rooted, c.elements + ["a"] + ["nodes"] + ["a"])
  }

  lemma NodeDirForm(base: string)
    ensures Canonical(BelowNodes(Analyse(base)))
    ensures JoinPath(NodesDir(Clean(base)), "a") == Render(BelowNodes(Analyse(base)))
  {
    var c := Analyse(base);
    AnalyseCanonical(base);
    assert Clean(base) + "/" + "a" + "/nodes" == Clean(base) + "/" + "a" + "/" + "nodes";
    CleanTwoBelow(c, "a", "nodes");
    JoinPathSnoc(Cleaned(c.rooted, c.elements + ["a"] + ["nodes"]), "a");
  }

  lemma BelowNodesInjective(c: Cleaned, d: Cleaned)
    requires BelowNodes(c) == BelowNodes(d)
    ensures c == d
  {
    assert c.elements == BelowNodes(c).elements[..|c.elements|];
    assert d.elements == BelowNodes(d).elements[..|d.elements|];
  }

  /** Node directories below different bases differ. */
  lemma NodeDirsDiffer(base1: string, base2: string)
    requires Clean(base1) != Clean(base2)
    ensures JoinPath(NodesDir(Clean(base1)), "a") != JoinPath(NodesDir(Clean(base2)), "a")
  {
    NodeDirForm(base1);
    NodeDirForm(base2);
    if JoinPath(NodesDir(Clean(base1)), "a") == JoinPath(NodesDir(Clean(base2)), "a") {
      RenderInjective(BelowNodes(Analyse(base1)), BelowNodes(Analyse(base2)));
      BelowNodesInjective(Analyse(base1), Analyse(base2));
      assert false;
    }
  }

  /** Of two different nodes with one key only one is kept. */
  lemma OneOfTwoIsDropped(all: seq<StreamNode>, m: StreamNode, n: StreamNode)
    requires m != n && KeyOf(m) == KeyOf(n)
    ensures !(m in Fresh(all, {}) && n in Fresh(all, {}))
  {
    FreshDiffer(all, {});
  }

  ghost predicate KeepsEveryNode(tree: Tree, detect: Detector, targets: seq<Target>) {
    forall n :: n in Candidates(tree, detect, targets) ==> n in Fresh(Candidates(tree, detect, targets), {})
  }

  lemma SharedLabelDrops(detect: Detector, targets: seq<Target>, t: Target, u: Target)
    requires t in targets && u in targets && LabelFor(t) == LabelFor(u) && Clean(t.base) != Clean(u.base)
    ensures !KeepsEveryNode(TwoBaseTree(Clean(t.base), Clean(u.base)), detect, targets)
  {
    var tree := TwoBaseTree(Clean(t.base), Clean(u.base));
    var m := NodeAt(detect, LabelFor(t), "a", NodesDir(Clean(t.base)), "a");
    var n := NodeAt(detect, LabelFor(u), "a", NodesDir(Clean(u.base)), "a");
    OnlyNode(tree, detect, t);
    OnlyNode(tree, detect, u);
    CandidateOf(tree, detect, targets, t, m);
    CandidateOf(tree, detect, targets, u, n);
    NodeDirsDiffer(t.base, u.base);
    OneOfTwoIsDropped(Candidates(tree, detect, targets), m, n);
  }

  /** Discovery keeps every node of every tree exactly when no two targets share a label over
      different bases. */
  lemma KeepsEveryNodeIff(detect: Detector, targets: seq<Target>)
    ensures (forall tree :: KeepsEveryNode(tree, detect, targets)) <==> LabelsFixBases(targets)
  {
    if LabelsFixBases(targets) {
      forall tree ensures KeepsEveryNode(tree, detect, targets) {
        DiscoveryKeepsEveryNode(tree, detect, targets);
      }
    } else {
      var t, u :| t in targets && u in targets && LabelFor(t) == LabelFor(u) && Clean(t.base) != Clean(u.base);
      SharedLabelDrops(detect, targets, t, u);
    }
  }
}
