/** The stream nodes told by the tree and the targets alone: which directories are nodes, in which
    order they are met, and which of them are kept. */
module NodesMeaning {
  import opened Wrappers
  import opened Paths
  import opened FileSystem
  import opened Records
  import opened Selection
  import opened DiscoveryMeaning
  import opened TargetMeaning
  import opened Targets
  import opened Nodes

  predicate StartsWith(s: string, prefix: string) {
    |prefix| <= |s| && s[..|prefix|] == prefix
  }

  /** An entry of a nodes directory that is a node: a directory that is neither mail nor rap_import. */
  predicate IsNodeEntry(d: DirEntry, name: string) {
    d.name == name && d.isDir && !StartsWith(name, "mail") && !StartsWith(name, "rap_import")
  }

  predicate StreamListed(list: seq<DirEntry>, stream: string) {
    exists d :: d in list && d.name == stream && d.isDir
  }

  predicate NodeListed(list: seq<DirEntry>, node: string) {
    exists d :: d in list && IsNodeEntry(d, node)
  }

  /** The nodes directory of a stream below a target's base. */
  function NodesPath(t: Target, stream: string): string {
    Clean(Clean(t.base) + "/" + stream + "/nodes")
  }

  /** A node of one target: <base>/<stream>/nodes/<node>, where the base lists the stream as a
      directory and the stream's nodes directory lists the node as one. */
  predicate IsNode(tree: Tree, detect: Detector, t: Target, n: StreamNode) {
    var nodesDir := NodesPath(t, n.stream);
    && (match tree.readDir(Clean(t.base)) case None => false case Some(list) => StreamListed(list, n.stream))
    && tree.stat(nodesDir) == Some(true)
    && (match tree.readDir(nodesDir) case None => false case Some(list) => NodeListed(list, n.node))
    && HasLabel(n.base, t)
    && n.nodeDir == Clean(nodesDir + "/" + n.node) && n.nodeType == detect(n.nodeDir, n.node)
  }

  // ---- which directories -------------------------------------------------------------------------------

  /** The node's own fields, given its stream and nodes directory. */
  predicate FieldsOf(detect: Detector, baseLabel: string, stream: string, nodesDir: string, n: StreamNode) {
    && n.base == baseLabel && n.stream == stream
    && n.nodeDir == Clean(nodesDir + "/" + n.node) && n.nodeType == detect(n.nodeDir, n.node)
  }

  lemma {:induction false} NodesInIff(
      detect: Detector, baseLabel: string, stream: string, nodesDir: string, list: seq<DirEntry>, n: StreamNode)
    ensures n in NodesIn(detect, baseLabel, stream, nodesDir, list)
            <==> NodeListed(list, n.node) && FieldsOf(detect, baseLabel, stream, nodesDir, n)
  {
    if list != [] {
      NodesInIff(detect, baseLabel, stream, nodesDir, list[1..], n);
      assert list == [list[0]] + list[1..];
      assert IsNodeDir(list[0]) <==> IsNodeEntry(list[0], list[0].name);
    }
  }

  predicate IsStreamNode(tree: Tree, detect: Detector, base: string, baseLabel: string, d: DirEntry, n: StreamNode) {
    var nodesDir := Clean(base + "/" + d.name + "/nodes");
    && d.isDir && tree.stat(nodesDir) == Some(true)
    && (match tree.readDir(nodesDir) case None => false case Some(list) => NodeListed(list, n.node))
    && FieldsOf(detect, baseLabel, d.name, nodesDir, n)
  }

  lemma StreamIff(tree: Tree, detect: Detector, base: string, baseLabel: string, d: DirEntry, n: StreamNode)
    ensures n in NodesOfStream(tree, detect, base, baseLabel, d) <==> IsStreamNode(tree, detect, base, baseLabel, d, n)
  {
    var nodesDir := Clean(base + "/" + d.name + "/nodes");
    match tree.readDir(nodesDir)
    case None =>
    case Some(list) => NodesInIff(detect, baseLabel, d.name, nodesDir, list, n);
  }

  lemma {:induction false} StreamsIff(
      tree: Tree, detect: Detector, base: string, baseLabel: string, list: seq<DirEntry>, n: StreamNode)
    ensures n in NodesOfStreams(tree, detect, base, baseLabel, list)
            <==> exists d :: d in list && IsStreamNode(tree, detect, base, baseLabel, d, n)
  {
    if list != [] {
      StreamIff(tree, detect, base, baseLabel, list[0], n);
      StreamsIff(tree, detect, base, baseLabel, list[1..], n);
      assert list == [list[0]] + list[1..];
    }
  }

  lemma TargetIff(tree: Tree, detect: Detector, t: Target, n: StreamNode)
    ensures n in NodesOfTarget(tree, detect, t) <==> IsNode(tree, detect, t, n)
  {
    match tree.readDir(Clean(t.base))
    case None =>
    case Some(list) =>
      StreamsIff(tree, detect, Clean(t.base), LabelFor(t), list, n);
      if IsNode(tree, detect, t, n) {
        var d :| d in list && d.name == n.stream && d.isDir;
        assert IsStreamNode(tree, detect, Clean(t.base), LabelFor(t), d, n);
      }
  }

  /** The candidates are exactly the nodes of the targets. */
  lemma {:induction false} CandidateIff(tree: Tree, detect: Detector, targets: seq<Target>, n: StreamNode)
    ensures n in Candidates(tree, detect, targets) <==> exists t :: t in targets && IsNode(tree, detect, t, n)
  {
    if targets != [] {
      TargetIff(tree, detect, targets[0], n);
      CandidateIff(tree, detect, targets[1..], n);
      assert targets == [targets[0]] + targets[1..];
    }
  }

  // ---- in which order ----------------------------------------------------------------------------------

  lemma {:induction false} NodesInOrdered(
      detect: Detector, baseLabel: string, stream: string, nodesDir: string, list: seq<DirEntry>, a: nat, b: nat)
    requires a < b < |NodesIn(detect, baseLabel, stream, nodesDir, list)|
    ensures var found := NodesIn(detect, baseLabel, stream, nodesDir, list);
            ListedBefore(list, found[a].node, found[b].node)
  {
    var found, later := NodesIn(detect, baseLabel, stream, nodesDir, list), NodesIn(detect, baseLabel, stream, nodesDir, list[1..]);
    if IsNodeDir(list[0]) {
      assert found == [found[0]] + later && found[0].node == list[0].name;
      if a == 0 {
        assert found[b] == later[b - 1];
        NodesInIff(detect, baseLabel, stream, nodesDir, list[1..], found[b]);
        ListedFirst(list, found[b].node);
      } else {
        assert found[a] == later[a - 1] && found[b] == later[b - 1];
        NodesInOrdered(detect, baseLabel, stream, nodesDir, list[1..], a - 1, b - 1);
        LaterListed(list, found[a].node, found[b].node);
      }
    } else {
      assert found == later;
      NodesInOrdered(detect, baseLabel, stream, nodesDir, list[1..], a, b);
      LaterListed(list, found[a].node, found[b].node);
    }
  }

  lemma ListedFirst(list: seq<DirEntry>, y: string)
    requires list != [] && exists d :: d in list[1..] && d.name == y
    ensures ListedBefore(list, list[0].name, y)
  {
    var d :| d in list[1..] && d.name == y;
    var j :| 0 <= j < |list[1..]| && list[1..][j] == d;
    assert list[j + 1].name == y;
  }

  /** Within a target: by the stream listed earlier, in one stream by the node listed earlier. */
  predicate EarlierNode(tree: Tree, base: string, list: seq<DirEntry>, m: StreamNode, n: StreamNode) {
    || ListedBefore(list, m.stream, n.stream)
    || (m.stream == n.stream
        && match tree.readDir(Clean(base + "/" + m.stream + "/nodes"))
           case None => false
           case Some(nodes) => ListedBefore(nodes, m.node, n.node))
  }

  lemma StreamOrdered(tree: Tree, detect: Detector, base: string, baseLabel: string, d: DirEntry, list: seq<DirEntry>, a: nat, b: nat)
    requires a < b < |NodesOfStream(tree, detect, base, baseLabel, d)|
    ensures var found := NodesOfStream(tree, detect, base, baseLabel, d);
            EarlierNode(tree, base, list, found[a], found[b])
  {
    var found := NodesOfStream(tree, detect, base, baseLabel, d);
    var nodesDir := Clean(base + "/" + d.name + "/nodes");
    StreamIff(tree, detect, base, baseLabel, d, found[a]);
    StreamIff(tree, detect, base, baseLabel, d, found[b]);
    match tree.readDir(nodesDir)
    case Some(nodes) => NodesInOrdered(detect, baseLabel, d.name, nodesDir, nodes, a, b);
  }

  lemma EarlierLater(tree: Tree, base: string, list: seq<DirEntry>, m: StreamNode, n: StreamNode)
    requires list != [] && EarlierNode(tree, base, list[1..], m, n)
    ensures EarlierNode(tree, base, list, m, n)
  {
    if ListedBefore(list[1..], m.stream, n.stream) {
      LaterListed(list, m.stream, n.stream);
    }
  }

  predicate AllEarlier(tree: Tree, base: string, list: seq<DirEntry>, found: seq<StreamNode>) {
    forall a, b :: 0 <= a < b < |found| ==> EarlierNode(tree, base, list, found[a], found[b])
  }

  lemma EarlierConcat(tree: Tree, base: string, list: seq<DirEntry>, here: seq<StreamNode>, later: seq<StreamNode>)
    requires AllEarlier(tree, base, list, here) && AllEarlier(tree, base, list, later)
    requires forall m, n :: m in here && n in later ==> EarlierNode(tree, base, list, m, n)
    ensures AllEarlier(tree, base, list, here + later)
  {
    var found := here + later;
    forall a, b | 0 <= a < b < |found| ensures EarlierNode(tree, base, list, found[a], found[b]) {
      if a < |here| && |here| <= b {
        assert found[a] in here && found[b] == later[b - |here|] && later[b - |here|] in later;
      } else if |here| <= a {
        assert found[a] == later[a - |here|] && found[b] == later[b - |here|];
      }
    }
  }

  lemma {:induction false} StreamsOrdered(tree: Tree, detect: Detector, base: string, baseLabel: string, list: seq<DirEntry>)
    ensures AllEarlier(tree, base, list, NodesOfStreams(tree, detect, base, baseLabel, list))
  {
    if list != [] {
      var here, later := NodesOfStream(tree, detect, base, baseLabel, list[0]), NodesOfStreams(tree, detect, base, baseLabel, list[1..]);
      forall a, b | 0 <= a < b < |here| ensures EarlierNode(tree, base, list, here[a], here[b]) {
        StreamOrdered(tree, detect, base, baseLabel, list[0], list, a, b);
      }
      StreamsOrdered(tree, detect, base, baseLabel, list[1..]);
      forall a, b | 0 <= a < b < |later| ensures EarlierNode(tree, base, list, later[a], later[b]) {
        EarlierLater(tree, base, list, later[a], later[b]);
      }
      forall m, n | m in here && n in later ensures EarlierNode(tree, base, list, m, n) {
        StreamIff(tree, detect, base, baseLabel, list[0], m);
        StreamsIff(tree, detect, base, baseLabel, list[1..], n);
        ListedFirst(list, n.stream);
      }
      EarlierConcat(tree, base, list, here, later);
    }
  }

  /** m is met before n: in an earlier target, or in the same one in listing order. */
  predicate MetEarlier(tree: Tree, detect: Detector, targets: seq<Target>, m: StreamNode, n: StreamNode) {
    || (exists i, j :: 0 <= i < j < |targets| && IsNode(tree, detect, targets[i], m) && IsNode(tree, detect, targets[j], n))
    || (exists i :: 0 <= i < |targets| && IsNode(tree, detect, targets[i], m) && IsNode(tree, detect, targets[i], n)
          && match tree.readDir(Clean(targets[i].base))
             case None => false
             case Some(list) => EarlierNode(tree, Clean(targets[i].base), list, m, n))
  }

  lemma MetInRest(tree: Tree, detect: Detector, targets: seq<Target>, m: StreamNode, n: StreamNode)
    requires targets != [] && MetEarlier(tree, detect, targets[1..], m, n)
    ensures MetEarlier(tree, detect, targets, m, n)
  {
    assert forall i :: 0 <= i < |targets[1..]| ==> targets[1..][i] == targets[i + 1];
    if i, j :| 0 <= i < j < |targets[1..]| && IsNode(tree, detect, targets[1..][i], m) && IsNode(tree, detect, targets[1..][j], n) {
      assert IsNode(tree, detect, targets[i + 1], m) && IsNode(tree, detect, targets[j + 1], n);
    } else {
      var i :| 0 <= i < |targets[1..]| && IsNode(tree, detect, targets[1..][i], m) && IsNode(tree, detect, targets[1..][i], n)
          && match tree.readDir(Clean(targets[1..][i].base))
             case None => false
             case Some(list) => EarlierNode(tree, Clean(targets[1..][i].base), list, m, n);
      assert IsNode(tree, detect, targets[i + 1], m) && IsNode(tree, detect, targets[i + 1], n);
    }
  }

  lemma MetInFirst(tree: Tree, detect: Detector, targets: seq<Target>, a: nat, b: nat)
    requires targets != [] && a < b < |NodesOfTarget(tree, detect, targets[0])|
    ensures var found := NodesOfTarget(tree, detect, targets[0]); MetEarlier(tree, detect, targets, found[a], found[b])
  {
    var t, found := targets[0], NodesOfTarget(tree, detect, targets[0]);
    TargetIff(tree, detect, t, found[a]);
    TargetIff(tree, detect, t, found[b]);
    match tree.readDir(Clean(t.base))
    case Some(list) => StreamsOrdered(tree, detect, Clean(t.base), LabelFor(t), list);
  }

  lemma MetAcross(tree: Tree, detect: Detector, targets: seq<Target>, m: StreamNode, n: StreamNode)
    requires targets != [] && m in NodesOfTarget(tree, detect, targets[0]) && n in Candidates(tree, detect, targets[1..])
    ensures MetEarlier(tree, detect, targets, m, n)
  {
    TargetIff(tree, detect, targets[0], m);
    CandidateIff(tree, detect, targets[1..], n);
    var t :| t in targets[1..] && IsNode(tree, detect, t, n);
    var j :| 0 <= j < |targets[1..]| && targets[1..][j] == t;
    assert IsNode(tree, detect, targets[0], m) && IsNode(tree, detect, targets[j + 1], n);
  }

  predicate AllMetEarlier(tree: Tree, detect: Detector, targets: seq<Target>, found: seq<StreamNode>) {
    forall a, b :: 0 <= a < b < |found| ==> MetEarlier(tree, detect, targets, found[a], found[b])
  }

  lemma MetConcat(tree: Tree, detect: Detector, targets: seq<Target>, here: seq<StreamNode>, later: seq<StreamNode>)
    requires AllMetEarlier(tree, detect, targets, here) && AllMetEarlier(tree, detect, targets, later)
    requires forall m, n :: m in here && n in later ==> MetEarlier(tree, detect, targets, m, n)
    ensures AllMetEarlier(tree, detect, targets, here + later)
  {
    var found := here + later;
    forall a, b | 0 <= a < b < |found| ensures MetEarlier(tree, detect, targets, found[a], found[b]) {
      if a < |here| && |here| <= b {
        assert found[a] in here && found[b] == later[b - |here|] && later[b - |here|] in later;
      } else if |here| <= a {
        assert found[a] == later[a - |here|] && found[b] == later[b - |here|];
      }
    }
  }

  /** The candidates come in the order of targets, streams and nodes. */
  lemma {:induction false} CandidatesOrdered(tree: Tree, detect: Detector, targets: seq<Target>)
    ensures AllMetEarlier(tree, detect, targets, Candidates(tree, detect, targets))
  {
    if targets != [] {
      var here, later := NodesOfTarget(tree, detect, targets[0]), Candidates(tree, detect, targets[1..]);
      forall a, b | 0 <= a < b < |here| ensures MetEarlier(tree, detect, targets, here[a], here[b]) {
        MetInFirst(tree, detect, targets, a, b);
      }
      CandidatesOrdered(tree, detect, targets[1..]);
      forall a, b | 0 <= a < b < |later| ensures MetEarlier(tree, detect, targets, later[a], later[b]) {
        MetInRest(tree, detect, targets, later[a], later[b]);
      }
      forall m, n | m in here && n in later ensures MetEarlier(tree, detect, targets, m, n) {
        MetAcross(tree, detect, targets, m, n);
      }
      MetConcat(tree, detect, targets, here, later);
    }
  }

  // ---- which are kept --------------------------------------------------------------------------------------

  /** The key under which a node is remembered. */
  function KeyText(n: StreamNode): string {
    n.base + "/" + n.stream + "/" + n.node
  }

  predicate IsNew(nodes: seq<StreamNode>, seen: set<string>, k: nat) {
    && k < |nodes| && KeyText(nodes[k]) !in seen
    && forall j :: 0 <= j < k ==> KeyText(nodes[j]) != KeyText(nodes[k])
  }

  function NewPlaces(nodes: seq<StreamNode>, seen: set<string>): nat -> bool {
    (k: nat) => IsNew(nodes, seen, k)
  }

  lemma NewNext(nodes: seq<StreamNode>, seen: set<string>, k: nat)
    requires nodes != [] && k < |nodes| - 1
    ensures IsNew(nodes[1..], seen + {KeyText(nodes[0])}, k) <==> IsNew(nodes, seen, k + 1)
  {
    if IsNew(nodes[1..], seen + {KeyText(nodes[0])}, k) {
      forall j | 0 <= j < k + 1 ensures KeyText(nodes[j]) != KeyText(nodes[k + 1]) {
        if j > 0 {
          assert nodes[1..][j - 1] == nodes[j];
        }
      }
    }
    if IsNew(nodes, seen, k + 1) {
      assert KeyText(nodes[0]) != KeyText(nodes[k + 1]);
    }
  }

  lemma {:induction false} FreshAreNewPlaces(nodes: seq<StreamNode>, seen: set<string>) returns (ks: seq<nat>)
    ensures Selects(ks, |nodes|, NewPlaces(nodes, seen)) && InRange(ks, |nodes|)
    ensures Fresh(nodes, seen) == At(nodes, ks)
    decreases |nodes|
  {
    ks := [];
    if nodes != [] {
      var key := KeyText(nodes[0]);
      assert key == KeyOf(nodes[0]);
      var rest := FreshAreNewPlaces(nodes[1..], seen + {key});
      ks := From(key !in seen, rest);
      forall k: nat | k < |nodes| - 1 ensures NewPlaces(nodes[1..], seen + {key})(k) == NewPlaces(nodes, seen)(k + 1) {
        NewNext(nodes, seen, k);
      }
      FromSelects(rest, |nodes| - 1, NewPlaces(nodes[1..], seen + {key}), NewPlaces(nodes, seen));
      FromAt(key !in seen, nodes[0], nodes[1..], rest);
      assert [nodes[0]] + nodes[1..] == nodes;
      assert key in seen ==> seen + {key} == seen;
    }
  }

  /** DiscoverStreamNodes: all are the nodes of the targets in the order met, and of those with one key
      the first is kept. */
  lemma NodesFound(tree: Tree, detect: Detector, targets: seq<Target>)
    returns (all: seq<StreamNode>, ks: seq<nat>)
    ensures forall n :: n in all <==> exists t :: t in targets && IsNode(tree, detect, t, n)
    ensures AllMetEarlier(tree, detect, targets, all)
    ensures Selects(ks, |all|, NewPlaces(all, {})) && InRange(ks, |all|)
    ensures Fresh(Candidates(tree, detect, targets), {}) == At(all, ks)
  {
    all := Candidates(tree, detect, targets);
    forall n ensures n in all <==> exists t :: t in targets && IsNode(tree, detect, t, n) {
      CandidateIff(tree, detect, targets, n);
    }
    CandidatesOrdered(tree, detect, targets);
    ks := FreshAreNewPlaces(all, {});
  }
}
