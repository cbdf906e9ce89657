/** What targets yield, told by their settings and the tree alone. */
module TargetMeaning {
  import opened Wrappers
  import opened Text
  import opened Paths
  import opened FileSystem
  import opened Records
  import opened Selection
  import opened DiscoveryTheorems
  import opened DiscoveryMeaning
  import opened Targets

  predicate HasLabel(title: string, t: Target) {
    if t.baseLabel == "" then title == Clean(t.base) else title == t.baseLabel
  }

  // ---- explicit directories ----------------------------------------------------------------------------

  /** No earlier directory of the list has the same cleaned path, nor has one seen before. */
  predicate IsFirstUse(dirs: seq<string>, seen: set<string>, k: nat) {
    && k < |dirs| && Clean(dirs[k]) !in seen
    && forall j :: 0 <= j < k ==> Clean(dirs[j]) != Clean(dirs[k])
  }

  function FirstUses(dirs: seq<string>, seen: set<string>): nat -> bool {
    (k: nat) => IsFirstUse(dirs, seen, k)
  }

  function CleanAll(dirs: seq<string>): seq<string> {
    seq(|dirs|, i requires 0 <= i < |dirs| => Clean(dirs[i]))
  }

  lemma CleanAllFirst(here: bool, d: string, later: seq<string>)
    ensures CleanAll((if here then [d] else []) + later) == (if here then [Clean(d)] else []) + CleanAll(later)
  {
  }

  lemma UsesNext(dirs: seq<string>, seen: set<string>)
    requires dirs != []
    ensures forall k: nat :: k < |dirs| - 1 ==>
              FirstUses(dirs[1..], seen + {Clean(dirs[0])})(k) == FirstUses(dirs, seen)(k + 1)
  {
    forall k: nat | k < |dirs| - 1
      ensures FirstUses(dirs[1..], seen + {Clean(dirs[0])})(k) == FirstUses(dirs, seen)(k + 1)
    {
      FirstUseNext(dirs, seen, k);
    }
  }

  lemma FirstUseNext(dirs: seq<string>, seen: set<string>, k: nat)
    requires dirs != [] && k < |dirs| - 1
    ensures IsFirstUse(dirs[1..], seen + {Clean(dirs[0])}, k) <==> IsFirstUse(dirs, seen, k + 1)
  {
    if IsFirstUse(dirs[1..], seen + {Clean(dirs[0])}, k) {
      forall j | 0 <= j < k + 1 ensures Clean(dirs[j]) != Clean(dirs[k + 1]) {
        if j > 0 {
          assert dirs[1..][j - 1] == dirs[j];
        }
      }
    }
    if IsFirstUse(dirs, seen, k + 1) {
      assert Clean(dirs[0]) != Clean(dirs[k + 1]);
    }
  }

  lemma FreshFirst(dirs: seq<string>, seen: set<string>)
    requires dirs != []
    ensures var rel := Clean(dirs[0]);
            FreshRels(dirs, seen) == (if rel !in seen then [rel] else []) + FreshRels(dirs[1..], seen + {rel})
  {
    assert Clean(dirs[0]) in seen ==> seen + {Clean(dirs[0])} == seen;
  }

  lemma {:induction false} FreshAreFirstUses(dirs: seq<string>, seen: set<string>) returns (ks: seq<nat>)
    ensures Selects(ks, |dirs|, FirstUses(dirs, seen)) && InRange(ks, |dirs|)
    ensures FreshRels(dirs, seen) == CleanAll(At(dirs, ks))
  {
    ks := [];
    if dirs != [] {
      var rel := Clean(dirs[0]);
      var rest := FreshAreFirstUses(dirs[1..], seen + {rel});
      ks := From(rel !in seen, rest);
      UsesNext(dirs, seen);
      FromSelects(rest, |dirs| - 1, FirstUses(dirs[1..], seen + {rel}), FirstUses(dirs, seen));
      FromAt(rel !in seen, dirs[0], dirs[1..], rest);
      assert [dirs[0]] + dirs[1..] == dirs;
      CleanAllFirst(rel !in seen, dirs[0], At(dirs[1..], rest));
      FreshFirst(dirs, seen);
    }
  }

  /** The entry of an explicit directory: its cleaned path below the cleaned base; the stream is its
      first component and the type the rest. */
  predicate ExplicitFor(e: WatchEntry, t: Target, dir: string) {
    && e.absPath == Clean(Clean(t.base) + "/" + Clean(dir)) && HasLabel(e.labels.base, t)
    && '/' !in e.labels.stream
    && ((Clean(dir) == e.labels.stream && e.labels.kind == "") || Clean(dir) == e.labels.stream + "/" + e.labels.kind)
  }

  lemma ExplicitNamed(t: Target, dir: string)
    ensures ExplicitFor(ExplicitEntry(Clean(t.base), LabelFor(t), Clean(dir)), t, dir)
  {
    JoinSplit(Clean(dir), '/');
    var parts := Split(Clean(dir), '/');
    assert '/' !in parts[0];
    if |parts| > 1 {
      assert parts[0] + ['/'] + Join(parts[1..], '/') == Clean(dir);
    }
  }

  /** A target with explicit directories yields one entry for the first use of each cleaned path, in
      the order of the list, whatever the tree is like. */
  lemma ExplicitMeaning(tree: Tree, t: Target) returns (ks: seq<nat>)
    requires t.dirs != []
    ensures Selects(ks, |t.dirs|, FirstUses(t.dirs, {})) && InRange(ks, |t.dirs|)
    ensures var (entries, err) := TargetResult(tree, t);
            && err == None && |entries| == |ks|
            && forall i :: 0 <= i < |ks| ==> ExplicitFor(entries[i], t, t.dirs[ks[i]])
  {
    ks := FreshAreFirstUses(t.dirs, {});
    forall i | 0 <= i < |ks| ensures ExplicitFor(TargetResult(tree, t).0[i], t, t.dirs[ks[i]]) {
      ExplicitNamed(t, t.dirs[ks[i]]);
    }
  }

  // ---- discovered directories ------------------------------------------------------------------------------

  /** How deep a target looks: as it says, else as deep as its pattern, else one level. */
  predicate Looks(t: Target, depth: int) {
    && (t.maxDepth != 0 ==> depth == t.maxDepth)
    && (t.maxDepth == 0 && t.pattern != "" ==> depth == |Split(Trim(t.pattern, '/'), '/')|)
    && (t.maxDepth == 0 && t.pattern == "" ==> depth == 1)
  }

  /** A target without explicit directories yields what it wants of the tree below its base. */
  lemma AutomaticMeaning(tree: Tree, t: Target, depth: int) returns (ns: seq<seq<string>>, title: string)
    requires t.dirs == [] && !PatternRefused(t.pattern) && tree.stat(Clean(t.base)) == Some(true) && Looks(t, depth)
    ensures HasLabel(title, t) && InWalkOrder(tree, Clean(t.base), ns)
    ensures forall n :: n in ns <==> Wanted(tree, Clean(t.base), depth, t.pattern, t.included, n)
    ensures var entries := TargetResult(tree, t).0;
            && |entries| == |ns|
            && forall i :: 0 <= i < |ns| ==> ns[i] != [] && NamedAfter(entries[i], t.base, title, t.pattern, ns[i])
  {
    title := LabelFor(t);
    ns := DiscoveryIs(tree, t.base, title, DepthFor(t), t.pattern, t.included);
  }

  /** A directory of the base itself that is not the base again. */
  predicate IsSubdirectory(tree: Tree, base: string, name: string) {
    Listed(tree, base, [], name) && Acyclic(tree, base, [name])
  }

  lemma OneLevel(tree: Tree, base: string, n: seq<string>, included: seq<string>)
    ensures Wanted(tree, base, 1, "", included, n) <==> |n| == 1 && IsSubdirectory(tree, base, n[0])
  {
    if |n| == 1 {
      assert n == [n[0]] && n[..0] == [];
    }
  }

  /** A target with nothing but a base watches the directories right below it, without a type. */
  lemma BareTarget(tree: Tree, t: Target) returns (title: string)
    requires t.dirs == [] && t.pattern == "" && t.maxDepth == 0 && tree.stat(Clean(t.base)) == Some(true)
    ensures HasLabel(title, t)
    ensures forall e :: e in TargetResult(tree, t).0 <==>
              exists name :: IsSubdirectory(tree, Clean(t.base), name)
                             && e == WatchEntry(PathText(Clean(t.base), [name]), DirLabels(title, name, ""))
  {
    var ns: seq<seq<string>>;
    ns, title := AutomaticMeaning(tree, t, 1);
    var entries := TargetResult(tree, t).0;
    forall i | 0 <= i < |ns|
      ensures |ns[i]| == 1 && IsSubdirectory(tree, Clean(t.base), ns[i][0])
      ensures entries[i] == WatchEntry(PathText(Clean(t.base), [ns[i][0]]), DirLabels(title, ns[i][0], ""))
    {
      assert ns[i] in ns;
      OneLevel(tree, Clean(t.base), ns[i], t.included);
      assert ns[i] == [ns[i][0]];
    }
    forall name | IsSubdirectory(tree, Clean(t.base), name)
      ensures WatchEntry(PathText(Clean(t.base), [name]), DirLabels(title, name, "")) in entries
    {
      OneLevel(tree, Clean(t.base), [name], t.included);
      var i :| 0 <= i < |ns| && ns[i] == [name];
      assert entries[i] in entries;
    }
  }

  // ---- all targets ------------------------------------------------------------------------------------------------

  function Joined<T>(blocks: seq<seq<T>>): seq<T> {
    if blocks == [] then [] else blocks[0] + Joined(blocks[1..])
  }

  lemma {:induction false} JoinedBlock<T>(blocks: seq<seq<T>>, i: nat)
    requires i < |blocks|
    ensures Joined(blocks) == Joined(blocks[..i]) + (blocks[i] + Joined(blocks[i + 1..]))
  {
    if i > 0 {
      var front, rest := blocks[..i], blocks[1..];
      JoinedBlock(rest, i - 1);
      assert front[0] == blocks[0] && front[1..] == rest[..i - 1] && rest[i..] == blocks[i + 1..];
      ConcatAssociates(blocks[0], Joined(front[1..]), blocks[i] + Joined(blocks[i + 1..]));
    } else {
      assert blocks[..0] == [];
    }
  }

  /** Each target's entries stand in one block, the blocks in the order of the targets. */
  lemma {:induction false} EntriesInBlocks(tree: Tree, targets: seq<Target>) returns (blocks: seq<seq<WatchEntry>>)
    ensures |blocks| == |targets| && AllEntries(tree, targets) == Joined(blocks)
    ensures forall i :: 0 <= i < |targets| ==>
              && blocks[i] == TargetResult(tree, targets[i]).0
              && AllEntries(tree, targets) == Joined(blocks[..i]) + (blocks[i] + Joined(blocks[i + 1..]))
  {
    blocks := [];
    if targets != [] {
      var later := EntriesInBlocks(tree, targets[1..]);
      blocks := [TargetResult(tree, targets[0]).0] + later;
      assert blocks[1..] == later;
      forall i | 0 <= i < |targets| ensures blocks[i] == TargetResult(tree, targets[i]).0 {
        if i > 0 {
          assert blocks[i] == later[i - 1] && targets[i] == targets[1..][i - 1];
        }
      }
      forall i | 0 <= i < |targets| ensures Joined(blocks) == Joined(blocks[..i]) + (blocks[i] + Joined(blocks[i + 1..])) {
        JoinedBlock(blocks, i);
      }
    }
  }

  /** The error of a discovery of all targets is that of the first that fails, if any does. */
  lemma {:induction false} FirstTargetError(tree: Tree, targets: seq<Target>) returns (i: nat)
    ensures i <= |targets| && forall j :: 0 <= j < i ==> TargetResult(tree, targets[j]).1 == None
    ensures FirstOf(None, AllErrors(tree, targets))
            == if i < |targets| then TargetResult(tree, targets[i]).1 else None
    ensures i < |targets| ==> TargetResult(tree, targets[i]).1.Some?
  {
    i := 0;
    if targets != [] && TargetResult(tree, targets[0]).1.None? {
      var k := FirstTargetError(tree, targets[1..]);
      assert forall j :: 1 <= j < |targets| ==> targets[j] == targets[1..][j - 1];
      i := k + 1;
    }
  }
}
