/** discoverDirectories (watchlist.go): the pruned, cycle-safe walk against the
    enumeration of every acyclic directory path followed by a filter. */
module Discovery {
  import opened Wrappers
  import opened Text
  import opened Paths
  import opened Glob
  import opened Pattern
  import opened FileSystem
  import opened Records

  datatype DiscoveryError =
    | StatFailed(path: string)
    | NotADirectory(path: string)
    | ReadFailed(path: string)
    | InvalidPattern(pattern: string)

  /** One call of discoverDirectories on a cleaned base, its pattern tests made ready. */
  datatype Query = Query(
    tree: Tree, base: string, baseLabel: string, maxDepth: int, test: Matcher)

  function QueryFor(tree: Tree, base: string, baseLabel: string, maxDepth: int, pattern: string, included: seq<string>)
    : Query
  {
    Query(tree, base, baseLabel, maxDepth, MatcherFor(pattern, included))
  }

  // ---- paths below the base -----------------------------------------------------

  function PathOf(base: string, names: seq<string>): string {
    if names == [] then base else JoinPath(PathOf(base, names[..|names| - 1]), names[|names| - 1])
  }

  /** The real identity of a directory on the walk; the base falls back to its own path. */
  function RealAt(tree: Tree, base: string, names: seq<string>): Option<string> {
    var r := tree.resolve(PathOf(base, names));
    if names == [] && r.None? then Some(base) else r
  }

  /** The real identities of the base and of every directory down to names. */
  function OnStack(tree: Tree, base: string, names: seq<string>): set<string> {
    var here := match RealAt(tree, base, names) case Some(r) => {r} case None => {};
    if names == [] then here else OnStack(tree, base, names[..|names| - 1]) + here
  }

  predicate Descends(tree: Tree, base: string, names: seq<string>, d: DirEntry) {
    var child := names + [d.name];
    && IsDirectory(tree, PathOf(base, child), d)
    && (tree.resolve(PathOf(base, child)).Some? ==>
          tree.resolve(PathOf(base, child)).value !in OnStack(tree, base, names))
  }

  // ---- the reference: enumerate everything, then filter -----------------------------

  /** Every directory path from names down, at most remaining levels deeper, in preorder,
      that does not re-enter a directory it is already inside. No pattern is consulted. */
  function Enumerate(tree: Tree, base: string, names: seq<string>, remaining: nat): seq<seq<string>>
    decreases remaining, 0
  {
    [names] +
    if remaining == 0 then []
    else
      match tree.readDir(PathOf(base, names))
      case None => []
      case Some(list) => EnumerateChildren(tree, base, names, remaining - 1, list)
  }

  function EnumerateChild(tree: Tree, base: string, names: seq<string>, remaining: nat, d: DirEntry)
    : seq<seq<string>>
    decreases remaining, 1
  {
    if Descends(tree, base, names, d) then Enumerate(tree, base, names + [d.name], remaining) else []
  }

  function EnumerateChildren(tree: Tree, base: string, names: seq<string>, remaining: nat, list: seq<DirEntry>)
    : seq<seq<string>>
    decreases remaining, 2 + |list|
  {
    if list == [] then []
    else EnumerateChild(tree, base, names, remaining, list[0])
         + EnumerateChildren(tree, base, names, remaining, list[1..])
  }

  function Visited(q: Query, names: seq<string>): seq<seq<string>> {
    if |names| > q.maxDepth then [] else Enumerate(q.tree, q.base, names, q.maxDepth - |names|)
  }

  function VisitedChild(q: Query, names: seq<string>, d: DirEntry): seq<seq<string>>
    requires |names| < q.maxDepth
  {
    EnumerateChild(q.tree, q.base, names, q.maxDepth - |names| - 1, d)
  }

  function VisitedChildren(q: Query, names: seq<string>, list: seq<DirEntry>): seq<seq<string>>
    requires |names| < q.maxDepth
  {
    EnumerateChildren(q.tree, q.base, names, q.maxDepth - |names| - 1, list)
  }

  function VisitedBelow(q: Query, names: seq<string>): seq<seq<string>> {
    var list := q.tree.readDir(PathOf(q.base, names));
    if |names| < q.maxDepth && list.Some? then VisitedChildren(q, names, list.value) else []
  }

  predicate Accepts(q: Query, names: seq<string>) {
    names != [] && q.test.full(RelPath(names)) == Matched(true)
  }

  predicate Reaches(q: Query, names: seq<string>) {
    names == [] || q.test.prefix(RelPath(names))
  }

  /** The components kept in the type label: those facing a wildcard or #include. */
  function KeptParts(segments: seq<string>, parts: seq<string>): seq<string>
    requires |segments| == |parts|
  {
    if parts == [] then []
    else
      (if HasMeta(segments[0]) || segments[0] == "#include" then [parts[0]] else [])
      + KeptParts(segments[1..], parts[1..])
  }

  function LabelsOf(baseLabel: string, segments: seq<string>, names: seq<string>): DirLabels
    requires names != []
  {
    var kind :=
      if segments != [] && |segments| == |names|
      then Join(KeptParts(segments[1..], names[1..]), '/')
      else Join(names[1..], '/');
    DirLabels(baseLabel, names[0], kind)
  }

  function EntryOf(q: Query, names: seq<string>): WatchEntry
    requires names != []
  {
    WatchEntry(PathOf(q.base, names), LabelsOf(q.baseLabel, q.test.segments, names))
  }

  function EntryFor(q: Query, n: seq<string>): seq<WatchEntry> {
    if Accepts(q, n) then [EntryOf(q, n)] else []
  }

  function Entries(q: Query, nodes: seq<seq<string>>): seq<WatchEntry> {
    if nodes == [] then [] else EntryFor(q, nodes[0]) + Entries(q, nodes[1..])
  }

  /** A read failure counts above the depth limit, where the pattern can reach. */
  function ErrorFor(q: Query, n: seq<string>): seq<DiscoveryError> {
    var path := PathOf(q.base, n);
    if Reaches(q, n) && |n| < q.maxDepth && q.tree.readDir(path).None? then [ReadFailed(path)] else []
  }

  function ReadErrors(q: Query, nodes: seq<seq<string>>): seq<DiscoveryError> {
    if nodes == [] then [] else ErrorFor(q, nodes[0]) + ReadErrors(q, nodes[1..])
  }

  // ---- small facts about the reference --------------------------------------------

  lemma {:induction false} EntriesConcat(q: Query, a: seq<seq<string>>, b: seq<seq<string>>)
    ensures Entries(q, a + b) == Entries(q, a) + Entries(q, b)
  {
    if a == [] {
      assert a + b == b;
    } else {
      EntriesConcat(q, a[1..], b);
      assert (a + b)[1..] == a[1..] + b;
      ConcatAssociates(EntryFor(q, a[0]), Entries(q, a[1..]), Entries(q, b));
    }
  }

  lemma {:induction false} ReadErrorsConcat(q: Query, a: seq<seq<string>>, b: seq<seq<string>>)
    ensures ReadErrors(q, a + b) == ReadErrors(q, a) + ReadErrors(q, b)
  {
    if a == [] {
      assert a + b == b;
    } else {
      ReadErrorsConcat(q, a[1..], b);
      assert (a + b)[1..] == a[1..] + b;
      ConcatAssociates(ErrorFor(q, a[0]), ReadErrors(q, a[1..]), ReadErrors(q, b));
    }
  }

  lemma {:induction false} NothingSelected(q: Query, nodes: seq<seq<string>>)
    requires forall n :: n in nodes ==> !Accepts(q, n) && !Reaches(q, n)
    ensures Entries(q, nodes) == [] && ReadErrors(q, nodes) == []
  {
    if nodes != [] {
      assert nodes[0] in nodes;
      NothingSelected(q, nodes[1..]);
    }
  }

  /** Preorder, seen through the two selections: a directory first, then its children. */
  lemma VisitedUnfolds(q: Query, names: seq<string>)
    requires |names| <= q.maxDepth
    ensures var below := VisitedBelow(q, names);
            && Entries(q, Visited(q, names)) == EntryFor(q, names) + Entries(q, below)
            && ReadErrors(q, Visited(q, names)) == ErrorFor(q, names) + ReadErrors(q, below)
  {
    var below, nodes := VisitedBelow(q, names), Visited(q, names);
    assert nodes == [names] + below;
    assert nodes[0] == names && nodes[1..] == below;
  }

  lemma VisitedChildrenUnfolds(q: Query, names: seq<string>, list: seq<DirEntry>)
    requires |names| < q.maxDepth && list != []
    ensures var here, later := VisitedChild(q, names, list[0]), VisitedChildren(q, names, list[1..]);
            && Entries(q, VisitedChildren(q, names, list)) == Entries(q, here) + Entries(q, later)
            && ReadErrors(q, VisitedChildren(q, names, list)) == ReadErrors(q, here) + ReadErrors(q, later)
  {
    EntriesConcat(q, VisitedChild(q, names, list[0]), VisitedChildren(q, names, list[1..]));
    ReadErrorsConcat(q, VisitedChild(q, names, list[0]), VisitedChildren(q, names, list[1..]));
  }

  /** One entry contributes nothing unless it is a directory outside the current stack. */
  lemma VisitedChildUnfolds(q: Query, names: seq<string>, d: DirEntry)
    requires |names| < q.maxDepth
    ensures var child := names + [d.name];
            var path := PathOf(q.base, child);
            var cycle := q.tree.resolve(path).Some? && q.tree.resolve(path).value in OnStack(q.tree, q.base, names);
            && VisitedChild(q, names, d) == (if IsDirectory(q.tree, path, d) && !cycle then Visited(q, child) else [])
            && OnStack(q.tree, q.base, child) == OnStack(q.tree, q.base, names)
               + (match q.tree.resolve(path) case Some(r) => {r} case None => {})
    ensures Entries(q, []) == [] && ReadErrors(q, []) == []
  {
    assert (names + [d.name])[..|names|] == names;
  }

  predicate Below(names: seq<string>, remaining: nat, n: seq<string>) {
    names <= n && |n| <= |names| + remaining && GoodNames(n)
  }

  /** Everything enumerated from names extends names by good names, within the depth. */
  lemma {:induction false} EnumerateBelow(tree: Tree, base: string, names: seq<string>, remaining: nat, n: seq<string>)
    requires GoodNames(names) && n in Enumerate(tree, base, names, remaining)
    ensures Below(names, remaining, n)
    decreases remaining, 0
  {
    if n != names {
      EnumerateChildrenBelow(tree, base, names, remaining - 1, tree.readDir(PathOf(base, names)).value, n);
    }
  }

  lemma {:induction false} EnumerateChildrenBelow(
      tree: Tree, base: string, names: seq<string>, remaining: nat, list: seq<DirEntry>, n: seq<string>)
    requires GoodNames(names) && ValidListing(list)
    requires n in EnumerateChildren(tree, base, names, remaining, list)
    ensures Below(names, remaining + 1, n) && |n| > |names|
    ensures exists i :: 0 <= i < |list| && list[i].name == n[|names|]
    decreases remaining, 1 + |list|
  {
    if n in EnumerateChild(tree, base, names, remaining, list[0]) {
      EnumerateBelow(tree, base, names + [list[0].name], remaining, n);
      assert n[|names|] == (names + [list[0].name])[|names|];
    } else {
      EnumerateChildrenBelow(tree, base, names, remaining, list[1..], n);
      var i :| 0 <= i < |list[1..]| && list[1..][i].name == n[|names|];
      assert list[i + 1].name == n[|names|];
    }
  }

  /** Cutting a subtree whose root fails the prefix test loses no entry and no error. */
  lemma PrunedSubtreeIsEmpty(q: Query, names: seq<string>, remaining: nat)
    requires Coherent(q.test) && GoodNames(names) && names != [] && !Reaches(q, names)
    ensures Entries(q, Enumerate(q.tree, q.base, names, remaining)) == []
    ensures ReadErrors(q, Enumerate(q.tree, q.base, names, remaining)) == []
  {
    var nodes := Enumerate(q.tree, q.base, names, remaining);
    forall n | n in nodes ensures !Accepts(q, n) && !Reaches(q, n) {
      EnumerateBelow(q.tree, q.base, names, remaining, n);
      assert n[..|names|] == names;
      assert ReachesPrefix(q.test, n, |names|);
    }
    NothingSelected(q, nodes);
  }

  lemma RelPathSnoc(names: seq<string>, name: string)
    requires GoodNames(names) && GoodName(name) && names != []
    ensures JoinPath(RelPath(names), name) == RelPath(names + [name])
  {
    JoinPathSnoc(Cleaned(false, names), name);
  }

  // ---- the walk ---------------------------------------------------------------------

  /** discoverDirectories with the variables its walk closure captures. */
  class Walker {
    const q: Query
    var entries: seq<WatchEntry>
    var ancestors: set<string>
    var firstErr: Option<DiscoveryError>

    constructor (q: Query)
      ensures this.q == q && entries == [] && firstErr == None
      ensures ancestors == OnStack(q.tree, q.base, [])
    {
      this.q := q;
      entries := [];
      firstErr := None;
      ancestors := {match q.tree.resolve(q.base) case Some(r) => r case None => q.base};
    }

    /** The label computation of the walk, for an accepted directory. */
    method Label(relPath: string, depth: int, ghost names: seq<string>) returns (labels: DirLabels)
      requires GoodNames(names) && names != [] && relPath == RelPath(names) && depth == |names|
      requires Coherent(q.test) && Accepts(q, names)
      ensures labels == LabelsOf(q.baseLabel, q.test.segments, names)
    {
      SplitRelPath(names);
      var parts := Split(relPath, '/');
      labels := DirLabels(q.baseLabel, parts[0], "");
      if depth > 1 {
        if q.test.segments != [] {
          var patParts := q.test.segments;
          assert Decides(q.test, names);
          if |patParts| == |parts| {
            var typeParts := TypeParts(patParts, parts);
            labels := labels.(kind := Join(typeParts, '/'));
          } else {
            // Accepted paths are as long as the pattern.
            assert false;
          }
        } else {
          labels := labels.(kind := Join(parts[1..], '/'));
        }
      }
    }

    method TypeParts(patParts: seq<string>, parts: seq<string>) returns (typeParts: seq<string>)
      requires |patParts| == |parts| >= 1
      ensures typeParts == KeptParts(patParts[1..], parts[1..])
    {
      typeParts := [];
      ghost var goal := KeptParts(patParts[1..], parts[1..]);
      for i := 1 to |parts|
        invariant typeParts + KeptParts(patParts[i..], parts[i..]) == goal
      {
        assert patParts[i..][1..] == patParts[i + 1..] && parts[i..][1..] == parts[i + 1..];
        ghost var later := KeptParts(patParts[i + 1..], parts[i + 1..]);
        ghost var before := typeParts;
        if HasMeta(patParts[i]) || patParts[i] == "#include" {
          typeParts := typeParts + [parts[i]];
          assert before + ([parts[i]] + later) == typeParts + later;
        } else {
          assert [] + later == later;
        }
      }
    }

    /** The acceptance step: the full test on one directory below the base. */
    method Offer(currentPath: string, relPath: string, depth: int, ghost names: seq<string>)
      requires Coherent(q.test) && GoodNames(names) && Reaches(q, names) && names != []
      requires currentPath == PathOf(q.base, names) && relPath == RelPath(names) && depth == |names|
      modifies this`entries
      ensures entries == old(entries) + EntryFor(q, names)
    {
      assert Decides(q.test, names);
      match q.test.full(relPath)
      case BadPattern =>
        // The error branch of the source: no path the walk reaches takes it.
        assert false;
      case Matched(ok) =>
        if ok {
          var labels := Label(relPath, depth, names);
          entries := entries + [WatchEntry(currentPath, labels)];
        }
    }

    /** The recursive walk: what it appends, the error it keeps, the set it restores. */
    method Walk(currentPath: string, relPath: string, depth: int, ghost names: seq<string>)
      requires Coherent(q.test) && GoodNames(names) && Reaches(q, names)
      requires currentPath == PathOf(q.base, names) && relPath == RelPath(names) && depth == |names|
      requires ancestors == OnStack(q.tree, q.base, names)
      modifies this
      ensures entries == old(entries) + Entries(q, Visited(q, names))
      ensures firstErr == FirstOf(old(firstErr), ReadErrors(q, Visited(q, names)))
      ensures ancestors == old(ancestors)
      decreases q.maxDepth - depth, 3
    {
      ConcatEmpty(entries);
      if depth > q.maxDepth {
        return;
      }
      VisitedUnfolds(q, names);
      ghost var before := entries;
      if depth >= 1 {
        Offer(currentPath, relPath, depth, names);
      }
      ConcatEmpty(before);
      WalkBelow(currentPath, relPath, depth, names);
      ConcatAssociates(before, EntryFor(q, names), Entries(q, VisitedBelow(q, names)));
    }

    /** The second half of the walk: read the directory, unless the depth is used up. */
    method WalkBelow(currentPath: string, relPath: string, depth: int, ghost names: seq<string>)
      requires Coherent(q.test) && GoodNames(names) && Reaches(q, names) && depth <= q.maxDepth
      requires currentPath == PathOf(q.base, names) && relPath == RelPath(names) && depth == |names|
      requires ancestors == OnStack(q.tree, q.base, names)
      modifies this
      ensures entries == old(entries) + Entries(q, VisitedBelow(q, names))
      ensures firstErr == FirstOf(old(firstErr), ErrorFor(q, names) + ReadErrors(q, VisitedBelow(q, names)))
      ensures ancestors == old(ancestors)
      decreases q.maxDepth - depth, 2
    {
      ConcatEmpty(entries);
      if depth >= q.maxDepth {
        return;
      }
      match q.tree.readDir(currentPath)
      case None =>
        if firstErr.None? {
          firstErr := Some(ReadFailed(currentPath));
        }
      case Some(list) =>
        WalkChildren(currentPath, relPath, depth, list, names);
    }

    /** The loop over one directory's entries. */
    method WalkChildren(currentPath: string, relPath: string, depth: int, list: Listing, ghost names: seq<string>)
      requires Coherent(q.test) && GoodNames(names) && Reaches(q, names) && depth < q.maxDepth
      requires currentPath == PathOf(q.base, names) && relPath == RelPath(names) && depth == |names|
      requires ancestors == OnStack(q.tree, q.base, names)
      modifies this
      ensures entries == old(entries) + Entries(q, VisitedChildren(q, names, list))
      ensures firstErr == FirstOf(old(firstErr), ReadErrors(q, VisitedChildren(q, names, list)))
      ensures ancestors == old(ancestors)
      decreases q.maxDepth - depth, 1
    {
      ghost var before, held := entries, firstErr;
      ghost var all := VisitedChildren(q, names, list);
      assert list[0..] == list;
      for i := 0 to |list|
        invariant ancestors == OnStack(q.tree, q.base, names)
        invariant entries + Entries(q, VisitedChildren(q, names, list[i..])) == before + Entries(q, all)
        invariant FirstOf(firstErr, ReadErrors(q, VisitedChildren(q, names, list[i..])))
                  == FirstOf(held, ReadErrors(q, all))
      {
        ghost var es := entries;
        assert list[i..][0] == list[i] && list[i..][1..] == list[i + 1..];
        VisitedChildrenUnfolds(q, names, list[i..]);
        WalkChild(currentPath, relPath, depth, list[i], names);
        ConcatAssociates(es, Entries(q, VisitedChild(q, names, list[i])),
                         Entries(q, VisitedChildren(q, names, list[i + 1..])));
      }
      assert list[|list|..] == [];
    }

    /** A child's two paths and whether it is a directory, following a link. */
    method Inspect(currentPath: string, relPath: string, d: DirEntry, ghost names: seq<string>)
      returns (childPath: string, childRel: string, isDir: bool)
      requires GoodNames(names) && GoodName(d.name)
      requires currentPath == PathOf(q.base, names) && relPath == RelPath(names)
      ensures childPath == PathOf(q.base, names + [d.name]) && childRel == RelPath(names + [d.name])
      ensures isDir == IsDirectory(q.tree, childPath, d)
    {
      childPath := JoinPath(currentPath, d.name);
      childRel := d.name;
      if relPath != "" {
        childRel := JoinPath(relPath, d.name);
      }
      assert (names + [d.name])[..|names|] == names;
      ChildRel(names, d.name);
      isDir := d.isDir;
      if !isDir && d.isSymlink {
        match q.tree.stat(childPath)
        case Some(dir) => isDir := dir;
        case None =>
      }
    }

    /** The body of that loop: three ways to skip an entry, else one recursive call. */
    method WalkChild(currentPath: string, relPath: string, depth: int, d: DirEntry, ghost names: seq<string>)
      requires Coherent(q.test) && GoodNames(names) && Reaches(q, names) && depth < q.maxDepth && GoodName(d.name)
      requires currentPath == PathOf(q.base, names) && relPath == RelPath(names) && depth == |names|
      requires ancestors == OnStack(q.tree, q.base, names)
      modifies this
      ensures entries == old(entries) + Entries(q, VisitedChild(q, names, d))
      ensures firstErr == FirstOf(old(firstErr), ReadErrors(q, VisitedChild(q, names, d)))
      ensures ancestors == old(ancestors)
      decreases q.maxDepth - depth, 0
    {
      var childPath, childRel, isDir := Inspect(currentPath, relPath, d, names);
      ghost var child := names + [d.name];
      VisitedChildUnfolds(q, names, d);
      ConcatEmpty(entries);
      ghost var nodes := VisitedChild(q, names, d);
      if !isDir {
        assert nodes == [];
        return;
      }
      if !q.test.prefix(childRel) {
        PrunedChildIsEmpty(q, names, d);
        return;
      }
      var realChild := q.tree.resolve(childPath);
      if realChild.Some? && realChild.value in ancestors {
        assert nodes == [];
        return;
      }
      assert VisitedChild(q, names, d) == Visited(q, child);
      Descend(childPath, childRel, depth + 1, realChild, child);
    }

    /** Enter a directory with its real identity on the stack, and take it off again. */
    method Descend(childPath: string, childRel: string, depth: int, realChild: Option<string>, ghost child: seq<string>)
      requires Coherent(q.test) && GoodNames(child) && Reaches(q, child) && child != [] && depth <= q.maxDepth
      requires childPath == PathOf(q.base, child) && childRel == RelPath(child) && depth == |child|
      requires realChild == RealAt(q.tree, q.base, child)
      requires ancestors == OnStack(q.tree, q.base, child[..|child| - 1])
      requires realChild.Some? ==> realChild.value !in ancestors
      modifies this
      ensures entries == old(entries) + Entries(q, Visited(q, child))
      ensures firstErr == FirstOf(old(firstErr), ReadErrors(q, Visited(q, child)))
      ensures ancestors == old(ancestors)
      decreases q.maxDepth - depth, 4
    {
      if realChild.Some? {
        ancestors := ancestors + {realChild.value};
      }
      Walk(childPath, childRel, depth, child);
      if realChild.Some? {
        ancestors := ancestors - {realChild.value};
      }
    }
  }

  lemma PrunedChildIsEmpty(q: Query, names: seq<string>, d: DirEntry)
    requires Coherent(q.test) && GoodNames(names) && GoodName(d.name) && |names| < q.maxDepth
    requires !Reaches(q, names + [d.name])
    ensures Entries(q, VisitedChild(q, names, d)) == [] && ReadErrors(q, VisitedChild(q, names, d)) == []
  {
    PrunedSubtreeIsEmpty(q, names + [d.name], q.maxDepth - |names| - 1);
    VisitedChildUnfolds(q, names, d);
  }

  lemma SplitRelPath(names: seq<string>)
    requires GoodNames(names) && names != []
    ensures Split(RelPath(names), '/') == names
  {
    SplitJoin(names, '/');
  }

  lemma ChildRel(names: seq<string>, name: string)
    requires GoodNames(names) && GoodName(name)
    ensures RelPath(names + [name]) == if RelPath(names) != "" then JoinPath(RelPath(names), name) else name
  {
    if names == [] {
      assert names + [name] == [name];
    } else {
      assert GoodName(names[0]);
      JoinHead(names);
      RelPathSnoc(names, name);
    }
  }

  /** What a call returns: the filtered enumeration and the first reachable read error. */
  function Discover(q: Query): (seq<WatchEntry>, Option<DiscoveryError>) {
    match q.tree.stat(q.base)
    case None => ([], Some(StatFailed(q.base)))
    case Some(isDir) =>
      if !isDir then ([], Some(NotADirectory(q.base)))
      else (Entries(q, Visited(q, [])), FirstOf(None, ReadErrors(q, Visited(q, []))))
  }

  /** discoverDirectories: the base checks and then the walk. */
  method DiscoverDirectories(
      tree: Tree, basePath: string, baseLabel: string, maxDepth: int, pattern: string, included: seq<string>)
    returns (entries: seq<WatchEntry>, err: Option<DiscoveryError>)
    ensures (entries, err) == Discover(QueryFor(tree, Clean(basePath), baseLabel, maxDepth, pattern, included))
  {
    var q := QueryFor(tree, Clean(basePath), baseLabel, maxDepth, pattern, included);
    MatcherCoherent(pattern, included);
    entries, err := Run(q);
  }

  method Run(q: Query) returns (entries: seq<WatchEntry>, err: Option<DiscoveryError>)
    requires Coherent(q.test)
    ensures (entries, err) == Discover(q)
  {
    match q.tree.stat(q.base)
    case None => return [], Some(StatFailed(q.base));
    case Some(isDir) =>
      if !isDir {
        return [], Some(NotADirectory(q.base));
      }
      var w := new Walker(q);
      w.Walk(q.base, "", 0, []);
      entries, err := w.entries, w.firstErr;
      assert entries == Entries(q, Visited(q, []));
  }
}
