/** A discovery told by the tree and the pattern alone: which directories become entries, in
    which order, under which path and labels, and which read failure is reported. */
module DiscoveryMeaning {
  import opened Wrappers
  import opened Text
  import opened Paths
  import opened Pattern
  import opened FileSystem
  import opened Records
  import opened Preorder
  import opened Selection
  import opened Discovery
  import opened DiscoveryTheorems

  // ---- the path of an entry --------------------------------------------------------------------------

  /** The path of names below a cleaned base. */
  function PathText(base: string, names: seq<string>): string {
    if names == [] then base
    else if base == "." then Join(names, '/')
    else if base == "/" then "/" + Join(names, '/')
    else base + "/" + Join(names, '/')
  }

  /** A cleaned path with elements is neither the current directory nor the root. */
  lemma NotBare(c: Cleaned)
    requires Canonical(c) && c.elements != []
    ensures Render(c) != "." && Render(c) != "/"
  {
    if Render(c) == Render(Cleaned(false, [])) {
      RenderInjective(c, Cleaned(false, []));
      assert false;
    }
    if Render(c) == Render(Cleaned(true, [])) {
      RenderInjective(c, Cleaned(true, []));
      assert false;
    }
  }

  lemma RenderedBelow(c: Cleaned, names: seq<string>)
    requires c.elements != [] && names != []
    ensures Render(Cleaned(c.rooted, c.elements + names)) == Render(c) + "/" + Join(names, '/')
  {
    JoinConcat(c.elements, names, '/');
    var body, below := Join(c.elements, '/'), Join(names, '/');
    assert Join(c.elements + names, '/') == body + "/" + below;
    if c.rooted {
      assert "/" + (body + "/" + below) == ("/" + body) + "/" + below;
    } else {
      assert c.elements + names != [];
    }
  }

  lemma RenderedBelowBare(c: Cleaned, names: seq<string>)
    requires c.elements == [] && names != []
    ensures Render(Cleaned(c.rooted, c.elements + names)) == PathText(Render(c), names)
  {
    assert c.elements + names == names;
    assert Render(c) == if c.rooted then "/" else ".";
  }

  lemma PathIsText(base: string, names: seq<string>)
    requires GoodNames(names)
    ensures PathOf(Clean(base), names) == PathText(Clean(base), names)
  {
    var c := Analyse(base);
    AnalyseCanonical(base);
    if names != [] {
      PathOfForm(c, names);
      if c.elements == [] {
        RenderedBelowBare(c, names);
      } else {
        NotBare(c);
        RenderedBelow(c, names);
      }
    }
  }

  // ---- the labels of an entry ----------------------------------------------------------------------------

  /** Segments whose component is shown in the type label. */
  predicate Shown(segment: string) {
    '*' in segment || '?' in segment || '[' in segment || segment == "#include"
  }

  function ShownBelow(segments: seq<string>, first: nat): nat -> bool {
    (k: nat) => first <= k < |segments| && Shown(segments[k])
  }

  lemma {:induction false} KeptIsShown(segments: seq<string>, parts: seq<string>) returns (ks: seq<nat>)
    requires |segments| == |parts|
    ensures Selects(ks, |parts|, ShownBelow(segments, 0)) && InRange(ks, |parts|)
    ensures KeptParts(segments, parts) == At(parts, ks)
  {
    ks := [];
    if parts != [] {
      var rest := KeptIsShown(segments[1..], parts[1..]);
      ks := From(Shown(segments[0]), rest);
      FromSelects(rest, |parts| - 1, ShownBelow(segments[1..], 0), ShownBelow(segments, 0));
      FromAt(Shown(segments[0]), parts[0], parts[1..], rest);
      assert [parts[0]] + parts[1..] == parts;
    }
  }

  /** The type label of a path: without a pattern its names after the first, with one those of them
      that face a segment to be shown. */
  ghost predicate IsType(kind: string, pattern: string, names: seq<string>)
    requires names != []
  {
    if pattern == "" then kind == Join(names[1..], '/')
    else exists ks ::
      && Selects(ks, |names|, ShownBelow(Split(Trim(pattern, '/'), '/'), 1)) && InRange(ks, |names|)
      && kind == Join(At(names, ks), '/')
  }

  lemma TypeUnique(kind: string, other: string, pattern: string, names: seq<string>)
    requires names != [] && IsType(kind, pattern, names) && IsType(other, pattern, names)
    ensures kind == other
  {
    if pattern != "" {
      var p := ShownBelow(Split(Trim(pattern, '/'), '/'), 1);
      var ks :| Selects(ks, |names|, p) && InRange(ks, |names|) && kind == Join(At(names, ks), '/');
      var js :| Selects(js, |names|, p) && InRange(js, |names|) && other == Join(At(names, js), '/');
      SelectionUnique(ks, js, |names|, p);
    }
  }

  /** The entry of a directory: its path below the base, the target's label, the first name as the
      stream, and its type. */
  ghost predicate NamedAfter(e: WatchEntry, base: string, baseLabel: string, pattern: string, names: seq<string>)
    requires names != []
  {
    && e.absPath == PathText(Clean(base), names)
    && e.labels.base == baseLabel && e.labels.stream == names[0] && IsType(e.labels.kind, pattern, names)
  }

  lemma KeptAt(segments: seq<string>, names: seq<string>) returns (ks: seq<nat>)
    requires names != [] && |names| == |segments|
    ensures Selects(ks, |names|, ShownBelow(segments, 1)) && InRange(ks, |names|)
    ensures KeptParts(segments[1..], names[1..]) == At(names, ks)
  {
    var rest := KeptIsShown(segments[1..], names[1..]);
    ks := From(false, rest);
    FromSelects(rest, |names| - 1, ShownBelow(segments[1..], 0), ShownBelow(segments, 1));
    FromAt(false, names[0], names[1..], rest);
    assert [names[0]] + names[1..] == names;
    assert [] + At(names[1..], rest) == At(names[1..], rest);
  }

  lemma TypeFound(pattern: string, included: seq<string>, baseLabel: string, names: seq<string>)
    requires names != [] && (pattern != "" ==> |names| == |Segments(pattern)|)
    ensures IsType(LabelsOf(baseLabel, MatcherFor(pattern, included).segments, names).kind, pattern, names)
  {
    if pattern != "" {
      var ks := KeptAt(Segments(pattern), names);
    }
  }

  // ---- which directories -----------------------------------------------------------------------------------

  /** No directory on the path is one of those above it; a base that does not resolve stands for
      itself. */
  predicate Acyclic(tree: Tree, base: string, n: seq<string>) {
    forall j, k :: 0 <= j < k <= |n| && tree.resolve(PathOf(base, n[..k])).Some? ==>
      var above := tree.resolve(PathOf(base, n[..j]));
      && above != tree.resolve(PathOf(base, n[..k]))
      && (j == 0 && above.None? ==> tree.resolve(PathOf(base, n[..k])) != Some(base))
  }

  /** A directory the walk can come to: listed from the base down, without entering a cycle. */
  predicate Reachable(tree: Tree, base: string, n: seq<string>) {
    DirectoryPath(tree, base, n) && Acyclic(tree, base, n)
  }

  /** Each name is accepted by its segment. */
  predicate FitsFront(pattern: string, n: seq<string>, included: seq<string>) {
    var segments := Split(Trim(pattern, '/'), '/');
    |n| <= |segments| && forall i :: 0 <= i < |n| ==> Accepted(segments[i], n[i], included)
  }

  predicate FitsPattern(pattern: string, n: seq<string>, included: seq<string>) {
    pattern == "" || (|n| == |Split(Trim(pattern, '/'), '/')| && FitsFront(pattern, n, included))
  }

  /** What discovery is to report. */
  predicate Wanted(tree: Tree, base: string, maxDepth: int, pattern: string, included: seq<string>, n: seq<string>) {
    1 <= |n| <= maxDepth && Reachable(tree, base, n) && FitsPattern(pattern, n, included)
  }

  lemma PathIsGood(tree: Tree, base: string, n: seq<string>)
    requires DirectoryPath(tree, base, n)
    ensures GoodNames(n)
  {
    forall k | 0 <= k < |n| ensures GoodName(n[k]) {
      assert Listed(tree, base, n[..k], n[k]);
      match tree.readDir(PathOf(base, n[..k]))
      case Some(list) =>
        var d :| d in list && d.name == n[k];
        var i :| 0 <= i < |list| && list[i] == d;
    }
  }

  lemma AcyclicSame(tree: Tree, base: string, n: seq<string>)
    ensures NoRepeatedReal(tree, base, n) <==> Acyclic(tree, base, n)
  {
    forall j, k | 0 <= j < k <= |n|
      ensures RealAt(tree, base, n[..k]) == tree.resolve(PathOf(base, n[..k]))
      ensures RealAt(tree, base, n[..j])
              == var r := tree.resolve(PathOf(base, n[..j])); if j == 0 && r.None? then Some(base) else r
    {
    }
    if NoRepeatedReal(tree, base, n) {
      forall j, k | 0 <= j < k <= |n| && tree.resolve(PathOf(base, n[..k])).Some?
        ensures RealAt(tree, base, n[..j]) != RealAt(tree, base, n[..k])
      {
      }
    }
  }

  lemma VisitedMeaning(tree: Tree, base: string, baseLabel: string, maxDepth: int, pattern: string,
                       included: seq<string>, n: seq<string>)
    ensures n in Visited(QueryFor(tree, base, baseLabel, maxDepth, pattern, included), [])
            <==> |n| <= maxDepth && Reachable(tree, base, n)
  {
    VisitedIff(QueryFor(tree, base, baseLabel, maxDepth, pattern, included), n);
    AcyclicSame(tree, base, n);
  }

  lemma AcceptsMeaning(q: Query, pattern: string, included: seq<string>, n: seq<string>)
    requires q.test == MatcherFor(pattern, included) && GoodNames(n)
    ensures Accepts(q, n) <==> n != [] && FitsPattern(pattern, n, included)
    ensures Reaches(q, n) <==> n == [] || pattern == "" || FitsFront(pattern, n, included)
  {
    if n != [] && pattern != "" {
      PatternMeaning(pattern, n, included);
      PrefixMeaning(pattern, n, included);
    }
  }

  // ---- in which order ----------------------------------------------------------------------------------------

  predicate ListedBefore(list: seq<DirEntry>, x: string, y: string) {
    exists i, j :: 0 <= i < j < |list| && list[i].name == x && list[j].name == y
  }

  /** p and n part below their first k names, p by the entry that is listed earlier. */
  predicate PartsEarlier(tree: Tree, base: string, p: seq<string>, n: seq<string>, k: nat) {
    && k < |p| && k < |n| && p[..k] == n[..k]
    && match tree.readDir(PathOf(base, p[..k]))
       case None => false
       case Some(list) => ListedBefore(list, p[k], n[k])
  }

  /** p is met before n: it leads to n, or the two part and p goes by the earlier entry. */
  predicate MetBefore(tree: Tree, base: string, p: seq<string>, n: seq<string>) {
    (|p| < |n| && p <= n) || exists k: nat :: k < |p| && PartsEarlier(tree, base, p, n, k)
  }

  lemma {:induction false} KidNamesOrdered(
      tree: Tree, base: string, names: seq<string>, list: seq<DirEntry>, a: nat, b: nat)
    requires a < b < |KidNames(tree, base, names, list)|
    ensures var kids := KidNames(tree, base, names, list); ListedBefore(list, kids[a], kids[b])
  {
    var kids, later := KidNames(tree, base, names, list), KidNames(tree, base, names, list[1..]);
    if Descends(tree, base, names, list[0]) {
      assert kids == [list[0].name] + later;
      if a == 0 {
        assert kids[b] == later[b - 1] && later[b - 1] in later;
        KidNamesMember(tree, base, names, list[1..], kids[b]);
        var d :| d in list[1..] && d.name == kids[b];
        var j :| 0 <= j < |list[1..]| && list[1..][j] == d;
        assert list[j + 1].name == kids[b];
      } else {
        assert kids[a] == later[a - 1] && kids[b] == later[b - 1];
        KidNamesOrdered(tree, base, names, list[1..], a - 1, b - 1);
        LaterListed(list, kids[a], kids[b]);
      }
    } else {
      assert kids == later;
      KidNamesOrdered(tree, base, names, list[1..], a, b);
      LaterListed(list, kids[a], kids[b]);
    }
  }

  lemma LaterListed(list: seq<DirEntry>, x: string, y: string)
    requires list != [] && ListedBefore(list[1..], x, y)
    ensures ListedBefore(list, x, y)
  {
    var i, j :| 0 <= i < j < |list[1..]| && list[1..][i].name == x && list[1..][j].name == y;
    assert list[i + 1].name == x && list[j + 1].name == y;
  }

  lemma PrecedesIsMet(tree: Tree, base: string, p: seq<string>, n: seq<string>)
    requires Precedes(KidsOf(tree, base), p, n)
    ensures MetBefore(tree, base, p, n)
  {
    if k: nat :| k < |p| && PartsAt(KidsOf(tree, base), p, n, k) {
      var kids := KidsOf(tree, base)(p[..k]);
      var a, b :| 0 <= a < b < |kids| && kids[a] == p[k] && kids[b] == n[k];
      match tree.readDir(PathOf(base, p[..k]))
      case None =>
      case Some(list) =>
        KidNamesOrdered(tree, base, p[..k], list, a, b);
        assert PartsEarlier(tree, base, p, n, k);
    }
  }

  predicate InWalkOrder(tree: Tree, base: string, ns: seq<seq<string>>) {
    forall i, j :: 0 <= i < j < |ns| ==> MetBefore(tree, base, ns[i], ns[j])
  }

  lemma ListedInOrder(tree: Tree, base: string, ns: seq<seq<string>>)
    requires InPreorder(KidsOf(tree, base), ns)
    ensures InWalkOrder(tree, base, ns)
  {
    forall i, j | 0 <= i < j < |ns| ensures MetBefore(tree, base, ns[i], ns[j]) {
      PrecedesIsMet(tree, base, ns[i], ns[j]);
    }
  }

  lemma VisitedInOrder(q: Query)
    ensures InWalkOrder(q.tree, q.base, Visited(q, []))
  {
    if q.maxDepth >= 0 {
      EnumerateIsUnder(q.tree, q.base, [], q.maxDepth);
      UnderOrdered(KidsOf(q.tree, q.base), [], q.maxDepth);
      ListedInOrder(q.tree, q.base, Under(KidsOf(q.tree, q.base), [], q.maxDepth));
    }
  }

  // ---- the entries -----------------------------------------------------------------------------------------------

  /** The accepted paths among some. */
  function Chosen(q: Query, nodes: seq<seq<string>>): seq<seq<string>> {
    if nodes == [] then []
    else (if Accepts(q, nodes[0]) then [nodes[0]] else []) + Chosen(q, nodes[1..])
  }

  lemma {:induction false} ChosenMember(q: Query, nodes: seq<seq<string>>, n: seq<string>)
    ensures n in Chosen(q, nodes) <==> n in nodes && Accepts(q, n)
  {
    if nodes != [] {
      ChosenMember(q, nodes[1..], n);
      assert nodes == [nodes[0]] + nodes[1..];
    }
  }

  lemma {:induction false} ChosenInOrder(q: Query, nodes: seq<seq<string>>)
    requires InWalkOrder(q.tree, q.base, nodes)
    ensures InWalkOrder(q.tree, q.base, Chosen(q, nodes))
  {
    if nodes != [] {
      var rest := Chosen(q, nodes[1..]);
      ChosenInOrder(q, nodes[1..]);
      forall j | 0 <= j < |rest| ensures MetBefore(q.tree, q.base, nodes[0], rest[j]) {
        ChosenMember(q, nodes[1..], rest[j]);
        var i :| 0 <= i < |nodes[1..]| && nodes[1..][i] == rest[j];
        assert nodes[i + 1] == rest[j];
      }
    }
  }

  lemma {:induction false} EntriesAreChosen(q: Query, nodes: seq<seq<string>>)
    ensures |Entries(q, nodes)| == |Chosen(q, nodes)|
    ensures forall i :: 0 <= i < |Chosen(q, nodes)| ==>
              Chosen(q, nodes)[i] != [] && Entries(q, nodes)[i] == EntryOf(q, Chosen(q, nodes)[i])
  {
    if nodes != [] {
      EntriesAreChosen(q, nodes[1..]);
    }
  }

  lemma EntryNamed(tree: Tree, base: string, baseLabel: string, maxDepth: int, pattern: string,
                   included: seq<string>, n: seq<string>)
    requires Wanted(tree, Clean(base), maxDepth, pattern, included, n)
    ensures NamedAfter(EntryOf(QueryFor(tree, Clean(base), baseLabel, maxDepth, pattern, included), n),
                       base, baseLabel, pattern, n)
  {
    PathIsGood(tree, Clean(base), n);
    PathIsText(base, n);
    TypeFound(pattern, included, baseLabel, n);
  }

  lemma WantedIsChosen(tree: Tree, base: string, baseLabel: string, maxDepth: int, pattern: string,
                       included: seq<string>, n: seq<string>)
    ensures var q := QueryFor(tree, base, baseLabel, maxDepth, pattern, included);
            n in Chosen(q, Visited(q, [])) <==> Wanted(tree, base, maxDepth, pattern, included, n)
  {
    var q := QueryFor(tree, base, baseLabel, maxDepth, pattern, included);
    ChosenMember(q, Visited(q, []), n);
    VisitedMeaning(tree, base, baseLabel, maxDepth, pattern, included, n);
    if DirectoryPath(tree, base, n) {
      PathIsGood(tree, base, n);
      AcceptsMeaning(q, pattern, included, n);
    }
  }

  /** The whole result for a base that is a directory: ns are the directories to report, all of them
      and each once, in the order of the walk, and the i-th entry is named after the i-th. */
  lemma DiscoveryIs(
      tree: Tree, base: string, baseLabel: string, maxDepth: int, pattern: string, included: seq<string>)
    returns (ns: seq<seq<string>>)
    requires tree.stat(Clean(base)) == Some(true)
    ensures forall n :: n in ns <==> Wanted(tree, Clean(base), maxDepth, pattern, included, n)
    ensures InWalkOrder(tree, Clean(base), ns) && Distinct(ns)
    ensures var entries := Discover(QueryFor(tree, Clean(base), baseLabel, maxDepth, pattern, included)).0;
            && |entries| == |ns|
            && forall i :: 0 <= i < |ns| ==> ns[i] != [] && NamedAfter(entries[i], base, baseLabel, pattern, ns[i])
  {
    var q := QueryFor(tree, Clean(base), baseLabel, maxDepth, pattern, included);
    ns := Chosen(q, Visited(q, []));
    forall n ensures n in ns <==> Wanted(tree, Clean(base), maxDepth, pattern, included, n) {
      WantedIsChosen(tree, Clean(base), baseLabel, maxDepth, pattern, included, n);
    }
    VisitedInOrder(q);
    ChosenInOrder(q, Visited(q, []));
    EntriesAreChosen(q, Visited(q, []));
    forall i | 0 <= i < |ns| ensures NamedAfter(EntryOf(q, ns[i]), base, baseLabel, pattern, ns[i]) {
      assert ns[i] in ns;
      EntryNamed(tree, base, baseLabel, maxDepth, pattern, included, ns[i]);
    }
    if q.maxDepth >= 0 {
      EnumerateDistinct(tree, q.base, [], maxDepth);
    }
    ChosenDistinct(q, Visited(q, []));
  }

  lemma {:induction false} ChosenDistinct(q: Query, nodes: seq<seq<string>>)
    requires Distinct(nodes)
    ensures Distinct(Chosen(q, nodes))
  {
    if nodes != [] {
      ChosenDistinct(q, nodes[1..]);
      ChosenMember(q, nodes[1..], nodes[0]);
      if Accepts(q, nodes[0]) {
        DistinctConcat([nodes[0]], Chosen(q, nodes[1..]));
      } else {
        assert Chosen(q, nodes) == Chosen(q, nodes[1..]);
      }
    }
  }

  // ---- the error ---------------------------------------------------------------------------------------------

  /** A directory that would have been read and cannot be: above the depth limit, and either there
      is no pattern or the names so far may be on the way to a match. */
  predicate FailsToRead(
      tree: Tree, base: string, maxDepth: int, pattern: string, included: seq<string>, n: seq<string>)
  {
    && |n| < maxDepth && Reachable(tree, base, n)
    && (n == [] || pattern == "" || FitsFront(pattern, n, included)) && tree.readDir(PathOf(base, n)).None?
  }

  lemma {:induction false} FirstReadError(q: Query, nodes: seq<seq<string>>) returns (i: nat)
    ensures i <= |nodes| && (forall j :: 0 <= j < i ==> ErrorFor(q, nodes[j]) == [])
    ensures i == |nodes| ==> ReadErrors(q, nodes) == []
    ensures i < |nodes| ==> ErrorFor(q, nodes[i]) != [] && ReadErrors(q, nodes) != []
                            && ReadErrors(q, nodes)[0] == ReadFailed(PathOf(q.base, nodes[i]))
  {
    i := 0;
    if nodes != [] && ErrorFor(q, nodes[0]) == [] {
      var k := FirstReadError(q, nodes[1..]);
      assert forall j :: 1 <= j < |nodes| ==> nodes[j] == nodes[1..][j - 1];
      i := k + 1;
    }
  }

  lemma FailsIff(tree: Tree, base: string, baseLabel: string, maxDepth: int, pattern: string,
                 included: seq<string>, n: seq<string>)
    ensures var q := QueryFor(tree, base, baseLabel, maxDepth, pattern, included);
            n in Visited(q, []) && ErrorFor(q, n) != []
            <==> FailsToRead(tree, base, maxDepth, pattern, included, n)
  {
    var q := QueryFor(tree, base, baseLabel, maxDepth, pattern, included);
    VisitedMeaning(tree, base, baseLabel, maxDepth, pattern, included, n);
    if DirectoryPath(tree, base, n) {
      PathIsGood(tree, base, n);
      AcceptsMeaning(q, pattern, included, n);
    }
  }

  /** p is the path of the read failure that the walk meets first. */
  ghost predicate FirstFailure(
      tree: Tree, base: string, maxDepth: int, pattern: string, included: seq<string>, n: seq<string>)
  {
    && FailsToRead(tree, base, maxDepth, pattern, included, n)
    && forall m :: FailsToRead(tree, base, maxDepth, pattern, included, m) && m != n ==> MetBefore(tree, base, n, m)
  }

  lemma FirstFails(q: Query, pattern: string, included: seq<string>, nodes: seq<seq<string>>, i: nat)
    requires InWalkOrder(q.tree, q.base, nodes)
    requires forall m :: m in nodes && ErrorFor(q, m) != []
                         <==> FailsToRead(q.tree, q.base, q.maxDepth, pattern, included, m)
    requires i < |nodes| && ErrorFor(q, nodes[i]) != [] && forall j :: 0 <= j < i ==> ErrorFor(q, nodes[j]) == []
    ensures FirstFailure(q.tree, q.base, q.maxDepth, pattern, included, nodes[i])
  {
    assert nodes[i] in nodes;
    forall m | FailsToRead(q.tree, q.base, q.maxDepth, pattern, included, m) && m != nodes[i]
      ensures MetBefore(q.tree, q.base, nodes[i], m)
    {
      var j :| 0 <= j < |nodes| && nodes[j] == m;
    }
  }

  lemma NothingFails(q: Query, pattern: string, included: seq<string>, nodes: seq<seq<string>>)
    requires forall m :: m in nodes && ErrorFor(q, m) != []
                         <==> FailsToRead(q.tree, q.base, q.maxDepth, pattern, included, m)
    requires forall j :: 0 <= j < |nodes| ==> ErrorFor(q, nodes[j]) == []
    ensures forall n :: !FailsToRead(q.tree, q.base, q.maxDepth, pattern, included, n)
  {
  }

  /** The error of a discovery: a base that does not stat or is no directory, else the first of the
      read failures, if there is one. */
  lemma ErrorMeaning(
      tree: Tree, base: string, baseLabel: string, maxDepth: int, pattern: string, included: seq<string>)
    ensures var path := Clean(base);
            var err := Discover(QueryFor(tree, path, baseLabel, maxDepth, pattern, included)).1;
            match tree.stat(path)
            case None => err == Some(StatFailed(path))
            case Some(false) => err == Some(NotADirectory(path))
            case Some(true) =>
              || (err == None && forall n :: !FailsToRead(tree, path, maxDepth, pattern, included, n))
              || exists n :: FirstFailure(tree, path, maxDepth, pattern, included, n)
                             && err == Some(ReadFailed(PathText(path, n)))
  {
    var path := Clean(base);
    var q := QueryFor(tree, path, baseLabel, maxDepth, pattern, included);
    if tree.stat(path) == Some(true) {
      var nodes := Visited(q, []);
      var i := FirstReadError(q, nodes);
      forall m ensures m in nodes && ErrorFor(q, m) != [] <==> FailsToRead(tree, path, maxDepth, pattern, included, m) {
        FailsIff(tree, path, baseLabel, maxDepth, pattern, included, m);
      }
      if i < |nodes| {
        VisitedInOrder(q);
        FirstFails(q, pattern, included, nodes, i);
        PathIsGood(tree, path, nodes[i]);
        PathIsText(base, nodes[i]);
      } else {
        NothingFails(q, pattern, included, nodes);
      }
    }
  }
}
