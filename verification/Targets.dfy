/** discoverTargets, discoverTarget and resolveExplicitDirs (watchlist.go). */
module Targets {
  import opened Wrappers
  import opened Text
  import opened Paths
  import opened Glob
  import opened Pattern
  import opened FileSystem
  import opened Records
  import opened Discovery
  import opened DiscoveryTheorems

  // ---- explicit directories -----------------------------------------------------------

  function ExplicitLabels(baseLabel: string, rel: string): DirLabels {
    var parts := Split(rel, '/');
    DirLabels(baseLabel, parts[0], Join(parts[1..], '/'))
  }

  function ExplicitEntry(base: string, baseLabel: string, rel: string): WatchEntry {
    WatchEntry(JoinPath(base, rel), ExplicitLabels(baseLabel, rel))
  }

  /** The cleaned paths in order of first occurrence, those already seen left out. */
  function FreshRels(dirs: seq<string>, seen: set<string>): seq<string> {
    if dirs == [] then []
    else
      var rel := Clean(dirs[0]);
      if rel in seen then FreshRels(dirs[1..], seen) else [rel] + FreshRels(dirs[1..], seen + {rel})
  }

  function ExplicitEntries(base: string, baseLabel: string, rels: seq<string>): seq<WatchEntry> {
    seq(|rels|, i requires 0 <= i < |rels| => ExplicitEntry(base, baseLabel, rels[i]))
  }

  /** resolveExplicitDirs. */
  method ResolveExplicitDirs(base: string, baseLabel: string, dirs: seq<string>) returns (entries: seq<WatchEntry>)
    ensures entries == ExplicitEntries(base, baseLabel, FreshRels(dirs, {}))
  {
    entries := [];
    var seen: set<string> := {};
    ghost var rels: seq<string> := [];
    assert dirs[0..] == dirs;
    for i := 0 to |dirs|
      invariant rels + FreshRels(dirs[i..], seen) == FreshRels(dirs, {})
      invariant entries == ExplicitEntries(base, baseLabel, rels)
    {
      assert dirs[i..][1..] == dirs[i + 1..];
      var rel := Clean(dirs[i]);
      if rel in seen {
        continue;
      }
      ghost var later := FreshRels(dirs[i + 1..], seen + {rel});
      assert rels + ([rel] + later) == (rels + [rel]) + later;
      seen := seen + {rel};
      rels := rels + [rel];
      var parts := Split(rel, '/');
      var labels := DirLabels(baseLabel, parts[0], "");
      if |parts| != 1 {
        labels := labels.(kind := Join(parts[1..], '/'));
      }
      entries := entries + [WatchEntry(JoinPath(base, rel), labels)];
    }
    assert rels == rels + FreshRels(dirs[|dirs|..], seen);
  }

  lemma {:induction false} FreshRelsDistinct(dirs: seq<string>, seen: set<string>)
    ensures Distinct(FreshRels(dirs, seen))
    ensures forall r :: r in FreshRels(dirs, seen) <==> r !in seen && exists d :: d in dirs && Clean(d) == r
  {
    if dirs != [] {
      var rel := Clean(dirs[0]);
      FreshRelsDistinct(dirs[1..], seen + {rel});
      FreshRelsDistinct(dirs[1..], seen);
      assert dirs == [dirs[0]] + dirs[1..];
      forall r ensures r in FreshRels(dirs, seen) <==> r !in seen && exists d :: d in dirs && Clean(d) == r {
        if d :| d in dirs && Clean(d) == r && r !in seen {
          assert d == dirs[0] || d in dirs[1..];
        }
      }
    }
  }

  /** A cleaned path is never empty and ends in a slash only when it is the root. */
  lemma CleanEnds(path: string)
    ensures var s := Clean(path); s != "" && (s[|s| - 1] == '/' ==> s == "/")
  {
    var c := Analyse(path);
    AnalyseCanonical(path);
    if c.elements != [] {
      ElementsEnd(c);
      var body := Join(c.elements, '/');
      assert c.rooted ==> ("/" + body)[|body|] == body[|body| - 1];
    }
  }

  lemma ElementsEnd(c: Cleaned)
    requires Canonical(c) && c.elements != []
    ensures var body := Join(c.elements, '/'); body != "" && body[|body| - 1] != '/'
  {
    var last := c.elements[|c.elements| - 1];
    assert GoodName(last) || last == "..";
    assert GoodName(c.elements[0]) || c.elements[0] == "..";
    JoinEnds(c.elements, '/');
    assert last[|last| - 1] in last;
  }

  lemma ExplicitLabelsInjective(baseLabel: string, d: string, e: string)
    requires ExplicitLabels(baseLabel, Clean(d)) == ExplicitLabels(baseLabel, Clean(e))
    ensures Clean(d) == Clean(e)
  {
    JoinSplit(Clean(d), '/');
    JoinSplit(Clean(e), '/');
    CleanEnds(d);
    CleanEnds(e);
    var p, n := Split(Clean(d), '/'), Split(Clean(e), '/');
    if |p| == 1 && |n| > 1 {
      assert false;
    } else if |n| == 1 && |p| > 1 {
      assert false;
    }
  }

  /** Explicit directories of one target keep distinct labels, and each listed directory
      appears once under its cleaned path. */
  lemma ExplicitLabelsDiffer(base: string, baseLabel: string, dirs: seq<string>)
    ensures var rels := FreshRels(dirs, {});
            var entries := ExplicitEntries(base, baseLabel, rels);
            && |entries| == |rels|
            && (forall i, j :: 0 <= i < j < |entries| ==> entries[i].labels != entries[j].labels)
            && (forall d :: d in dirs ==> Clean(d) in rels)
  {
    var rels := FreshRels(dirs, {});
    var entries := ExplicitEntries(base, baseLabel, rels);
    FreshRelsDistinct(dirs, {});
    forall i, j | 0 <= i < j < |entries| ensures entries[i].labels != entries[j].labels {
      assert rels[i] in rels && rels[j] in rels;
      var d :| d in dirs && Clean(d) == rels[i];
      var e :| e in dirs && Clean(e) == rels[j];
      if entries[i].labels == entries[j].labels {
        ExplicitLabelsInjective(baseLabel, d, e);
      }
    }
  }

  // ---- one target -------------------------------------------------------------------------

  function LabelFor(t: Target): string {
    if t.baseLabel == "" then Clean(t.base) else t.baseLabel
  }

  /** The depth of a target without an explicit one: its pattern's length, else 1. */
  function DepthFor(t: Target): int {
    if t.maxDepth != 0 then t.maxDepth
    else if t.pattern != "" then |Segments(t.pattern)|
    else 1
  }

  /** The whole-pattern check made before walking. */
  predicate PatternRefused(pattern: string) {
    pattern != "" && Match(ReplaceAll(pattern, "#include", "dummy"), "test").BadPattern?
  }

  function TargetQuery(tree: Tree, t: Target): Query {
    QueryFor(tree, Clean(t.base), LabelFor(t), DepthFor(t), t.pattern, t.included)
  }

  function TargetResult(tree: Tree, t: Target): (seq<WatchEntry>, Option<DiscoveryError>) {
    if t.dirs != [] then (ExplicitEntries(Clean(t.base), LabelFor(t), FreshRels(t.dirs, {})), None)
    else if PatternRefused(t.pattern) then ([], Some(InvalidPattern(t.pattern)))
    else Discover(TargetQuery(tree, t))
  }

  /** discoverTarget. */
  method DiscoverTarget(tree: Tree, t: Target) returns (entries: seq<WatchEntry>, err: Option<DiscoveryError>)
    ensures (entries, err) == TargetResult(tree, t)
  {
    var base := Clean(t.base);
    var name := t.baseLabel;
    if name == "" {
      name := base;
    }
    if |t.dirs| > 0 {
      entries := ResolveExplicitDirs(base, name, t.dirs);
      return entries, None;
    }
    if t.pattern != "" {
      if Match(ReplaceAll(t.pattern, "#include", "dummy"), "test").BadPattern? {
        return [], Some(InvalidPattern(t.pattern));
      }
    }
    var maxDepth := t.maxDepth;
    if maxDepth == 0 {
      if t.pattern != "" {
        var cleanPat := Trim(t.pattern, '/');
        if cleanPat != "" {
          maxDepth := |Split(cleanPat, '/')|;
        } else {
          maxDepth := 1;
        }
      } else {
        maxDepth := 1;
      }
    }
    CleanIdempotent(t.base);
    entries, err := DiscoverDirectories(tree, base, name, maxDepth, t.pattern, t.included);
  }

  // ---- all targets -----------------------------------------------------------------------------

  function AllEntries(tree: Tree, targets: seq<Target>): seq<WatchEntry> {
    if targets == [] then [] else TargetResult(tree, targets[0]).0 + AllEntries(tree, targets[1..])
  }

  function AllErrors(tree: Tree, targets: seq<Target>): seq<DiscoveryError> {
    if targets == [] then []
    else
      var err := TargetResult(tree, targets[0]).1;
      (if err.Some? then [err.value] else []) + AllErrors(tree, targets[1..])
  }

  lemma NextTarget(
      tree: Tree, targets: seq<Target>, i: nat, all: seq<WatchEntry>, held: Option<DiscoveryError>)
    requires i < |targets|
    ensures var (entries, err) := TargetResult(tree, targets[i]);
            && all + AllEntries(tree, targets[i..]) == (all + entries) + AllEntries(tree, targets[i + 1..])
            && FirstOf(held, AllErrors(tree, targets[i..]))
               == FirstOf(if held.None? then err else held, AllErrors(tree, targets[i + 1..]))
  {
    assert targets[i..][0] == targets[i] && targets[i..][1..] == targets[i + 1..];
    var (entries, err) := TargetResult(tree, targets[i]);
    ConcatAssociates(all, entries, AllEntries(tree, targets[i + 1..]));
    assert AllErrors(tree, targets[i..]) == (if err.Some? then [err.value] else []) + AllErrors(tree, targets[i + 1..]);
  }

  /** discoverTargets: a failing target hides neither the entries of the others nor the
      first error. */
  method DiscoverTargets(tree: Tree, targets: seq<Target>)
    returns (all: seq<WatchEntry>, firstErr: Option<DiscoveryError>)
    ensures all == AllEntries(tree, targets)
    ensures firstErr == FirstOf(None, AllErrors(tree, targets))
  {
    all, firstErr := [], None;
    assert targets[0..] == targets;
    for i := 0 to |targets|
      invariant all + AllEntries(tree, targets[i..]) == AllEntries(tree, targets)
      invariant FirstOf(firstErr, AllErrors(tree, targets[i..])) == FirstOf(None, AllErrors(tree, targets))
    {
      NextTarget(tree, targets, i, all, firstErr);
      var entries, err := DiscoverTarget(tree, targets[i]);
      if err.Some? && firstErr.None? {
        firstErr := err;
      }
      all := all + entries;
    }
    ConcatEmpty(all);
  }

  // ---- what a target promises ---------------------------------------------------------------------

  /** Whatever its kind, one target never yields two entries with the same labels. */
  lemma TargetLabelsDiffer(tree: Tree, t: Target)
    ensures var entries := TargetResult(tree, t).0;
            forall i, j :: 0 <= i < j < |entries| ==> entries[i].labels != entries[j].labels
  {
    if t.dirs != [] {
      ExplicitLabelsDiffer(Clean(t.base), LabelFor(t), t.dirs);
    } else if !PatternRefused(t.pattern) {
      DiscoveredLabelsAndPathsDiffer(tree, t.base, LabelFor(t), DepthFor(t), t.pattern, t.included);
    }
  }

  /** An auto-discovered target never yields two entries with the same path. */
  lemma TargetPathsDiffer(tree: Tree, t: Target)
    requires t.dirs == []
    ensures var entries := TargetResult(tree, t).0;
            forall i, j :: 0 <= i < j < |entries| ==> entries[i].absPath != entries[j].absPath
  {
    if !PatternRefused(t.pattern) {
      DiscoveredLabelsAndPathsDiffer(tree, t.base, LabelFor(t), DepthFor(t), t.pattern, t.included);
    }
  }

  lemma PathOfClean(base: string, names: seq<string>)
    requires names != []
    ensures Clean(PathOf(base, names)) == PathOf(base, names)
  {
    CleanIdempotent(PathOf(base, names[..|names| - 1]) + "/" + names[|names| - 1]);
  }

  lemma {:induction false} EntriesClean(q: Query, nodes: seq<seq<string>>)
    ensures forall e :: e in Entries(q, nodes) ==> Clean(e.absPath) == e.absPath
  {
    if nodes != [] {
      EntriesClean(q, nodes[1..]);
      if Accepts(q, nodes[0]) {
        PathOfClean(q.base, nodes[0]);
      }
    }
  }

  lemma ExplicitClean(base: string, baseLabel: string, rels: seq<string>)
    ensures forall e :: e in ExplicitEntries(base, baseLabel, rels) ==> Clean(e.absPath) == e.absPath
  {
    forall i | 0 <= i < |rels| ensures Clean(JoinPath(base, rels[i])) == JoinPath(base, rels[i]) {
      CleanIdempotent(base + "/" + rels[i]);
    }
  }

  /** Every watched path is in the cleaned form under which buffer counting looks it up. */
  lemma {:induction false} WatchedPathsAreClean(tree: Tree, targets: seq<Target>)
    ensures forall e :: e in AllEntries(tree, targets) ==> Clean(e.absPath) == e.absPath
  {
    if targets != [] {
      var t := targets[0];
      WatchedPathsAreClean(tree, targets[1..]);
      if t.dirs != [] {
        ExplicitClean(Clean(t.base), LabelFor(t), FreshRels(t.dirs, {}));
      } else if !PatternRefused(t.pattern) {
        var q := TargetQuery(tree, t);
        EntriesClean(q, Visited(q, []));
      }
    }
  }

  /** Leaving max_depth out of a target with a pattern finds what any larger depth finds. */
  lemma AutomaticDepthIsEnough(tree: Tree, t: Target, depth: int)
    requires t.pattern != "" && t.maxDepth == 0 && depth >= |Segments(t.pattern)|
    ensures TargetResult(tree, t).0 == TargetResult(tree, t.(maxDepth := depth)).0
  {
    if t.dirs == [] && !PatternRefused(t.pattern) {
      PatternDepthSaturates(tree, Clean(t.base), LabelFor(t), t.pattern, t.included, depth);
    }
  }

  /** The check on the whole pattern lets through patterns whose segments are malformed, and
      such a target silently watches nothing. */
  lemma AcceptedPatternMayWatchNothing(tree: Tree, t: Target)
    requires t.pattern == "[a/b]" && t.dirs == [] && tree.stat(Clean(t.base)) == Some(true)
    ensures !PatternRefused(t.pattern)
    ensures TargetResult(tree, t).0 == []
    ensures TargetResult(tree, t).1.Some? ==> TargetResult(tree, t).1.value.ReadFailed?
  {
    CheckPasses();
    SegmentsBroken();
    BrokenSegmentFindsNothing(tree, Clean(t.base), LabelFor(t), DepthFor(t), t.pattern, t.included, 0);
  }

  lemma CheckPasses()
    ensures !PatternRefused("[a/b]")
  {
    var p := "[a/b]";
    assert p[1..] == "a/b]" && p[2..] == "/b]" && p[3..] == "b]" && p[4..] == "]" && p[5..] == "";
    assert ReplaceAll(p[5..], "#include", "dummy") == p[5..];
    assert ReplaceAll(p[4..], "#include", "dummy") == p[4..];
    assert ReplaceAll(p[3..], "#include", "dummy") == p[3..];
    assert ReplaceAll(p[2..], "#include", "dummy") == p[2..];
    assert ReplaceAll(p[1..], "#include", "dummy") == p[1..];
    assert ReplaceAll(p, "#include", "dummy") == p;
    var r0, r1, r2 := Range('a', 'a'), Range('/', '/'), Range('b', 'b');
    assert ClassRanges("]", [r0, r1, r2]) == Some(ClassBody([r0, r1, r2], ""));
    assert ClassRanges("b]", [r0, r1]) == ClassRanges("]", [r0, r1] + [r2]);
    assert ClassRanges("/b]", [r0]) == ClassRanges("b]", [r0] + [r1]);
    assert ClassRanges("a/b]", []) == ClassRanges("/b]", [] + [r0]);
    assert Parse("") == Some([]);
    assert Parse(p).Some?;
  }

  lemma SegmentsBroken()
    ensures |Segments("[a/b]")| == 2 && BrokenSegment(Segments("[a/b]")[0])
  {
    var p := "[a/b]";
    TrimNothing(p, '/');
    SplitWord("b]", '/');
    SplitAfterWord("[a", "b]", '/');
    assert "[a" + ['/'] + "b]" == p;
    assert "[a"[1..] == "a";
    assert ClassRanges("a", []) == None;
  }
}
