/** What the discovery walk finds: exactly the acyclic matching directories, each once,
    under labels and paths of its own, and nothing more when it may look deeper. */
module DiscoveryTheorems {
  import opened Wrappers
  import opened Text
  import opened Paths
  import opened Glob
  import opened Pattern
  import opened FileSystem
  import opened Records
  import opened Discovery
  import opened Preorder

  // ---- the enumeration is the set of acyclic directory paths ---------------------------

  /** Some entry of the directory carries this name and is, or links to, a directory. */
  predicate Listed(tree: Tree, base: string, names: seq<string>, name: string) {
    var list := tree.readDir(PathOf(base, names));
    list.Some? && exists d :: d in list.value && d.name == name
                              && (d.isDir || (d.isSymlink && tree.stat(PathOf(base, names + [name])) == Some(true)))
  }

  /** Each component is listed as a directory in the one before it. */
  predicate DirectoryPath(tree: Tree, base: string, n: seq<string>) {
    forall k :: 0 <= k < |n| ==> Listed(tree, base, n[..k], n[k])
  }

  /** No two directories along the path resolve to the same real directory. */
  predicate NoRepeatedReal(tree: Tree, base: string, n: seq<string>) {
    forall j, k :: 0 <= j < k <= |n| && RealAt(tree, base, n[..j]).Some? && RealAt(tree, base, n[..k]).Some?
      ==> RealAt(tree, base, n[..j]) != RealAt(tree, base, n[..k])
  }

  /** One step of the enumeration. */
  predicate Enters(tree: Tree, base: string, names: seq<string>, name: string) {
    var list := tree.readDir(PathOf(base, names));
    list.Some? && exists d :: d in list.value && d.name == name && Descends(tree, base, names, d)
  }

  /** The stack of real paths holds exactly the identities of the prefixes. */
  lemma {:induction false} OnStackMeaning(tree: Tree, base: string, names: seq<string>, r: string)
    ensures r in OnStack(tree, base, names)
            <==> exists j :: 0 <= j <= |names| && RealAt(tree, base, names[..j]) == Some(r)
  {
    assert names[..|names|] == names;
    if names != [] {
      var front := names[..|names| - 1];
      OnStackMeaning(tree, base, front, r);
      if j :| 0 <= j <= |front| && RealAt(tree, base, front[..j]) == Some(r) {
        assert front[..j] == names[..j];
      }
      if j :| 0 <= j <= |names| && RealAt(tree, base, names[..j]) == Some(r) {
        if j < |names| {
          assert front[..j] == names[..j];
        }
      }
    }
  }

  /** The names of the entries a walk descends into. */
  function KidNames(tree: Tree, base: string, names: seq<string>, list: seq<DirEntry>): seq<string> {
    if list == [] then []
    else
      (if Descends(tree, base, names, list[0]) then [list[0].name] else [])
      + KidNames(tree, base, names, list[1..])
  }

  function KidsOf(tree: Tree, base: string): Kids {
    (names: Path) =>
      match tree.readDir(PathOf(base, names))
      case None => []
      case Some(list) => KidNames(tree, base, names, list)
  }

  /** The enumeration is the bounded preorder listing of those children. */
  lemma {:induction false} EnumerateIsUnder(tree: Tree, base: string, names: seq<string>, remaining: nat)
    ensures Enumerate(tree, base, names, remaining) == Under(KidsOf(tree, base), names, remaining)
    decreases remaining, 0
  {
    if remaining > 0 {
      match tree.readDir(PathOf(base, names))
      case None =>
        assert UnderAll(KidsOf(tree, base), names, remaining - 1, []) == [];
      case Some(list) =>
        ChildrenAreUnder(tree, base, names, remaining - 1, list);
        ListedUnfolds(tree, base, names, remaining, list);
    }
  }

  lemma ListedUnfolds(tree: Tree, base: string, names: seq<string>, remaining: nat, list: Listing)
    requires remaining > 0 && tree.readDir(PathOf(base, names)) == Some(list)
    ensures Enumerate(tree, base, names, remaining) == [names] + EnumerateChildren(tree, base, names, remaining - 1, list)
    ensures Under(KidsOf(tree, base), names, remaining)
            == [names] + UnderAll(KidsOf(tree, base), names, remaining - 1, KidNames(tree, base, names, list))
  {
    assert KidsOf(tree, base)(names) == KidNames(tree, base, names, list);
  }

  lemma {:induction false} ChildrenAreUnder(
      tree: Tree, base: string, names: seq<string>, remaining: nat, list: seq<DirEntry>)
    ensures EnumerateChildren(tree, base, names, remaining, list)
            == UnderAll(KidsOf(tree, base), names, remaining, KidNames(tree, base, names, list))
    decreases remaining, 1 + |list|
  {
    if list != [] {
      var rest := KidNames(tree, base, names, list[1..]);
      ChildrenAreUnder(tree, base, names, remaining, list[1..]);
      if Descends(tree, base, names, list[0]) {
        EnumerateIsUnder(tree, base, names + [list[0].name], remaining);
        assert ([list[0].name] + rest)[1..] == rest;
      } else {
        assert [] + rest == rest;
      }
    }
  }

  lemma {:induction false} KidNamesMember(tree: Tree, base: string, names: seq<string>, list: seq<DirEntry>, x: string)
    ensures x in KidNames(tree, base, names, list)
            <==> exists d :: d in list && d.name == x && Descends(tree, base, names, d)
  {
    if list != [] {
      KidNamesMember(tree, base, names, list[1..], x);
      assert list == [list[0]] + list[1..];
    }
  }

  lemma KidIffEnters(tree: Tree, base: string, names: seq<string>, x: string)
    ensures x in KidsOf(tree, base)(names) <==> Enters(tree, base, names, x)
  {
    match tree.readDir(PathOf(base, names))
    case None =>
    case Some(list) => KidNamesMember(tree, base, names, list, x);
  }

  lemma {:induction false} KidNamesDistinct(tree: Tree, base: string, names: seq<string>, list: seq<DirEntry>)
    requires ValidListing(list)
    ensures Distinct(KidNames(tree, base, names, list))
  {
    if list != [] {
      KidNamesDistinct(tree, base, names, list[1..]);
      KidNamesMember(tree, base, names, list[1..], list[0].name);
      if Descends(tree, base, names, list[0]) {
        DistinctConcat([list[0].name], KidNames(tree, base, names, list[1..]));
      }
    }
  }

  lemma KidsDistinct(tree: Tree, base: string)
    ensures forall p :: Distinct(KidsOf(tree, base)(p))
  {
    forall p ensures Distinct(KidsOf(tree, base)(p)) {
      match tree.readDir(PathOf(base, p))
      case None =>
      case Some(list) => KidNamesDistinct(tree, base, p, list);
    }
  }

  lemma EnumerateDistinct(tree: Tree, base: string, names: seq<string>, remaining: nat)
    ensures Distinct(Enumerate(tree, base, names, remaining))
  {
    EnumerateIsUnder(tree, base, names, remaining);
    KidsDistinct(tree, base);
    UnderDistinct(KidsOf(tree, base), names, remaining);
  }

  lemma EnumeratedIffEntered(tree: Tree, base: string, depth: nat, n: seq<string>)
    ensures n in Enumerate(tree, base, [], depth)
            <==> |n| <= depth && forall k :: 0 <= k < |n| ==> Enters(tree, base, n[..k], n[k])
  {
    EnumerateIsUnder(tree, base, [], depth);
    UnderMember(KidsOf(tree, base), [], depth, n);
    forall k | 0 <= k < |n| ensures n[k] in KidsOf(tree, base)(n[..k]) <==> Enters(tree, base, n[..k], n[k]) {
      KidIffEnters(tree, base, n[..k], n[k]);
    }
  }

  /** Entering is being listed and not being the real directory of any prefix. */
  lemma EntersMeaning(tree: Tree, base: string, n: seq<string>, k: nat)
    requires k < |n|
    ensures Enters(tree, base, n[..k], n[k])
            <==> Listed(tree, base, n[..k], n[k])
                 && forall j :: 0 <= j <= k && RealAt(tree, base, n[..j]).Some? && RealAt(tree, base, n[..k + 1]).Some?
                      ==> RealAt(tree, base, n[..j]) != RealAt(tree, base, n[..k + 1])
  {
    assert n[..k] + [n[k]] == n[..k + 1];
    var r := tree.resolve(PathOf(base, n[..k + 1]));
    assert RealAt(tree, base, n[..k + 1]) == r;
    assert forall j :: 0 <= j <= k ==> n[..k][..j] == n[..j];
    if r.Some? {
      OnStackMeaning(tree, base, n[..k], r.value);
    }
  }

  lemma NoRepeatUntil(tree: Tree, base: string, n: seq<string>)
    ensures DirectoryPath(tree, base, n) && NoRepeatedReal(tree, base, n)
            <==> forall k :: 0 <= k < |n| ==> Enters(tree, base, n[..k], n[k])
  {
    forall k | 0 <= k < |n|
      ensures Enters(tree, base, n[..k], n[k])
              <==> Listed(tree, base, n[..k], n[k])
                   && forall j :: 0 <= j <= k && RealAt(tree, base, n[..j]).Some? && RealAt(tree, base, n[..k + 1]).Some?
                        ==> RealAt(tree, base, n[..j]) != RealAt(tree, base, n[..k + 1])
    {
      EntersMeaning(tree, base, n, k);
    }
    if forall k :: 0 <= k < |n| ==> Enters(tree, base, n[..k], n[k]) {
      forall j, k | 0 <= j < k <= |n| && RealAt(tree, base, n[..j]).Some? && RealAt(tree, base, n[..k]).Some?
        ensures RealAt(tree, base, n[..j]) != RealAt(tree, base, n[..k])
      {
        assert Enters(tree, base, n[..k - 1], n[k - 1]);
      }
    }
  }

  /** Unpruned reference: the enumerated paths are exactly the listed directory paths within
      the depth on which no real directory repeats. */
  lemma EnumeratedIffAcyclic(tree: Tree, base: string, depth: nat, n: seq<string>)
    ensures n in Enumerate(tree, base, [], depth)
            <==> |n| <= depth && DirectoryPath(tree, base, n) && NoRepeatedReal(tree, base, n)
  {
    EnumeratedIffEntered(tree, base, depth, n);
    NoRepeatUntil(tree, base, n);
  }

  // ---- the entries ---------------------------------------------------------------------------

  lemma {:induction false} EntriesMember(q: Query, nodes: seq<seq<string>>, e: WatchEntry)
    ensures e in Entries(q, nodes) <==> exists n :: n in nodes && Accepts(q, n) && e == EntryOf(q, n)
  {
    if nodes != [] {
      EntriesMember(q, nodes[1..], e);
      assert nodes == [nodes[0]] + nodes[1..];
    }
  }

  /** A directory discovery should report: reachable without entering a cycle, within the
      depth, and matched in full. */
  predicate ShouldWatch(q: Query, n: seq<string>) {
    && 1 <= |n| <= q.maxDepth
    && DirectoryPath(q.tree, q.base, n) && NoRepeatedReal(q.tree, q.base, n)
    && q.test.full(RelPath(n)) == Matched(true)
  }

  /** Soundness and completeness of a discovery, for every tree, pattern and depth. */
  lemma DiscoversExactly(q: Query, e: WatchEntry)
    requires q.tree.stat(q.base) == Some(true)
    ensures e in Discover(q).0 <==> exists n :: ShouldWatch(q, n) && e == EntryOf(q, n)
  {
    EntriesMember(q, Visited(q, []), e);
    forall n ensures n in Visited(q, []) && Accepts(q, n) <==> ShouldWatch(q, n) {
      VisitedIff(q, n);
    }
  }

  lemma VisitedIff(q: Query, n: seq<string>)
    ensures n in Visited(q, []) <==>
              |n| <= q.maxDepth && DirectoryPath(q.tree, q.base, n) && NoRepeatedReal(q.tree, q.base, n)
  {
    if q.maxDepth >= 0 {
      EnumeratedIffAcyclic(q.tree, q.base, q.maxDepth, n);
    }
  }

  // ---- labels and paths tell directories apart -------------------------------------------------

  lemma {:induction false} KeptPartsSame(segments: seq<string>, p: seq<string>, n: seq<string>, included: seq<string>)
    requires |segments| == |p| == |n|
    requires forall i :: 0 <= i < |p| ==> SegmentOk(segments[i], p[i], included) && SegmentOk(segments[i], n[i], included)
    requires KeptParts(segments, p) == KeptParts(segments, n)
    ensures p == n
  {
    if p != [] {
      assert SegmentOk(segments[0], p[0], included) && SegmentOk(segments[0], n[0], included);
      var kp, kn := KeptParts(segments[1..], p[1..]), KeptParts(segments[1..], n[1..]);
      if HasMeta(segments[0]) || segments[0] == "#include" {
        assert ([p[0]] + kp)[0] == ([n[0]] + kn)[0];
        assert ([p[0]] + kp)[1..] == kp && ([n[0]] + kn)[1..] == kn;
      } else {
        NoMetaMatchesAtMostOne(segments[0], p[0], n[0]);
        assert [] + kp == kp && [] + kn == kn;
      }
      KeptPartsSame(segments[1..], p[1..], n[1..], included);
      assert p == [p[0]] + p[1..] && n == [n[0]] + n[1..];
    }
  }

  lemma {:induction false} KeptPartsShape(segments: seq<string>, p: seq<string>, n: seq<string>)
    requires |segments| == |p| == |n| && GoodNames(p)
    ensures |KeptParts(segments, p)| == |KeptParts(segments, n)|
    ensures GoodNames(KeptParts(segments, p))
  {
    if p != [] {
      KeptPartsShape(segments[1..], p[1..], n[1..]);
    }
  }

  lemma JoinGoodInjective(p: seq<string>, n: seq<string>)
    requires GoodNames(p) && GoodNames(n) && Join(p, '/') == Join(n, '/')
    ensures p == n
  {
    if p != [] {
      JoinEnds(p, '/');
    }
    if n != [] {
      JoinEnds(n, '/');
    }
    if p != [] && n != [] {
      JoinInjective(p, n, '/');
    }
  }

  /** Two accepted paths with the same stream and type are the same path, although literal
      pattern segments are left out of the type. */
  lemma LabelsInjective(baseLabel: string, pattern: string, included: seq<string>, p: seq<string>, n: seq<string>)
    requires GoodNames(p) && GoodNames(n) && p != [] && n != []
    requires MatchPattern(pattern, RelPath(p), included) == Matched(true)
    requires MatchPattern(pattern, RelPath(n), included) == Matched(true)
    requires var segments := MatcherFor(pattern, included).segments;
             LabelsOf(baseLabel, segments, p) == LabelsOf(baseLabel, segments, n)
    ensures p == n
  {
    assert p == [p[0]] + p[1..] && n == [n[0]] + n[1..];
    if pattern == "" {
      JoinGoodInjective(p[1..], n[1..]);
    } else {
      var segments := Segments(pattern);
      FullMatchSegments(pattern, p, included);
      FullMatchSegments(pattern, n, included);
      KeptPartsShape(segments[1..], p[1..], n[1..]);
      KeptPartsShape(segments[1..], n[1..], p[1..]);
      JoinGoodInjective(KeptParts(segments[1..], p[1..]), KeptParts(segments[1..], n[1..]));
      forall i | 0 <= i < |p[1..]|
        ensures SegmentOk(segments[1..][i], p[1..][i], included) && SegmentOk(segments[1..][i], n[1..][i], included)
      {
        assert SegmentOk(segments[i + 1], p[i + 1], included) && SegmentOk(segments[i + 1], n[i + 1], included);
      }
      KeptPartsSame(segments[1..], p[1..], n[1..], included);
    }
  }

  /** Below a cleaned base, PathOf appends the names to the base's elements. */
  lemma {:induction false} PathOfForm(c: Cleaned, names: seq<string>)
    requires Canonical(c) && GoodNames(names)
    ensures Canonical(Cleaned(c.rooted, c.elements + names))
    ensures PathOf(Render(c), names) == Render(Cleaned(c.rooted, c.elements + names))
  {
    if names == [] {
      assert c.elements + names == c.elements;
    } else {
      var front, last := names[..|names| - 1], names[|names| - 1];
      PathOfForm(c, front);
      assert GoodName(last);
      JoinPathSnoc(Cleaned(c.rooted, c.elements + front), last);
      assert front + [last] == names;
      ConcatAssociates(c.elements, front, [last]);
    }
  }

  /** Different directories below one base have different absolute paths. */
  lemma PathOfInjective(base: string, p: seq<string>, n: seq<string>)
    requires GoodNames(p) && GoodNames(n) && PathOf(Clean(base), p) == PathOf(Clean(base), n)
    ensures p == n
  {
    var c := Analyse(base);
    AnalyseCanonical(base);
    PathOfForm(c, p);
    PathOfForm(c, n);
    RenderInjective(Cleaned(c.rooted, c.elements + p), Cleaned(c.rooted, c.elements + n));
    assert (c.elements + p)[|c.elements|..] == p && (c.elements + n)[|c.elements|..] == n;
  }

  /** No two entries share their labels or their path. */
  predicate AllDifferent(entries: seq<WatchEntry>) {
    forall i, j :: 0 <= i < j < |entries| ==>
      entries[i].labels != entries[j].labels && entries[i].absPath != entries[j].absPath
  }

  lemma {:induction false} EntriesAllDifferent(
      tree: Tree, base: string, baseLabel: string, maxDepth: int, pattern: string, included: seq<string>,
      nodes: seq<seq<string>>)
    requires Distinct(nodes) && forall n :: n in nodes ==> GoodNames(n)
    ensures AllDifferent(Entries(QueryFor(tree, Clean(base), baseLabel, maxDepth, pattern, included), nodes))
  {
    var q := QueryFor(tree, Clean(base), baseLabel, maxDepth, pattern, included);
    if nodes != [] {
      EntriesAllDifferent(tree, base, baseLabel, maxDepth, pattern, included, nodes[1..]);
      var n, later := nodes[0], Entries(q, nodes[1..]);
      if Accepts(q, n) {
        forall e | e in later ensures e.labels != EntryOf(q, n).labels && e.absPath != EntryOf(q, n).absPath {
          EntriesMember(q, nodes[1..], e);
          var m :| m in nodes[1..] && Accepts(q, m) && e == EntryOf(q, m);
          if e.labels == EntryOf(q, n).labels {
            LabelsInjective(baseLabel, pattern, included, m, n);
          }
          if e.absPath == EntryOf(q, n).absPath {
            PathOfInjective(base, m, n);
          }
        }
      }
    }
  }

  /** One discovered target never yields two entries with equal labels or equal paths. */
  lemma DiscoveredLabelsAndPathsDiffer(
      tree: Tree, base: string, baseLabel: string, maxDepth: int, pattern: string, included: seq<string>)
    ensures AllDifferent(Discover(QueryFor(tree, Clean(base), baseLabel, maxDepth, pattern, included)).0)
  {
    var q := QueryFor(tree, Clean(base), baseLabel, maxDepth, pattern, included);
    if maxDepth >= 0 {
      EnumerateDistinct(tree, q.base, [], maxDepth);
      forall n | n in Visited(q, []) ensures GoodNames(n) {
        EnumerateBelow(tree, q.base, [], maxDepth, n);
      }
    }
    EntriesAllDifferent(tree, base, baseLabel, maxDepth, pattern, included, Visited(q, []));
  }

  // ---- looking deeper changes nothing ---------------------------------------------------------

  lemma {:induction false} NoEntries(q: Query, nodes: seq<seq<string>>)
    requires forall n :: n in nodes ==> !Accepts(q, n)
    ensures Entries(q, nodes) == []
  {
    if nodes != [] {
      assert nodes[0] in nodes;
      NoEntries(q, nodes[1..]);
    }
  }

  lemma {:induction false} EntriesUpto(q: Query, nodes: seq<seq<string>>, k: nat)
    requires forall n :: n in nodes && |n| > k ==> !Accepts(q, n)
    ensures Entries(q, nodes) == Entries(q, Upto(nodes, k))
  {
    if nodes != [] {
      assert nodes[0] in nodes;
      EntriesUpto(q, nodes[1..], k);
      var rest := Upto(nodes[1..], k);
      if |nodes[0]| <= k {
        assert ([nodes[0]] + rest)[1..] == rest;
      } else {
        assert [] + rest == rest && [] + Entries(q, rest) == Entries(q, rest);
      }
    }
  }

  lemma EntriesWithinPattern(q: Query, depth: nat)
    requires Coherent(q.test) && q.test.segments != []
    ensures var nodes := Enumerate(q.tree, q.base, [], depth);
            Entries(q, nodes) == Entries(q, Upto(nodes, |q.test.segments|))
  {
    var nodes := Enumerate(q.tree, q.base, [], depth);
    forall n | n in nodes && |n| > |q.test.segments| ensures !Accepts(q, n) {
      EnumerateBelow(q.tree, q.base, [], depth, n);
      assert Decides(q.test, n);
    }
    EntriesUpto(q, nodes, |q.test.segments|);
  }

  /** Past the pattern's length nothing is accepted, so looking there adds nothing. */
  lemma PatternBoundsDepth(q: Query, r: nat, s: nat)
    requires Coherent(q.test) && q.test.segments != []
    requires r >= |q.test.segments| && s >= |q.test.segments|
    ensures Entries(q, Enumerate(q.tree, q.base, [], r)) == Entries(q, Enumerate(q.tree, q.base, [], s))
  {
    EntriesWithinPattern(q, r);
    EntriesWithinPattern(q, s);
    EnumerateIsUnder(q.tree, q.base, [], r);
    EnumerateIsUnder(q.tree, q.base, [], s);
    UptoSame(KidsOf(q.tree, q.base), [], r, s, |q.test.segments|);
  }

  lemma {:induction false} EntriesIgnoreDepth(q: Query, depth: int, nodes: seq<seq<string>>)
    ensures Entries(q, nodes) == Entries(q.(maxDepth := depth), nodes)
  {
    if nodes != [] {
      EntriesIgnoreDepth(q, depth, nodes[1..]);
    }
  }

  /** Enumerations with the same entries give discoveries with the same entries. */
  lemma SameEntriesFound(q: Query, depth: nat)
    requires q.maxDepth >= 0
    requires Entries(q, Enumerate(q.tree, q.base, [], q.maxDepth)) == Entries(q, Enumerate(q.tree, q.base, [], depth))
    ensures Discover(q).0 == Discover(q.(maxDepth := depth)).0
  {
    var deeper := q.(maxDepth := depth);
    if q.tree.stat(q.base) == Some(true) {
      DiscoverIs(q);
      DiscoverIs(deeper);
      EntriesIgnoreDepth(q, depth, Enumerate(q.tree, q.base, [], depth));
    } else {
      assert Discover(q).0 == [] && Discover(deeper).0 == [];
    }
  }

  lemma DiscoverIs(q: Query)
    requires q.tree.stat(q.base) == Some(true) && q.maxDepth >= 0
    ensures Discover(q).0 == Entries(q, Enumerate(q.tree, q.base, [], q.maxDepth))
  {
  }

  /** With a pattern, every depth from the pattern's length up gives the same entries. */
  lemma PatternDepthSaturates(
      tree: Tree, base: string, baseLabel: string, pattern: string, included: seq<string>, depth: int)
    requires pattern != "" && depth >= |Segments(pattern)|
    ensures Discover(QueryFor(tree, base, baseLabel, depth, pattern, included)).0
            == Discover(QueryFor(tree, base, baseLabel, |Segments(pattern)|, pattern, included)).0
  {
    var q := QueryFor(tree, base, baseLabel, depth, pattern, included);
    MatcherCoherent(pattern, included);
    PatternBoundsDepth(q, depth, |Segments(pattern)|);
    SameEntriesFound(q, |Segments(pattern)|);
  }

  /** Every directory path below the base resolves, into the given set of real directories. */
  ghost predicate ResolvesInto(tree: Tree, base: string, reals: set<string>) {
    forall n :: GoodNames(n) && DirectoryPath(tree, base, n) ==>
      RealAt(tree, base, n).Some? && RealAt(tree, base, n).value in reals
  }

  /** The stack has one real directory for each level, so it fills up. */
  predicate FullStack(tree: Tree, base: string, names: seq<string>, reals: set<string>) {
    OnStack(tree, base, names) <= reals && |OnStack(tree, base, names)| == |names| + 1
  }

  lemma GoodChild(names: seq<string>, list: Listing, d: DirEntry)
    requires GoodNames(names) && d in list
    ensures GoodName(d.name) && GoodNames(names + [d.name])
  {
    var i :| 0 <= i < |list| && list[i] == d;
  }

  lemma DirectoryPathSnoc(tree: Tree, base: string, names: seq<string>, name: string)
    requires DirectoryPath(tree, base, names) && Listed(tree, base, names, name)
    ensures DirectoryPath(tree, base, names + [name])
  {
    var n := names + [name];
    forall k | 0 <= k < |n| ensures Listed(tree, base, n[..k], n[k]) {
      if k < |names| {
        assert n[..k] == names[..k] && Listed(tree, base, names[..k], names[k]);
      } else {
        assert n[..k] == names;
      }
    }
  }

  lemma EnteredChild(tree: Tree, base: string, names: seq<string>, d: DirEntry, list: Listing, reals: set<string>)
    requires ResolvesInto(tree, base, reals) && FullStack(tree, base, names, reals)
    requires GoodNames(names) && DirectoryPath(tree, base, names)
    requires tree.readDir(PathOf(base, names)) == Some(list) && d in list && Descends(tree, base, names, d)
    ensures GoodNames(names + [d.name]) && DirectoryPath(tree, base, names + [d.name])
    ensures FullStack(tree, base, names + [d.name], reals) && OnStack(tree, base, names) < reals
  {
    var n := names + [d.name];
    GoodChild(names, list, d);
    DirectoryPathSnoc(tree, base, names, d.name);
    assert n[..|names|] == names;
    var r := RealAt(tree, base, n).value;
    assert OnStack(tree, base, n) == OnStack(tree, base, names) + {r};
  }

  /** The directories of a tree whose real directories all lie in reals. */
  ghost function Within(tree: Tree, base: string, reals: set<string>): Path -> bool {
    (n: Path) => GoodNames(n) && DirectoryPath(tree, base, n) && FullStack(tree, base, n, reals)
  }

  /** A stack inside reals with one more real directory to come has not filled reals. */
  lemma RoomForOne(stack: set<string>, reals: set<string>)
    requires stack < reals
    ensures |stack| < |reals|
  {
    var r :| r in reals && r !in stack;
    assert r in reals - stack;
    assert reals == stack + (reals - stack);
    assert |reals| == |stack| + |reals - stack|;
  }

  lemma RealsBoundDepth(tree: Tree, base: string, reals: set<string>)
    requires ResolvesInto(tree, base, reals) && reals != {}
    ensures EndsBefore(KidsOf(tree, base), Within(tree, base, reals), |reals| - 1)
  {
    var good := Within(tree, base, reals);
    forall p, x | good(p) && x in KidsOf(tree, base)(p) ensures good(p + [x]) && |p| < |reals| - 1 {
      KidIffEnters(tree, base, p, x);
      var list := tree.readDir(PathOf(base, p)).value;
      var d :| d in list && d.name == x && Descends(tree, base, p, d);
      EnteredChild(tree, base, p, d, list, reals);
      RoomForOne(OnStack(tree, base, p), reals);
    }
  }

  lemma RealsBoundListing(tree: Tree, base: string, reals: set<string>, depth: nat, deeper: nat)
    requires ResolvesInto(tree, base, reals) && depth + 1 >= |reals| && deeper + 1 >= |reals|
    ensures Enumerate(tree, base, [], depth) == Enumerate(tree, base, [], deeper)
  {
    assert DirectoryPath(tree, base, []) && GoodNames([]);
    assert OnStack(tree, base, []) == {RealAt(tree, base, []).value};
    RealsBoundDepth(tree, base, reals);
    UnderSaturates(KidsOf(tree, base), Within(tree, base, reals), |reals| - 1, [], depth, deeper);
    EnumerateIsUnder(tree, base, [], depth);
    EnumerateIsUnder(tree, base, [], deeper);
  }

  /** When every directory resolves and there are N real ones, all depths from N - 1 up give
      the same entries: a cycle-free path cannot be longer. */
  lemma RealDirectoriesBoundDepth(
      tree: Tree, base: string, baseLabel: string, pattern: string, included: seq<string>,
      reals: set<string>, depth: nat, deeper: nat)
    requires ResolvesInto(tree, base, reals)
    requires depth + 1 >= |reals| && deeper + 1 >= |reals|
    ensures Discover(QueryFor(tree, base, baseLabel, depth, pattern, included)).0
            == Discover(QueryFor(tree, base, baseLabel, deeper, pattern, included)).0
  {
    RealsBoundListing(tree, base, reals, depth, deeper);
    SameEntriesFound(QueryFor(tree, base, baseLabel, depth, pattern, included), deeper);
  }

  // ---- patterns that fall apart ---------------------------------------------------------------

  /** A segment that is malformed on its own, #include excepted, matches nothing. */
  predicate BrokenSegment(segment: string) {
    segment != "#include" && Parse(segment).None?
  }

  /** A pattern with a malformed segment finds no directory anywhere, and the pattern is never
      reported: the only errors are of reading directories. */
  lemma BrokenSegmentFindsNothing(
      tree: Tree, base: string, baseLabel: string, maxDepth: int, pattern: string, included: seq<string>, i: nat)
    requires pattern != "" && i < |Segments(pattern)| && BrokenSegment(Segments(pattern)[i])
    requires tree.stat(base) == Some(true)
    ensures var found := Discover(QueryFor(tree, base, baseLabel, maxDepth, pattern, included));
            found.0 == [] && (found.1.Some? ==> found.1.value.ReadFailed?)
  {
    var q := QueryFor(tree, base, baseLabel, maxDepth, pattern, included);
    var nodes := Visited(q, []);
    forall n | n in nodes ensures !Accepts(q, n) {
      EnumerateBelow(tree, base, [], maxDepth, n);
      if n != [] {
        FullMatchSegments(pattern, n, included);
        if |n| == |Segments(pattern)| {
          assert !SegmentOk(Segments(pattern)[i], n[i], included);
        }
      }
    }
    NoEntries(q, nodes);
    ErrorsAreReads(q, nodes);
  }

  lemma {:induction false} ErrorsAreReads(q: Query, nodes: seq<seq<string>>)
    ensures forall e :: e in ReadErrors(q, nodes) ==> e.ReadFailed?
  {
    if nodes != [] {
      ErrorsAreReads(q, nodes[1..]);
    }
  }
}
