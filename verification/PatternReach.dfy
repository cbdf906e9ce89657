/** For which patterns discovery can find anything: when each segment fits the name of some
    directory, and how the check made before the walk relates to that. */
module PatternReach {
  import opened Wrappers
  import opened Text
  import opened Paths
  import opened Glob
  import opened GlobScan
  import opened Pattern
  import opened FileSystem
  import opened Records
  import opened Discovery
  import opened DiscoveryTheorems
  import opened Targets

  // ---- names a well-formed segment can match ------------------------------------------------------

  /** A character of a name; plain is whether it must not be a dot. */
  ghost predicate AdmitsSome(t: Token, plain: bool) {
    exists c :: Admits(t, c) && c != '/' && (plain ==> c != '.')
  }

  /** The tokens fit a directory name: each admits a character, and there are three or more of
      them or one admits a character other than the dot. */
  ghost predicate FitsName(ts: seq<Token>) {
    && (forall i :: 0 <= i < |ts| ==> AdmitsSome(ts[i], false))
    && (|ts| >= 3 || exists i :: 0 <= i < |ts| && AdmitsSome(ts[i], true))
  }

  lemma StarAdmits(t: Token, plain: bool)
    requires t.Star? || t.AnyOne?
    ensures AdmitsSome(t, plain)
  {
    assert Admits(t, 'a');
  }

  /** One character for each token, a plain one wherever there is one. */
  lemma {:induction false} SpellName(ts: seq<Token>) returns (name: string)
    requires forall i :: 0 <= i < |ts| ==> AdmitsSome(ts[i], false)
    ensures |name| == |ts| && '/' !in name && MatchTokens(ts, name)
    ensures forall i :: 0 <= i < |ts| && AdmitsSome(ts[i], true) ==> name[i] != '.'
  {
    if ts == [] {
      name := "";
    } else {
      assert AdmitsSome(ts[0], false);
      var plain := AdmitsSome(ts[0], true);
      var c :| Admits(ts[0], c) && c != '/' && (plain ==> c != '.');
      var rest := SpellName(ts[1..]);
      name := [c] + rest;
      assert name[1..] == rest;
      if ts[0].Star? {
        assert MatchTokens(ts, rest);
      }
    }
  }

  /** Each token of a matching pattern admits a character, and without a star the i-th token
      admits the i-th character. */
  lemma {:induction false} MatchedAdmits(ts: seq<Token>, s: string)
    requires MatchTokens(ts, s) && '/' !in s
    ensures forall i :: 0 <= i < |ts| ==> AdmitsSome(ts[i], false)
    ensures (forall i :: 0 <= i < |ts| ==> !ts[i].Star?) ==>
              |s| == |ts| && forall i :: 0 <= i < |ts| ==> Admits(ts[i], s[i])
    decreases |ts|, |s|
  {
    if ts != [] {
      if ts[0].Star? {
        StarAdmits(ts[0], false);
        if MatchTokens(ts[1..], s) {
          MatchedAdmits(ts[1..], s);
        } else {
          MatchedAdmits(ts, s[1..]);
        }
      } else {
        assert s[0] in s && Admits(ts[0], s[0]);
        MatchedAdmits(ts[1..], s[1..]);
      }
    }
  }

  /** Some directory name matches the tokens exactly when they fit one. */
  lemma FitsNameIff(ts: seq<Token>)
    ensures (exists name :: GoodName(name) && MatchTokens(ts, name)) <==> FitsName(ts)
  {
    if name :| GoodName(name) && MatchTokens(ts, name) {
      MatchedAdmits(ts, name);
      if i :| 0 <= i < |ts| && ts[i].Star? {
        StarAdmits(ts[i], true);
      } else if |ts| < 3 {
        var i: nat := if name[0] != '.' then 0 else 1;
        assert name[i] in name && Admits(ts[i], name[i]);
        assert AdmitsSome(ts[i], true);
      }
    }
    if FitsName(ts) {
      var name := SpellName(ts);
      if |ts| < 3 {
        var i :| 0 <= i < |ts| && AdmitsSome(ts[i], true);
        assert name[i] != '.';
      }
      assert GoodName(name);
    }
  }

  // ---- names a segment accepts --------------------------------------------------------------------

  /** A glob that is well formed and fits a name. */
  ghost predicate GlobFits(glob: string) {
    Parse(glob).Some? && FitsName(Parse(glob).value)
  }

  ghost predicate SegmentFits(segment: string, included: seq<string>) {
    if segment == "#include" then exists k :: 0 <= k < |included| && (GoodName(included[k]) || GlobFits(included[k]))
    else GlobFits(segment)
  }

  lemma AcceptedFits(segment: string, name: string, included: seq<string>)
    requires GoodName(name) && SegmentOk(segment, name, included)
    ensures SegmentFits(segment, included)
  {
    if segment == "#include" {
      IncludeMeaning(name, included);
      var k :| 0 <= k < |included| && (name == included[k] || Match(included[k], name) == Matched(true));
      if name != included[k] {
        FitsNameIff(Parse(included[k]).value);
      }
    } else {
      FitsNameIff(Parse(segment).value);
    }
  }

  lemma GlobName(glob: string) returns (name: string)
    requires GlobFits(glob)
    ensures GoodName(name) && Match(glob, name) == Matched(true)
  {
    FitsNameIff(Parse(glob).value);
    name :| GoodName(name) && MatchTokens(Parse(glob).value, name);
  }

  lemma FittingName(segment: string, included: seq<string>) returns (name: string)
    requires SegmentFits(segment, included)
    ensures GoodName(name) && SegmentOk(segment, name, included)
  {
    if segment == "#include" {
      var k :| 0 <= k < |included| && (GoodName(included[k]) || GlobFits(included[k]));
      if GoodName(included[k]) {
        name := included[k];
      } else {
        name := GlobName(included[k]);
      }
      IncludeMeaning(name, included);
    } else {
      name := GlobName(segment);
    }
  }

  ghost predicate AllFit(segments: seq<string>, included: seq<string>) {
    forall i :: 0 <= i < |segments| ==> SegmentFits(segments[i], included)
  }

  lemma {:induction false} FittingNames(segments: seq<string>, included: seq<string>) returns (names: seq<string>)
    requires AllFit(segments, included)
    ensures |names| == |segments| && GoodNames(names)
    ensures forall i :: 0 <= i < |segments| ==> SegmentOk(segments[i], names[i], included)
  {
    if segments == [] {
      names := [];
    } else {
      assert SegmentFits(segments[0], included);
      var name := FittingName(segments[0], included);
      var rest := FittingNames(segments[1..], included);
      names := [name] + rest;
    }
  }

  // ---- a tree with one chain of directories ---------------------------------------------------------

  /** The directory that the k-th name or a later one is listed in. */
  function ChainListing(base: string, names: seq<string>, k: nat, path: string): Listing
    requires GoodNames(names) && k <= |names|
    decreases |names| - k
  {
    if k == |names| then []
    else if PathOf(base, names[..k]) == path then [DirEntry(names[k], true, false)]
    else ChainListing(base, names, k + 1, path)
  }

  /** The base, one directory below another under it, and no symbolic links. */
  function ChainTree(base: string, names: seq<string>): Tree
    requires GoodNames(names)
  {
    Tree(path => Some(ChainListing(base, names, 0, path)), path => Some(true), path => Some(path))
  }

  lemma {:induction false} ChainListed(base: string, names: seq<string>, k: nat, i: nat)
    requires GoodNames(names) && k <= i < |names|
    ensures ChainListing(Clean(base), names, k, PathOf(Clean(base), names[..i])) == [DirEntry(names[i], true, false)]
    decreases |names| - k
  {
    if k < i {
      if PathOf(Clean(base), names[..k]) == PathOf(Clean(base), names[..i]) {
        PathOfInjective(base, names[..k], names[..i]);
        assert false;
      }
      ChainListed(base, names, k + 1, i);
    }
  }

  lemma ChainIsPath(base: string, names: seq<string>)
    requires GoodNames(names)
    ensures DirectoryPath(ChainTree(Clean(base), names), Clean(base), names)
  {
    var tree := ChainTree(Clean(base), names);
    forall k | 0 <= k < |names| ensures Listed(tree, Clean(base), names[..k], names[k]) {
      ChainListed(base, names, 0, k);
      assert DirEntry(names[k], true, false) in tree.readDir(PathOf(Clean(base), names[..k])).value;
    }
  }

  lemma ChainIsAcyclic(base: string, names: seq<string>)
    requires GoodNames(names)
    ensures NoRepeatedReal(ChainTree(Clean(base), names), Clean(base), names)
  {
    forall j, k | 0 <= j < k <= |names|
      ensures PathOf(Clean(base), names[..j]) != PathOf(Clean(base), names[..k])
    {
      if PathOf(Clean(base), names[..j]) == PathOf(Clean(base), names[..k]) {
        PathOfInjective(base, names[..j], names[..k]);
        assert false;
      }
    }
  }

  // ---- what some tree yields ------------------------------------------------------------------------------

  ghost predicate FindsSomewhere(base: string, baseLabel: string, maxDepth: int, pattern: string, included: seq<string>) {
    exists tree :: Finds(tree, base, baseLabel, maxDepth, pattern, included)
  }

  predicate Finds(tree: Tree, base: string, baseLabel: string, maxDepth: int, pattern: string, included: seq<string>) {
    Discover(QueryFor(tree, Clean(base), baseLabel, maxDepth, pattern, included)).0 != []
  }

  lemma FoundFits(
      tree: Tree, base: string, baseLabel: string, maxDepth: int, pattern: string, included: seq<string>)
    requires pattern != "" && Finds(tree, base, baseLabel, maxDepth, pattern, included)
    ensures |Segments(pattern)| <= maxDepth && AllFit(Segments(pattern), included)
  {
    var q := QueryFor(tree, Clean(base), baseLabel, maxDepth, pattern, included);
    var e := Discover(q).0[0];
    EntriesMember(q, Visited(q, []), e);
    var n :| n in Visited(q, []) && Accepts(q, n) && e == EntryOf(q, n);
    EnumerateBelow(tree, q.base, [], maxDepth, n);
    FullMatchSegments(pattern, n, included);
    forall i | 0 <= i < |Segments(pattern)| ensures SegmentFits(Segments(pattern)[i], included) {
      assert SegmentOk(Segments(pattern)[i], n[i], included);
      AcceptedFits(Segments(pattern)[i], n[i], included);
    }
  }

  lemma FittingFound(base: string, baseLabel: string, maxDepth: int, pattern: string, included: seq<string>)
    returns (tree: Tree)
    requires pattern != "" && |Segments(pattern)| <= maxDepth && AllFit(Segments(pattern), included)
    ensures Finds(tree, base, baseLabel, maxDepth, pattern, included)
  {
    var names := FittingNames(Segments(pattern), included);
    tree := ChainTree(Clean(base), names);
    var q := QueryFor(tree, Clean(base), baseLabel, maxDepth, pattern, included);
    ChainIsPath(base, names);
    ChainIsAcyclic(base, names);
    FullMatchSegments(pattern, names, included);
    assert ShouldWatch(q, names);
    DiscoversExactly(q, EntryOf(q, names));
  }

  /** A pattern finds an entry in some tree exactly when the depth reaches its length and each of
      its segments fits the name of a directory. */
  lemma PatternFindsIff(base: string, baseLabel: string, maxDepth: int, pattern: string, included: seq<string>)
    requires pattern != ""
    ensures FindsSomewhere(base, baseLabel, maxDepth, pattern, included)
            <==> |Segments(pattern)| <= maxDepth && AllFit(Segments(pattern), included)
  {
    if tree :| Finds(tree, base, baseLabel, maxDepth, pattern, included) {
      FoundFits(tree, base, baseLabel, maxDepth, pattern, included);
    }
    if |Segments(pattern)| <= maxDepth && AllFit(Segments(pattern), included) {
      var tree := FittingFound(base, baseLabel, maxDepth, pattern, included);
    }
  }

  /** Empty, dot and dot-dot segments are well formed but fit no directory. */
  lemma DotsFitNothing(included: seq<string>)
    ensures forall segment :: segment in {"", ".", ".."} ==> Parse(segment).Some? && !SegmentFits(segment, included)
  {
    var dot := Literal('.');
    assert Parse("") == Some([]) && [dot] + [] == [dot];
    var one, two := ".", "..";
    assert one[0] == '.' && one[1..] == "" && two[0] == '.' && two[1..] == one;
    assert Parse(one) == Prepend(dot, Parse(one[1..])) == Some([dot]);
    assert Parse(two) == Prepend(dot, Parse(two[1..])) == Some([dot] + [dot]);
    assert !AdmitsSome(dot, true);
  }

  // ---- the check before the walk ---------------------------------------------------------------------------

  lemma FitsParse(segments: seq<string>, included: seq<string>)
    requires AllFit(segments, included)
    ensures forall i :: 0 <= i < |segments| ==> segments[i] == "#include" || Parse(segments[i]).Some?
  {
    forall i | 0 <= i < |segments| ensures segments[i] == "#include" || Parse(segments[i]).Some? {
      assert SegmentFits(segments[i], included);
    }
  }

  /** The check on the whole pattern and the walk's matching of segments agree on whether it is well
      formed exactly when the check refuses it or no slash of it stands inside a class or after a
      backslash: what the check accepts wrongly are the patterns with such a slash. */
  lemma CheckAgreesIff(pattern: string)
    requires pattern != ""
    ensures (SegmentsParse(pattern) <==> !PatternRefused(pattern))
            <==> PatternRefused(pattern) || SlashesOutside(pattern)
  {
    SegmentsParseIff(pattern);
  }

  ghost predicate TargetFindsSomewhere(t: Target) {
    exists tree :: TargetResult(tree, t).0 != []
  }

  /** A target with a pattern can ever watch anything exactly when its depth reaches the pattern's
      length and each segment fits a directory name; whether the check accepts the pattern adds
      nothing to that. */
  lemma TargetFindsIff(t: Target)
    requires t.dirs == [] && t.pattern != ""
    ensures TargetFindsSomewhere(t)
            <==> |Segments(t.pattern)| <= DepthFor(t) && AllFit(Segments(t.pattern), t.included)
  {
    if tree :| TargetResult(tree, t).0 != [] {
      FoundFits(tree, t.base, LabelFor(t), DepthFor(t), t.pattern, t.included);
    }
    if |Segments(t.pattern)| <= DepthFor(t) && AllFit(Segments(t.pattern), t.included) {
      FitsParse(Segments(t.pattern), t.included);
      SegmentsParseIff(t.pattern);
      var tree := FittingFound(t.base, LabelFor(t), DepthFor(t), t.pattern, t.included);
      assert TargetResult(tree, t) == Discover(TargetQuery(tree, t));
    }
  }

  /** Well-formed segments are not enough: a//b passes the check and can watch nothing. */
  lemma DoubleSlashFindsNothing(t: Target)
    requires t.dirs == [] && t.pattern == "a//b"
    ensures SegmentsParse(t.pattern) && !PatternRefused(t.pattern) && !TargetFindsSomewhere(t)
  {
    var p := "a//b";
    TrimNothing(p, '/');
    SplitWord("b", '/');
    SplitAfterWord("", "b", '/');
    SplitAfterWord("a", "" + ['/'] + "b", '/');
    assert "a" + ['/'] + ("" + ['/'] + "b") == p;
    var segments := Segments(p);
    assert segments == ["a", "", "b"];
    OneLetterParses('a');
    OneLetterParses('b');
    DotsFitNothing(t.included);
    assert Parse("").Some? && segments[1] == "";
    SegmentsParseIff(p);
    TargetFindsIff(t);
  }

  lemma OneLetterParses(c: char)
    requires 'a' <= c <= 'z'
    ensures Parse([c]).Some?
  {
    assert [c][1..] == "" && Parse("") == Some([]);
  }
}
