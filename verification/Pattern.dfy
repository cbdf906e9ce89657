/** Matching a relative directory path against a target's pattern (watchlist.go). */
module Pattern {
  import opened Text
  import opened Paths
  import opened Glob

  /** The segments of a slash-separated path or pattern, outer slashes trimmed. */
  function Segments(path: string): (r: seq<string>)
    ensures |r| >= 1
  {
    Split(Trim(path, '/'), '/')
  }

  /** matchesInclude: equality or a glob match with some listed name; bad globs never match. */
  predicate MatchesInclude(name: string, included: seq<string>) {
    included != [] &&
    (name == included[0] || Match(included[0], name) == Matched(true) || MatchesInclude(name, included[1..]))
  }

  function MatchSegment(segment: string, part: string, included: seq<string>): MatchResult {
    if segment == "#include" then Matched(MatchesInclude(part, included)) else Match(segment, part)
  }

  function MatchAll(segments: seq<string>, parts: seq<string>, included: seq<string>): MatchResult
    requires |segments| == |parts|
  {
    if segments == [] then Matched(true)
    else
      var first := MatchSegment(segments[0], parts[0], included);
      if first != Matched(true) then first else MatchAll(segments[1..], parts[1..], included)
  }

  /** matchPattern. */
  function MatchPattern(pattern: string, relPath: string, included: seq<string>): MatchResult {
    if pattern == "" then Matched(true)
    else if |Segments(pattern)| != |Segments(relPath)| then Matched(false)
    else MatchAll(Segments(pattern), Segments(relPath), included)
  }

  predicate MatchFront(segments: seq<string>, parts: seq<string>, included: seq<string>)
    requires |parts| <= |segments|
  {
    parts == [] ||
    (MatchSegment(segments[0], parts[0], included) == Matched(true) && MatchFront(segments[1..], parts[1..], included))
  }

  /** matchPatternPrefix. */
  predicate MatchPatternPrefix(pattern: string, relPath: string, included: seq<string>) {
    pattern == "" ||
    (|Segments(relPath)| <= |Segments(pattern)| && MatchFront(Segments(pattern), Segments(relPath), included))
  }

  /** The relative path of a list of directory names. */
  function RelPath(names: seq<string>): string {
    Join(names, '/')
  }

  // ---- what the two loops compute ---------------------------------------------

  predicate SegmentOk(segment: string, part: string, included: seq<string>) {
    MatchSegment(segment, part, included) == Matched(true)
  }

  lemma {:induction false} MatchFrontMeaning(segments: seq<string>, parts: seq<string>, included: seq<string>)
    requires |parts| <= |segments|
    ensures MatchFront(segments, parts, included)
            <==> forall i :: 0 <= i < |parts| ==> SegmentOk(segments[i], parts[i], included)
  {
    if parts != [] {
      MatchFrontMeaning(segments[1..], parts[1..], included);
      if forall i :: 0 <= i < |parts| ==> SegmentOk(segments[i], parts[i], included) {
        assert SegmentOk(segments[0], parts[0], included);
        forall i | 0 <= i < |parts[1..]| ensures SegmentOk(segments[1..][i], parts[1..][i], included) {
          assert SegmentOk(segments[i + 1], parts[i + 1], included);
        }
      }
      if MatchFront(segments, parts, included) {
        forall i | 0 <= i < |parts| ensures SegmentOk(segments[i], parts[i], included) {
          if i > 0 {
            assert SegmentOk(segments[1..][i - 1], parts[1..][i - 1], included);
          }
        }
      }
    }
  }

  lemma {:induction false} MatchAllMeaning(segments: seq<string>, parts: seq<string>, included: seq<string>)
    requires |parts| == |segments|
    ensures MatchAll(segments, parts, included) == Matched(true) <==> MatchFront(segments, parts, included)
  {
    if parts != [] {
      MatchAllMeaning(segments[1..], parts[1..], included);
    }
  }

  lemma SegmentsOfRelPath(names: seq<string>)
    requires GoodNames(names) && names != []
    ensures Segments(RelPath(names)) == names
  {
    SplitTrimJoin(names, '/');
  }

  // ---- the two tests agree ------------------------------------------------------

  /** For paths as long as the pattern the prefix test is the full test, and neither errs. */
  lemma SameAtFullLength(pattern: string, relPath: string, included: seq<string>)
    requires |Segments(pattern)| == |Segments(relPath)|
    ensures MatchPatternPrefix(pattern, relPath, included) <==> MatchPattern(pattern, relPath, included) == Matched(true)
  {
    MatchAllMeaning(Segments(pattern), Segments(relPath), included);
  }

  /** A path that passes the prefix test never makes the full test err; with a pattern,
      a full match has the pattern's length. */
  lemma PrefixNeverErrs(pattern: string, relPath: string, included: seq<string>)
    requires MatchPatternPrefix(pattern, relPath, included)
    ensures MatchPattern(pattern, relPath, included).Matched?
    ensures MatchPattern(pattern, relPath, included) == Matched(true)
            <==> pattern == "" || |Segments(relPath)| == |Segments(pattern)|
  {
    if |Segments(pattern)| == |Segments(relPath)| {
      SameAtFullLength(pattern, relPath, included);
    }
  }

  /** The prefix test is inherited by every non-empty prefix of the path. */
  lemma PrefixClosed(pattern: string, names: seq<string>, k: nat, included: seq<string>)
    requires GoodNames(names) && 0 < k <= |names|
    requires MatchPatternPrefix(pattern, RelPath(names), included)
    ensures MatchPatternPrefix(pattern, RelPath(names[..k]), included)
  {
    if pattern != "" {
      SegmentsOfRelPath(names);
      SegmentsOfRelPath(names[..k]);
      MatchFrontMeaning(Segments(pattern), names, included);
      MatchFrontMeaning(Segments(pattern), names[..k], included);
    }
  }

  /** A full match implies that every prefix of the path passes the prefix test. */
  lemma FullMatchReachesAllPrefixes(pattern: string, names: seq<string>, k: nat, included: seq<string>)
    requires GoodNames(names) && 0 < k <= |names|
    requires MatchPattern(pattern, RelPath(names), included) == Matched(true)
    ensures MatchPatternPrefix(pattern, RelPath(names[..k]), included)
  {
    if pattern != "" {
      SameAtFullLength(pattern, RelPath(names), included);
      PrefixClosed(pattern, names, k, included);
    }
  }

  /** What a pattern demands of each component of the paths it accepts. */
  lemma FullMatchSegments(pattern: string, names: seq<string>, included: seq<string>)
    requires GoodNames(names) && names != [] && pattern != ""
    ensures MatchPattern(pattern, RelPath(names), included) == Matched(true)
            <==> |names| == |Segments(pattern)|
                 && forall i :: 0 <= i < |names| ==> SegmentOk(Segments(pattern)[i], names[i], included)
  {
    SegmentsOfRelPath(names);
    if |names| == |Segments(pattern)| {
      MatchAllMeaning(Segments(pattern), names, included);
      MatchFrontMeaning(Segments(pattern), names, included);
    }
  }

  /** #include accepts the listed names and what the listed globs match. */
  lemma {:induction false} IncludeMeaning(name: string, included: seq<string>)
    ensures MatchesInclude(name, included)
            <==> exists k :: 0 <= k < |included| && (name == included[k] || Match(included[k], name) == Matched(true))
  {
    if included != [] {
      IncludeMeaning(name, included[1..]);
      var rest := included[1..];
      assert forall k :: 1 <= k < |included| ==> included[k] == rest[k - 1];
      if k :| 0 <= k < |rest| && (name == rest[k] || Match(rest[k], name) == Matched(true)) {
        assert included[k + 1] == rest[k];
      }
    }
  }

  /** What one segment accepts: #include a listed name or a match of a listed glob, any other
      segment what it matches as a glob. */
  predicate Accepted(segment: string, name: string, included: seq<string>) {
    if segment == "#include" then
      exists k :: 0 <= k < |included| && (name == included[k] || Match(included[k], name) == Matched(true))
    else Match(segment, name) == Matched(true)
  }

  /** A path matches a pattern exactly when it has as many names as the pattern, outer slashes
      aside, has segments, and each segment accepts its name. */
  lemma PatternMeaning(pattern: string, names: seq<string>, included: seq<string>)
    requires GoodNames(names) && names != [] && pattern != ""
    ensures var segments := Split(Trim(pattern, '/'), '/');
            MatchPattern(pattern, RelPath(names), included) == Matched(true)
            <==> |names| == |segments| && forall i :: 0 <= i < |names| ==> Accepted(segments[i], names[i], included)
  {
    var segments := Segments(pattern);
    FullMatchSegments(pattern, names, included);
    if |names| == |segments| {
      forall i | 0 <= i < |names|
        ensures SegmentOk(segments[i], names[i], included) <==> Accepted(segments[i], names[i], included)
      {
        IncludeMeaning(names[i], included);
      }
    }
  }

  /** So a path that is still short enough can be on the way to a match exactly when the segments
      so far accept its names. */
  lemma PrefixMeaning(pattern: string, names: seq<string>, included: seq<string>)
    requires GoodNames(names) && names != [] && pattern != ""
    ensures var segments := Split(Trim(pattern, '/'), '/');
            MatchPatternPrefix(pattern, RelPath(names), included)
            <==> |names| <= |segments| && forall i :: 0 <= i < |names| ==> Accepted(segments[i], names[i], included)
  {
    var segments := Segments(pattern);
    SegmentsOfRelPath(names);
    if |names| <= |segments| {
      MatchFrontMeaning(segments, names, included);
      forall i | 0 <= i < |names|
        ensures SegmentOk(segments[i], names[i], included) <==> Accepted(segments[i], names[i], included)
      {
        IncludeMeaning(names[i], included);
      }
    }
  }

  // ---- the pair of tests as the walk uses them -----------------------------------

  /** A target's two tests on relative paths, and its pattern's segments ([] without one). */
  datatype Matcher = Matcher(full: string -> MatchResult, prefix: string -> bool, segments: seq<string>)

  function MatcherFor(pattern: string, included: seq<string>): Matcher {
    Matcher(
      path => MatchPattern(pattern, path, included),
      path => MatchPatternPrefix(pattern, path, included),
      if pattern == "" then [] else Segments(pattern))
  }

  /** The prefix test is inherited by prefixes, and a full match passes it on all of them. */
  predicate ReachesPrefix(m: Matcher, names: seq<string>, k: nat) {
    GoodNames(names) && 0 < k <= |names| ==>
      (m.prefix(RelPath(names)) || m.full(RelPath(names)) == Matched(true) ==> m.prefix(RelPath(names[..k])))
  }

  /** A path that passes the prefix test never errs, and a full match has full length. */
  predicate Decides(m: Matcher, names: seq<string>) {
    GoodNames(names) && names != [] ==>
      && (m.prefix(RelPath(names)) ==> m.full(RelPath(names)).Matched?)
      && (m.full(RelPath(names)) == Matched(true) ==> m.segments == [] || |m.segments| == |names|)
  }

  /** All the walk needs to know about the two tests. */
  ghost predicate Coherent(m: Matcher) {
    && (forall names, k: nat :: ReachesPrefix(m, names, k))
    && (forall names :: Decides(m, names))
  }

  /** Every pattern, malformed segments included, gives a coherent pair of tests. */
  lemma MatcherCoherent(pattern: string, included: seq<string>)
    ensures Coherent(MatcherFor(pattern, included))
  {
    var m := MatcherFor(pattern, included);
    forall names, k: nat ensures ReachesPrefix(m, names, k) {
      if GoodNames(names) && 0 < k <= |names| {
        if m.prefix(RelPath(names)) {
          PrefixClosed(pattern, names, k, included);
        }
        if m.full(RelPath(names)) == Matched(true) {
          FullMatchReachesAllPrefixes(pattern, names, k, included);
        }
      }
    }
    forall names ensures Decides(m, names) {
      if GoodNames(names) && names != [] {
        SegmentsOfRelPath(names);
        if m.prefix(RelPath(names)) {
          PrefixNeverErrs(pattern, RelPath(names), included);
        }
      }
    }
  }
}
