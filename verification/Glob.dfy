/** Shell patterns as filepath.Match reads them, one path segment at a time. */
module Glob {
  import opened Wrappers

  datatype Range = Range(lo: char, hi: char)

  /** What one position of a well-formed pattern asks for. */
  datatype Token =
    | Star
    | AnyOne
    | Literal(c: char)
    | Class(negated: bool, ranges: seq<Range>)

  /** Outcome of a match: an answer, or Go's ErrBadPattern. */
  datatype MatchResult = Matched(ok: bool) | BadPattern

  datatype Escaped = Escaped(c: char, rest: string)
  datatype ClassBody = ClassBody(ranges: seq<Range>, rest: string)

  /** One possibly escaped character of a class; something must follow it. */
  function ClassChar(p: string): (r: Option<Escaped>)
    ensures r.Some? ==> r.value.rest != "" && |r.value.rest| < |p|
  {
    if p == "" || p[0] == '-' || p[0] == ']' then None
    else
      var q := if p[0] == '\\' then p[1..] else p;
      if |q| < 2 then None else Some(Escaped(q[0], q[1..]))
  }

  /** The ranges of a class up to its closing bracket; at least one is needed. */
  function ClassRanges(p: string, seen: seq<Range>): (r: Option<ClassBody>)
    ensures r.Some? ==> |r.value.rest| < |p|
    decreases |p|
  {
    if p != "" && p[0] == ']' && seen != [] then Some(ClassBody(seen, p[1..]))
    else
      match ClassChar(p)
      case None => None
      case Some(lo) =>
        if lo.rest[0] == '-' then
          match ClassChar(lo.rest[1..])
          case None => None
          case Some(hi) => ClassRanges(hi.rest, seen + [Range(lo.c, hi.c)])
        else ClassRanges(lo.rest, seen + [Range(lo.c, lo.c)])
  }

  function Prepend(t: Token, rest: Option<seq<Token>>): Option<seq<Token>> {
    if rest.None? then None else Some([t] + rest.value)
  }

  /** The tokens of a pattern, or None when it is malformed. */
  function Parse(p: string): Option<seq<Token>>
    decreases |p|
  {
    if p == "" then Some([])
    else if p[0] == '*' then Prepend(Star, Parse(p[1..]))
    else if p[0] == '?' then Prepend(AnyOne, Parse(p[1..]))
    else if p[0] == '\\' then
      if |p| == 1 then None else Prepend(Literal(p[1]), Parse(p[2..]))
    else if p[0] == '[' then
      var negated := |p| > 1 && p[1] == '^';
      match ClassRanges(p[if negated then 2 else 1..], [])
      case None => None
      case Some(body) => Prepend(Class(negated, body.ranges), Parse(body.rest))
    else Prepend(Literal(p[0]), Parse(p[1..]))
  }

  predicate InClass(ranges: seq<Range>, c: char) {
    exists i :: 0 <= i < |ranges| && ranges[i].lo <= c <= ranges[i].hi
  }

  /** One character that a token can match. */
  predicate Admits(t: Token, c: char) {
    match t
    case Star => c != '/'
    case AnyOne => c != '/'
    case Literal(x) => c == x
    case Class(negated, ranges) => (exists i :: 0 <= i < |ranges| && ranges[i].lo <= c <= ranges[i].hi) != negated
  }

  /** Does the whole of s match? A star never crosses a separator. */
  predicate MatchTokens(ts: seq<Token>, s: string)
    decreases |ts|, |s|
  {
    if ts == [] then s == ""
    else
      match ts[0]
      case Star => MatchTokens(ts[1..], s) || (s != "" && s[0] != '/' && MatchTokens(ts, s[1..]))
      case AnyOne => s != "" && s[0] != '/' && MatchTokens(ts[1..], s[1..])
      case Literal(c) => s != "" && s[0] == c && MatchTokens(ts[1..], s[1..])
      case Class(negated, ranges) =>
        s != "" && InClass(ranges, s[0]) != negated && MatchTokens(ts[1..], s[1..])
  }

  /** filepath.Match. */
  function Match(pattern: string, name: string): MatchResult {
    var parsed := Parse(pattern);
    if parsed.None? then BadPattern else Matched(MatchTokens(parsed.value, name))
  }

  /** strings.ContainsAny(segment, "*?["). */
  predicate HasMeta(segment: string) {
    '*' in segment || '?' in segment || '[' in segment
  }

  // ---- a segment without metacharacters matches at most one name -------------

  predicate AllLiteral(ts: seq<Token>) {
    forall i :: 0 <= i < |ts| ==> ts[i].Literal?
  }

  lemma {:induction false} NoMetaParsesLiteral(p: string)
    requires !HasMeta(p) && Parse(p).Some?
    ensures AllLiteral(Parse(p).value)
    decreases |p|
  {
    if p != "" {
      if p[0] == '\\' {
        NoMetaParsesLiteral(p[2..]);
      } else {
        NoMetaParsesLiteral(p[1..]);
      }
    }
  }

  lemma {:induction false} LiteralTokensMatchOne(ts: seq<Token>, a: string, b: string)
    requires AllLiteral(ts) && MatchTokens(ts, a) && MatchTokens(ts, b)
    ensures a == b
  {
    if ts != [] {
      LiteralTokensMatchOne(ts[1..], a[1..], b[1..]);
      assert a == [a[0]] + a[1..] && b == [b[0]] + b[1..];
    }
  }

  /** A pattern segment free of *, ? and [ fixes the path component it matches. */
  lemma NoMetaMatchesAtMostOne(p: string, a: string, b: string)
    requires !HasMeta(p) && Match(p, a) == Matched(true) && Match(p, b) == Matched(true)
    ensures a == b
  {
    NoMetaParsesLiteral(p);
    LiteralTokensMatchOne(Parse(p).value, a, b);
  }
}
