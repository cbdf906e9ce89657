/** What a glob says: how its text spells its tokens, and which names its tokens accept. */
module GlobMeaning {
  import opened Wrappers
  import opened Paths
  import opened Glob

  function Concat(pieces: seq<string>): string {
    if pieces == [] then "" else pieces[0] + Concat(pieces[1..])
  }

  // ---- which names match -----------------------------------------------------------------------------

  /** A star takes any string without a slash, every other token one character it admits. */
  predicate Takes(t: Token, piece: string) {
    if t.Star? then '/' !in piece else |piece| == 1 && Admits(t, piece[0])
  }

  /** The pieces make up s, one for each token. */
  predicate Cuts(ts: seq<Token>, pieces: seq<string>, s: string) {
    && |pieces| == |ts| && Concat(pieces) == s
    && forall i :: 0 <= i < |ts| ==> Takes(ts[i], pieces[i])
  }

  lemma ConsCuts(t: Token, ts: seq<Token>, w: string, pieces: seq<string>, s: string)
    requires Takes(t, w) && Cuts(ts, pieces, s)
    ensures Cuts([t] + ts, [w] + pieces, w + s)
  {
    assert ([w] + pieces)[1..] == pieces;
  }

  lemma {:induction false} MatchedIsCut(ts: seq<Token>, s: string) returns (pieces: seq<string>)
    requires MatchTokens(ts, s)
    ensures Cuts(ts, pieces, s)
    decreases |ts|, |s|
  {
    if ts == [] {
      pieces := [];
    } else {
      assert [ts[0]] + ts[1..] == ts;
      if ts[0].Star? && MatchTokens(ts[1..], s) {
        var rest := MatchedIsCut(ts[1..], s);
        pieces := [""] + rest;
        ConsCuts(Star, ts[1..], "", rest, s);
        assert "" + s == s;
      } else if ts[0].Star? {
        pieces := MatchedIsCut(ts, s[1..]);
        pieces := StarTakesMore(ts, pieces, s[0], s[1..]);
        assert [s[0]] + s[1..] == s;
      } else {
        var rest := MatchedIsCut(ts[1..], s[1..]);
        pieces := [[s[0]]] + rest;
        ConsCuts(ts[0], ts[1..], [s[0]], rest, s[1..]);
        assert [s[0]] + s[1..] == s;
      }
    }
  }

  lemma StarTakesMore(ts: seq<Token>, pieces: seq<string>, c: char, s: string) returns (more: seq<string>)
    requires Cuts(ts, pieces, s) && ts != [] && ts[0].Star? && c != '/'
    ensures Cuts(ts, more, [c] + s)
  {
    more := [[c] + pieces[0]] + pieces[1..];
    assert more[1..] == pieces[1..];
    assert [c] + pieces[0] + Concat(pieces[1..]) == [c] + s;
    assert Takes(ts[0], pieces[0]);
  }

  lemma {:induction false} CutIsMatched(ts: seq<Token>, pieces: seq<string>, s: string)
    requires Cuts(ts, pieces, s)
    ensures MatchTokens(ts, s)
    decreases |ts|, |s|
  {
    if ts != [] {
      var w, rest := pieces[0], Concat(pieces[1..]);
      assert Takes(ts[0], w);
      if w == "" {
        CutIsMatched(ts[1..], pieces[1..], s);
      } else {
        assert s == [w[0]] + (w[1..] + rest) && s[1..] == w[1..] + rest;
        if ts[0].Star? {
          var fewer := [w[1..]] + pieces[1..];
          assert fewer[1..] == pieces[1..];
          CutIsMatched(ts, fewer, s[1..]);
          assert w[0] in w;
        } else {
          assert w[1..] == "" && "" + rest == rest;
          CutIsMatched(ts[1..], pieces[1..], s[1..]);
        }
      }
    }
  }

  /** Tokens match a string exactly when it falls into one piece for each of them. */
  lemma MatchTokensIff(ts: seq<Token>, s: string)
    ensures MatchTokens(ts, s) <==> exists pieces :: Cuts(ts, pieces, s)
  {
    if MatchTokens(ts, s) {
      var pieces := MatchedIsCut(ts, s);
    }
    if pieces :| Cuts(ts, pieces, s) {
      CutIsMatched(ts, pieces, s);
    }
  }

  // ---- how a text spells tokens ---------------------------------------------------------------------------

  /** A character of a class: itself, or after a backslash. */
  predicate CharText(c: char, w: string) {
    w == ['\\', c] || (w == [c] && c !in {'-', ']', '\\'})
  }

  /** A range of a class: two characters around a dash, or one alone. */
  ghost predicate RangeText(r: Range, w: string) {
    || (exists a, b :: CharText(r.lo, a) && CharText(r.hi, b) && w == a + ("-" + b))
    || (r.lo == r.hi && CharText(r.lo, w))
  }

  ghost predicate RangeTexts(ranges: seq<Range>, ws: seq<string>) {
    |ws| == |ranges| && forall i :: 0 <= i < |ranges| ==> RangeText(ranges[i], ws[i])
  }

  /** The text of a class after its opening bracket; ^ in front negates it. */
  ghost predicate ClassText(negated: bool, ranges: seq<Range>, ws: seq<string>, w: string) {
    && ranges != [] && RangeTexts(ranges, ws)
    && w == (if negated then "^" else "") + (Concat(ws) + "]")
    && (!negated ==> w[0] != '^')
  }

  /** w is a way to write the token. */
  ghost predicate Spells(t: Token, w: string) {
    match t
    case Star => w == "*"
    case AnyOne => w == "?"
    case Literal(c) => w == ['\\', c] || (w == [c] && c !in {'*', '?', '[', '\\'})
    case Class(negated, ranges) => w != "" && w[0] == '[' && exists ws :: ClassText(negated, ranges, ws, w[1..])
  }

  ghost predicate SpellsAll(ts: seq<Token>, ws: seq<string>, p: string) {
    |ws| == |ts| && Concat(ws) == p && forall i :: 0 <= i < |ts| ==> Spells(ts[i], ws[i])
  }

  lemma CharRead(c: char, w: string, rest: string)
    requires CharText(c, w) && rest != ""
    ensures ClassChar(w + rest) == Some(Escaped(c, rest))
  {
    if w == [c] {
      assert (w + rest)[1..] == rest;
    } else {
      assert (w + rest)[1..] == [c] + rest;
      assert ([c] + rest)[1..] == rest;
    }
  }

  lemma CharWritten(p: string) returns (w: string)
    requires ClassChar(p).Some?
    ensures var e := ClassChar(p).value; CharText(e.c, w) && p == w + e.rest
  {
    var e := ClassChar(p).value;
    if p[0] == '\\' {
      w := [p[0], e.c];
    } else {
      w := [p[0]];
    }
  }

  lemma CharTextStarts(c: char, w: string)
    requires CharText(c, w)
    ensures w != "" && w[0] != '-' && w[0] != ']'
  {
  }

  lemma ConcatTwo(w: string, later: seq<string>)
    ensures Concat([w] + later) == w + Concat(later)
  {
    assert ([w] + later)[1..] == later;
  }

  lemma SingleRead(c: char, w: string, seen: seq<Range>, rest: string)
    requires CharText(c, w) && rest != "" && rest[0] != '-'
    ensures ClassRanges(w + rest, seen) == ClassRanges(rest, seen + [Range(c, c)])
  {
    CharTextStarts(c, w);
    CharRead(c, w, rest);
  }

  lemma DashRead(lo: char, hi: char, a: string, b: string, seen: seq<Range>, rest: string)
    requires CharText(lo, a) && CharText(hi, b) && rest != ""
    ensures ClassRanges(a + ("-" + (b + rest)), seen) == ClassRanges(rest, seen + [Range(lo, hi)])
  {
    var tail := "-" + (b + rest);
    assert tail[1..] == b + rest;
    CharTextStarts(lo, a);
    CharRead(lo, a, tail);
    CharRead(hi, b, rest);
  }

  /** One range is read off, whatever class it stands in. */
  lemma RangeRead(r: Range, w: string, seen: seq<Range>, rest: string)
    requires RangeText(r, w) && rest != "" && rest[0] != '-'
    ensures ClassRanges(w + rest, seen) == ClassRanges(rest, seen + [r])
  {
    if r.lo == r.hi && CharText(r.lo, w) {
      SingleRead(r.lo, w, seen, rest);
    } else {
      var a, b :| CharText(r.lo, a) && CharText(r.hi, b) && w == a + ("-" + b);
      DashRead(r.lo, r.hi, a, b, seen, rest);
      Joined(a, b, rest);
    }
  }

  lemma Joined(a: string, b: string, rest: string)
    ensures (a + ("-" + b)) + rest == a + ("-" + (b + rest))
  {
  }

  lemma {:induction false} RangesStart(ranges: seq<Range>, ws: seq<string>, rest: string)
    requires RangeTexts(ranges, ws)
    ensures var s := Ending(ws, rest); s != "" && s[0] != '-'
  {
    if ranges != [] {
      var r, w := ranges[0], ws[0];
      assert RangeText(r, w);
      if r.lo == r.hi && CharText(r.lo, w) {
        CharTextStarts(r.lo, w);
      } else {
        var a, b :| CharText(r.lo, a) && CharText(r.hi, b) && w == a + ("-" + b);
        CharTextStarts(r.lo, a);
      }
    }
  }

  function Ending(ws: seq<string>, rest: string): string {
    Concat(ws) + ("]" + rest)
  }

  lemma ClassEnds(seen: seq<Range>, rest: string)
    requires seen != []
    ensures ClassRanges(Ending([], rest), seen) == Some(ClassBody(seen, rest))
  {
    assert Ending([], rest) == "]" + rest && ("]" + rest)[1..] == rest;
  }

  lemma EndingNext(w: string, later: seq<string>, rest: string)
    ensures Ending([w] + later, rest) == w + Ending(later, rest)
  {
    ConcatTwo(w, later);
  }

  lemma TextsNext(ranges: seq<Range>, ws: seq<string>)
    requires RangeTexts(ranges, ws) && ranges != []
    ensures RangeText(ranges[0], ws[0]) && RangeTexts(ranges[1..], ws[1..])
    ensures ws == [ws[0]] + ws[1..] && ranges == [ranges[0]] + ranges[1..]
  {
  }

  lemma TextsCons(r: Range, w: string, ranges: seq<Range>, ws: seq<string>)
    requires RangeTexts(ranges, ws) && RangeText(r, w)
    ensures RangeTexts([r] + ranges, [w] + ws)
  {
  }

  lemma {:induction false} RangesRead(ranges: seq<Range>, ws: seq<string>, seen: seq<Range>, rest: string)
    requires RangeTexts(ranges, ws) && seen + ranges != []
    ensures ClassRanges(Ending(ws, rest), seen) == Some(ClassBody(seen + ranges, rest))
    decreases |ranges|
  {
    if ranges == [] {
      assert seen + ranges == seen && ws == [];
      ClassEnds(seen, rest);
    } else {
      TextsNext(ranges, ws);
      EndingNext(ws[0], ws[1..], rest);
      RangesStart(ranges[1..], ws[1..], rest);
      RangeRead(ranges[0], ws[0], seen, Ending(ws[1..], rest));
      ConcatAssociates(seen, [ranges[0]], ranges[1..]);
      RangesRead(ranges[1..], ws[1..], seen + [ranges[0]], rest);
    }
  }

  lemma DashedRange(p: string) returns (w: string)
    requires ClassChar(p).Some? && ClassChar(p).value.rest[0] == '-'
    requires ClassChar(ClassChar(p).value.rest[1..]).Some?
    ensures var lo := ClassChar(p).value;
            var hi := ClassChar(lo.rest[1..]).value;
            RangeText(Range(lo.c, hi.c), w) && p == w + hi.rest
  {
    var lo := ClassChar(p).value;
    var hi := ClassChar(lo.rest[1..]).value;
    var a := CharWritten(p);
    var b := CharWritten(lo.rest[1..]);
    w := a + ("-" + b);
    Dashed(lo.rest, b, hi.rest);
    Joined(a, b, hi.rest);
  }

  lemma Dashed(s: string, b: string, rest: string)
    requires s != "" && s[0] == '-' && s[1..] == b + rest
    ensures s == "-" + (b + rest)
  {
  }

  lemma OneRange(p: string) returns (r: Range, w: string, rest: string)
    requires ClassChar(p).Some?
    requires var lo := ClassChar(p).value; lo.rest[0] == '-' ==> ClassChar(lo.rest[1..]).Some?
    ensures RangeText(r, w) && p == w + rest && |rest| < |p|
    ensures var lo := ClassChar(p).value;
            if lo.rest[0] == '-' then var hi := ClassChar(lo.rest[1..]).value; r == Range(lo.c, hi.c) && rest == hi.rest
            else r == Range(lo.c, lo.c) && rest == lo.rest
  {
    var lo := ClassChar(p).value;
    if lo.rest[0] == '-' {
      var hi := ClassChar(lo.rest[1..]).value;
      w := DashedRange(p);
      r, rest := Range(lo.c, hi.c), hi.rest;
    } else {
      w := CharWritten(p);
      r, rest := Range(lo.c, lo.c), lo.rest;
    }
  }

  lemma RangesAfter(p: string, seen: seq<Range>, r: Range, w: string, rest: string)
    requires ClassRanges(p, seen).Some? && !(p != "" && p[0] == ']' && seen != [])
    requires ClassChar(p).Some? && p == w + rest
    requires var lo := ClassChar(p).value;
             lo.rest[0] == '-' ==> ClassChar(lo.rest[1..]).Some?
    requires var lo := ClassChar(p).value;
            if lo.rest[0] == '-' then var hi := ClassChar(lo.rest[1..]).value; r == Range(lo.c, hi.c) && rest == hi.rest
            else r == Range(lo.c, lo.c) && rest == lo.rest
    ensures ClassRanges(p, seen) == ClassRanges(rest, seen + [r])
  {
  }

  lemma {:induction false} RangesWritten(p: string, seen: seq<Range>) returns (ranges: seq<Range>, ws: seq<string>)
    requires ClassRanges(p, seen).Some?
    ensures var body := ClassRanges(p, seen).value;
            && body.ranges == seen + ranges && body.ranges != []
            && RangeTexts(ranges, ws) && p == Ending(ws, body.rest)
    decreases |p|
  {
    if p != "" && p[0] == ']' && seen != [] {
      ranges, ws := [], [];
      assert p == "]" + p[1..];
    } else {
      var r, w, rest := OneRange(p);
      RangesAfter(p, seen, r, w, rest);
      var body := ClassRanges(p, seen).value;
      var laterRanges, later := RangesWritten(rest, seen + [r]);
      ranges, ws := [r] + laterRanges, [w] + later;
      ConcatAssociates(seen, [r], laterRanges);
      TextsCons(r, w, laterRanges, later);
      EndingNext(w, later, body.rest);
    }
  }

  lemma ClassOpened(negated: bool, inner: string, body: string)
    requires inner == (if negated then "^" + body else body) && body != "" && (!negated ==> body[0] != '^')
    ensures Parse("[" + inner)
            == match ClassRanges(body, [])
               case None => None
               case Some(b) => Prepend(Class(negated, b.ranges), Parse(b.rest))
  {
    var p := "[" + inner;
    assert p[1..] == inner;
    if negated {
      assert p[2..] == body && p[1] == '^';
    } else {
      assert p[1] == body[0];
    }
  }

  lemma ClassBodyRead(negated: bool, ranges: seq<Range>, ws: seq<string>, rest: string)
    requires RangeTexts(ranges, ws) && ranges != [] && (!negated ==> Ending(ws, rest)[0] != '^')
    ensures var inner := if negated then "^" + Ending(ws, rest) else Ending(ws, rest);
            Parse("[" + inner) == Prepend(Class(negated, ranges), Parse(rest))
  {
    RangesRead(ranges, ws, [], rest);
    RangesStart(ranges, ws, rest);
    assert [] + ranges == ranges;
    ClassOpened(negated, if negated then "^" + Ending(ws, rest) else Ending(ws, rest), Ending(ws, rest));
  }

  lemma ClassRead(negated: bool, ranges: seq<Range>, w: string, rest: string)
    requires Spells(Class(negated, ranges), w)
    ensures Parse(w + rest) == Prepend(Class(negated, ranges), Parse(rest))
  {
    var ws :| ClassText(negated, ranges, ws, w[1..]);
    ClassTextEnds(negated, ranges, ws, w[1..], rest);
    ClassBodyRead(negated, ranges, ws, rest);
    Opening(w, rest);
  }

  lemma Opening(w: string, rest: string)
    requires w != "" && w[0] == '['
    ensures w + rest == "[" + (w[1..] + rest)
  {
  }

  lemma ClassTextEnds(negated: bool, ranges: seq<Range>, ws: seq<string>, inner: string, rest: string)
    requires ClassText(negated, ranges, ws, inner)
    ensures inner + rest == (if negated then "^" + Ending(ws, rest) else Ending(ws, rest))
    ensures !negated ==> Ending(ws, rest) != "" && Ending(ws, rest)[0] != '^'
  {
    assert inner == if negated then "^" + (Concat(ws) + "]") else Concat(ws) + "]";
    assert (Concat(ws) + "]") + rest == Ending(ws, rest);
  }

  /** A token's text is read as that token. */
  lemma TokenRead(t: Token, w: string, rest: string)
    requires Spells(t, w)
    ensures Parse(w + rest) == Prepend(t, Parse(rest))
  {
    if t.Class? {
      ClassRead(t.negated, t.ranges, w, rest);
    } else if |w| == 1 {
      assert (w + rest)[1..] == rest;
    } else {
      assert (w + rest)[2..] == rest;
    }
  }

  lemma {:induction false} SpelledParses(ts: seq<Token>, ws: seq<string>, p: string)
    requires SpellsAll(ts, ws, p)
    ensures Parse(p) == Some(ts)
    decreases |ts|
  {
    if ts != [] {
      assert Spells(ts[0], ws[0]);
      SpelledParses(ts[1..], ws[1..], Concat(ws[1..]));
      TokenRead(ts[0], ws[0], Concat(ws[1..]));
      assert ts == [ts[0]] + ts[1..];
    }
  }

  function ClassBodyOf(p: string): string {
    if |p| > 1 && p[1] == '^' then p[2..] else if p != "" then p[1..] else ""
  }

  lemma ClassHas(p: string)
    requires p != "" && p[0] == '[' && Parse(p).Some?
    ensures ClassRanges(ClassBodyOf(p), []).Some?
  {
  }

  function Inner(negated: bool, ws: seq<string>): string {
    if negated then "^" + (Concat(ws) + "]") else Concat(ws) + "]"
  }

  lemma ClassSplits(p: string, ws: seq<string>, rest: string)
    requires p != "" && p[0] == '[' && ClassBodyOf(p) == Ending(ws, rest)
    ensures var negated := |p| > 1 && p[1] == '^';
            var w := "[" + Inner(negated, ws);
            && p == w + rest && w[1..] == Inner(negated, ws) && (!negated ==> w[1] != '^')
  {
    assert Ending(ws, rest) == (Concat(ws) + "]") + rest;
  }

  lemma ClassWritten(p: string) returns (t: Token, w: string, rest: string)
    requires p != "" && p[0] == '[' && Parse(p).Some?
    ensures Spells(t, w) && p == w + rest && |rest| < |p| && Parse(p) == Prepend(t, Parse(rest))
  {
    ClassHas(p);
    var negated := |p| > 1 && p[1] == '^';
    var ranges, ws := RangesWritten(ClassBodyOf(p), []);
    assert [] + ranges == ranges;
    t, rest := Class(negated, ranges), ClassRanges(ClassBodyOf(p), []).value.rest;
    w := "[" + Inner(negated, ws);
    ClassSplits(p, ws, rest);
    assert ClassText(negated, ranges, ws, w[1..]);
    ClassRead(negated, ranges, w, rest);
  }

  lemma TokenWritten(p: string) returns (t: Token, w: string, rest: string)
    requires p != "" && Parse(p).Some?
    ensures Spells(t, w) && p == w + rest && |rest| < |p| && Parse(p) == Prepend(t, Parse(rest))
  {
    if p[0] == '[' {
      t, w, rest := ClassWritten(p);
    } else if p[0] == '\\' {
      t, w, rest := Literal(p[1]), p[..2], p[2..];
    } else {
      w, rest := p[..1], p[1..];
      t := if p[0] == '*' then Star else if p[0] == '?' then AnyOne else Literal(p[0]);
    }
  }

  lemma {:induction false} ParsedIsSpelled(p: string, ts: seq<Token>) returns (ws: seq<string>)
    requires Parse(p) == Some(ts)
    ensures SpellsAll(ts, ws, p)
    decreases |p|
  {
    if p == "" {
      ws := [];
    } else {
      var t, w, rest := TokenWritten(p);
      var later := ParsedIsSpelled(rest, ts[1..]);
      ws := [w] + later;
      ConcatTwo(w, later);
    }
  }

  /** Reading a glob is undoing its writing: it has these tokens exactly when it spells them, one
      after the other. */
  lemma ParseIff(p: string, ts: seq<Token>)
    ensures Parse(p) == Some(ts) <==> exists ws :: SpellsAll(ts, ws, p)
  {
    if Parse(p) == Some(ts) {
      var ws := ParsedIsSpelled(p, ts);
    }
    if ws :| SpellsAll(ts, ws, p) {
      SpelledParses(ts, ws, p);
    }
  }

  /** Some reading of the glob cuts the name into pieces its tokens take. */
  ghost predicate GlobTakes(p: string, name: string) {
    exists ts, ws, pieces :: SpellsAll(ts, ws, p) && Cuts(ts, pieces, name)
  }

  /** filepath.Match in terms of texts alone. */
  lemma MatchIff(p: string, name: string)
    ensures Match(p, name) == Matched(true) <==> GlobTakes(p, name)
    ensures Match(p, name).BadPattern? <==> forall ts, ws :: !SpellsAll(ts, ws, p)
  {
    if Parse(p).Some? {
      var ts := Parse(p).value;
      var ws := ParsedIsSpelled(p, ts);
      MatchTokensIff(ts, name);
    }
    if ts, ws, pieces :| SpellsAll(ts, ws, p) && Cuts(ts, pieces, name) {
      SpelledParses(ts, ws, p);
      MatchTokensIff(ts, name);
    }
    if ts, ws :| SpellsAll(ts, ws, p) {
      SpelledParses(ts, ws, p);
    }
  }

  // ---- the globs that targets use most ------------------------------------------------------------------

  /** A string that stands for itself. */
  predicate Plain(s: string) {
    forall c :: c in s ==> c !in {'*', '?', '[', '\\'}
  }

  lemma {:induction false} PlainParses(s: string, rest: string, ts: seq<Token>)
    requires Plain(s) && Parse(rest) == Some(ts)
    ensures Parse(s + rest) == Some(seq(|s|, i requires 0 <= i < |s| => Literal(s[i])) + ts)
  {
    var all := seq(|s|, i requires 0 <= i < |s| => Literal(s[i]));
    if s == "" {
      assert s + rest == rest && all + ts == ts;
    } else {
      var later := seq(|s[1..]|, i requires 0 <= i < |s[1..]| => Literal(s[1..][i]));
      assert all + ts == [Literal(s[0])] + (later + ts);
      forall c | c in s[1..] ensures c in s {
      }
      PlainParses(s[1..], rest, ts);
      assert (s + rest)[1..] == s[1..] + rest && (s + rest)[0] == s[0] && s[0] in s;
      assert Parse(s + rest) == Prepend(Literal(s[0]), Parse(s[1..] + rest));
    }
  }

  lemma {:induction false} LiteralsMatch(s: string, ts: seq<Token>, name: string)
    ensures MatchTokens(seq(|s|, i requires 0 <= i < |s| => Literal(s[i])) + ts, name)
            <==> s <= name && MatchTokens(ts, name[|s|..])
  {
    var all := seq(|s|, i requires 0 <= i < |s| => Literal(s[i]));
    if s == "" {
      assert all + ts == ts && name[0..] == name;
    } else {
      var later := seq(|s[1..]|, i requires 0 <= i < |s[1..]| => Literal(s[1..][i]));
      assert (all + ts)[1..] == later + ts;
      if name != "" {
        LiteralsMatch(s[1..], ts, name[1..]);
        if s <= name {
          assert s[1..] <= name[1..] && name[1..][|s| - 1..] == name[|s|..];
        }
        if s[0] == name[0] && s[1..] <= name[1..] {
          assert s == [s[0]] + s[1..] && name == [name[0]] + name[1..];
          assert name[1..][|s| - 1..] == name[|s|..];
        }
      }
    }
  }

  lemma StarTakesAll(name: string)
    ensures MatchTokens([Star], name) <==> '/' !in name
  {
    if '/' !in name {
      assert Concat([name]) == name + Concat([name][1..]) == name;
      assert Cuts([Star], [name], name);
      CutIsMatched([Star], [name], name);
    }
    if MatchTokens([Star], name) {
      var pieces := MatchedIsCut([Star], name);
      assert Concat(pieces) == pieces[0] + Concat(pieces[1..]) == pieces[0];
    }
  }

  /** A literal prefix and a star: the names that begin with it, slashes excepted. */
  lemma PrefixGlob(prefix: string, name: string)
    requires Plain(prefix)
    ensures Match(prefix + "*", name) == Matched(prefix <= name && '/' !in name[|prefix|..])
  {
    assert "*"[1..] == "" && Parse("") == Some([]) && Parse("*") == Some([Star] + []);
    ConcatEmpty([Star]);
    PlainParses(prefix, "*", [Star]);
    LiteralsMatch(prefix, [Star], name);
    if prefix <= name {
      StarTakesAll(name[|prefix|..]);
    }
  }

  /** A star alone matches every directory name. */
  lemma StarGlob(name: string)
    requires GoodName(name)
    ensures Match("*", name) == Matched(true)
  {
    assert "" + "*" == "*" && name[0..] == name;
    PrefixGlob("", name);
  }

  /** A plain word matches itself alone. */
  lemma WordGlob(word: string, name: string)
    requires Plain(word)
    ensures Match(word, name) == Matched(name == word)
  {
    assert word + "" == word && Parse("") == Some([]);
    PlainParses(word, "", []);
    LiteralsMatch(word, [], name);
    if word <= name && name[|word|..] == "" {
      assert name == word + name[|word|..];
    }
  }
}
