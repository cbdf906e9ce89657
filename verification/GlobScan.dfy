/** Reading a glob one character at a time: where each character stands, when a pattern is well
    formed, and what splitting it at its slashes does to that. */
module GlobScan {
  import opened Text
  import opened Glob
  import opened Pattern

  /** Where the next character of a pattern stands. Only Outside is outside every class and not
      behind a backslash; Broken is past a mistake. */
  datatype Place =
    | Outside | AfterEscape
    | ClassStart | ClassFirst
    | AfterLow | EscapedLow | AfterDash | EscapedHigh | AfterRange
    | Broken

  /** A character where a class wants the next range. */
  function Low(c: char): Place {
    if c == '-' || c == ']' then Broken else if c == '\\' then EscapedLow else AfterLow
  }

  function Step(p: Place, c: char): Place {
    match p
    case Outside => if c == '\\' then AfterEscape else if c == '[' then ClassStart else Outside
    case AfterEscape => Outside
    case ClassStart => if c == '^' then ClassFirst else Low(c)
    case ClassFirst => Low(c)
    case AfterLow => if c == '-' then AfterDash else if c == ']' then Outside else Low(c)
    case EscapedLow => AfterLow
    case AfterDash => if c == '-' || c == ']' then Broken else if c == '\\' then EscapedHigh else AfterRange
    case EscapedHigh => AfterRange
    case AfterRange => if c == ']' then Outside else Low(c)
    case Broken => Broken
  }

  /** The place after reading s from p. */
  function Read(p: Place, s: string): Place
    decreases |s|
  {
    if s == "" then p else Read(Step(p, s[0]), s[1..])
  }

  lemma {:induction false} ReadConcat(p: Place, a: string, b: string)
    ensures Read(p, a + b) == Read(Read(p, a), b)
    decreases |a|
  {
    if a == "" {
      assert a + b == b;
    } else {
      assert (a + b)[1..] == a[1..] + b;
      ReadConcat(Step(p, a[0]), a[1..], b);
    }
  }

  lemma {:induction false} ReadBroken(s: string)
    ensures Read(Broken, s) == Broken
  {
    if s != "" {
      ReadBroken(s[1..]);
    }
  }

  // ---- reading to the end outside is being well formed -----------------------------------------

  lemma LowRead(p: Place, s: string)
    requires p == ClassFirst || (p == AfterRange && (s == "" || s[0] != ']'))
    ensures ClassChar(s).Some? ==> Read(p, s) == Read(AfterLow, ClassChar(s).value.rest)
    ensures ClassChar(s).None? ==> Read(p, s) != Outside
  {
    if s != "" {
      ReadBroken(s[1..]);
      if |s| == 1 {
        assert s[1..] == "";
      } else if s[0] == '\\' {
        assert s[1..][1..] == s[2..] && s[1..][0] == s[1];
        assert Read(p, s) == Read(EscapedLow, s[1..]) == Read(AfterLow, s[2..]);
        assert |s| == 2 ==> s[2..] == "";
      }
    }
  }

  lemma HighRead(s: string)
    ensures ClassChar(s).Some? ==> Read(AfterDash, s) == Read(AfterRange, ClassChar(s).value.rest)
    ensures ClassChar(s).None? ==> Read(AfterDash, s) != Outside
  {
    if s != "" {
      ReadBroken(s[1..]);
      if |s| == 1 {
        assert s[1..] == "";
      } else if s[0] == '\\' {
        assert s[1..][1..] == s[2..] && s[1..][0] == s[1];
        assert Read(AfterDash, s) == Read(EscapedHigh, s[1..]) == Read(AfterRange, s[2..]);
        assert |s| == 2 ==> s[2..] == "";
      }
    }
  }

  lemma {:induction false} ClassRead(s: string, seen: seq<Range>)
    ensures var p := if seen == [] then ClassFirst else AfterRange;
            match ClassRanges(s, seen)
            case Some(body) => Read(p, s) == Read(Outside, body.rest)
            case None => Read(p, s) != Outside
    decreases |s|
  {
    var p := if seen == [] then ClassFirst else AfterRange;
    if !(s != "" && s[0] == ']' && seen != []) {
      LowRead(p, s);
      match ClassChar(s)
      case None =>
      case Some(lo) =>
        if lo.rest[0] == '-' {
          HighRead(lo.rest[1..]);
          match ClassChar(lo.rest[1..])
          case None =>
          case Some(hi) => ClassRead(hi.rest, seen + [Range(lo.c, hi.c)]);
        } else {
          ClassRead(lo.rest, seen + [Range(lo.c, lo.c)]);
        }
    }
  }

  /** A pattern is well formed exactly when reading it ends outside. */
  lemma {:induction false} ParseRead(p: string)
    ensures Parse(p).Some? <==> Read(Outside, p) == Outside
    decreases |p|
  {
    if p != "" {
      if p[0] == '\\' {
        if |p| > 1 {
          assert p[1..][1..] == p[2..];
          ParseRead(p[2..]);
        }
      } else if p[0] == '[' {
        ClassOpened(p);
      } else {
        ParseRead(p[1..]);
      }
    }
  }

  lemma {:induction false} ClassOpened(p: string)
    requires p != "" && p[0] == '['
    ensures Parse(p).Some? <==> Read(Outside, p) == Outside
    decreases |p|, 0
  {
    var negated := |p| > 1 && p[1] == '^';
    var body := p[if negated then 2 else 1..];
    if negated {
      assert p[1..][1..] == p[2..];
    }
    ClassRead(body, []);
    match ClassRanges(body, [])
    case None =>
    case Some(b) => ParseRead(b.rest);
  }

  // ---- #include and its stand-in read alike -------------------------------------------------------

  predicate Ordinary(c: char) {
    c != '\\' && c != '[' && c != ']' && c != '-' && c != '^'
  }

  predicate Word(w: string) {
    |w| >= 2 && forall i :: 0 <= i < |w| ==> Ordinary(w[i])
  }

  /** Two or more ordinary characters lead where two do. */
  lemma {:induction false} WordRead(p: Place, w: string)
    requires Word(w)
    ensures Read(p, w) == (match p
                           case Outside => Outside
                           case AfterEscape => Outside
                           case Broken => Broken
                           case _ => AfterLow)
    decreases |w|
  {
    var q := Step(p, w[0]);
    if |w| == 2 {
      assert w[1..][1..] == "" && w[1..][0] == w[1];
      assert Read(q, w[1..]) == Read(Step(q, w[1]), w[1..][1..]);
    } else {
      WordRead(q, w[1..]);
    }
  }

  lemma StandInRead(p: Place)
    ensures Read(p, "#include") == Read(p, "dummy") && Read(Outside, "#include") == Outside
  {
    WordRead(p, "#include");
    WordRead(p, "dummy");
    WordRead(Outside, "#include");
  }

  lemma {:induction false} ReplaceRead(p: Place, s: string)
    ensures Read(p, ReplaceAll(s, "#include", "dummy")) == Read(p, s)
    decreases |s|
  {
    if s != "" {
      if "#include" <= s {
        var rest := s[|"#include"|..];
        assert s == "#include" + rest;
        StandInRead(p);
        ReadConcat(p, "#include", rest);
        ReadConcat(p, "dummy", ReplaceAll(rest, "#include", "dummy"));
        ReplaceRead(Read(p, "#include"), rest);
      } else {
        var rest := ReplaceAll(s[1..], "#include", "dummy");
        assert ([s[0]] + rest)[1..] == rest;
        ReplaceRead(Step(p, s[0]), s[1..]);
      }
    }
  }

  // ---- splitting at slashes ---------------------------------------------------------------------------

  /** No slash of the pattern stands inside a class or after a backslash. */
  predicate SlashesOutside(p: string) {
    forall i :: 0 <= i < |p| && p[i] == '/' ==> Read(Outside, p[..i]) == Outside
  }

  predicate Whole(p: string) {
    SlashesOutside(p) && Read(Outside, p) == Outside
  }

  predicate AllWhole(parts: seq<string>) {
    forall i :: 0 <= i < |parts| ==> Read(Outside, parts[i]) == Outside
  }

  /** The part before the first slash, and the part after it. */
  lemma {:induction false} FirstSlash(p: string) returns (w: string, s: string)
    requires '/' in p
    ensures '/' !in w && p == w + ['/'] + s
  {
    if p[0] == '/' {
      w, s := "", p[1..];
    } else {
      w, s := FirstSlash(p[1..]);
      w := [p[0]] + w;
    }
  }

  lemma ReadPastSlash(w: string, s: string)
    requires Read(Outside, w) == Outside
    ensures Read(Outside, w + ['/'] + s) == Read(Outside, s)
  {
    ReadConcat(Outside, w, ['/']);
    assert Read(Outside, ['/']) == Read(Outside, ['/'][1..]);
    ReadConcat(Outside, w + ['/'], s);
  }

  lemma SlashBetween(w: string, s: string)
    requires '/' !in w
    ensures Whole(w + ['/'] + s) <==> Read(Outside, w) == Outside && Whole(s)
  {
    var p, n := w + ['/'] + s, |w| + 1;
    assert p[..|w|] == w && p[|w|] == '/';
    if Read(Outside, w) == Outside {
      ReadPastSlash(w, s);
      forall i | 0 <= i < |s| ensures p[n + i] == s[i] && Read(Outside, p[..n + i]) == Read(Outside, s[..i]) {
        ReadPastSlash(w, s[..i]);
        assert p[..n + i] == w + ['/'] + s[..i];
      }
      if Whole(s) {
        SlashesJoined(w, s);
      }
      if Whole(p) {
        forall i | 0 <= i < |s| && s[i] == '/' ensures Read(Outside, s[..i]) == Outside {
          assert p[n + i] == s[i];
        }
      }
    }
  }

  lemma SlashesJoined(w: string, s: string)
    requires '/' !in w && Read(Outside, w) == Outside && SlashesOutside(s)
    ensures SlashesOutside(w + ['/'] + s)
  {
    var p, n := w + ['/'] + s, |w| + 1;
    forall i | 0 <= i < |w| ensures p[i] != '/' {
      assert p[i] == w[i];
    }
    forall i | 0 <= i < |p| && p[i] == '/' ensures Read(Outside, p[..i]) == Outside {
      if i == |w| {
        assert p[..i] == w;
      } else {
        assert p[i] == s[i - n] && p[..i] == w + ['/'] + s[..i - n];
        ReadPastSlash(w, s[..i - n]);
      }
    }
  }

  lemma AllWholeCons(w: string, parts: seq<string>)
    ensures AllWhole([w] + parts) <==> Read(Outside, w) == Outside && AllWhole(parts)
  {
    var all := [w] + parts;
    assert forall i :: 0 <= i < |parts| ==> all[i + 1] == parts[i];
    if Read(Outside, w) == Outside && AllWhole(parts) {
      forall i | 0 <= i < |all| ensures Read(Outside, all[i]) == Outside {
        if i > 0 {
          assert all[i] == parts[i - 1];
        }
      }
    }
    if AllWhole(all) {
      assert all[0] == w;
      forall i | 0 <= i < |parts| ensures Read(Outside, parts[i]) == Outside {
        assert all[i + 1] == parts[i];
      }
    }
  }

  /** The parts of a split are all well formed exactly when the whole is and no slash of it stands
      inside a class or after a backslash. */
  lemma {:induction false} SplitWhole(p: string)
    ensures AllWhole(Split(p, '/')) <==> Whole(p)
    decreases |p|
  {
    if '/' in p {
      var w, s := FirstSlash(p);
      SplitAfterWord(w, s, '/');
      SplitWhole(s);
      SlashBetween(w, s);
      AllWholeCons(w, Split(s, '/'));
    } else {
      SplitWord(p, '/');
      forall i | 0 <= i < |p| ensures p[i] != '/' {
        assert p[i] in p;
      }
      assert [p][0] == p;
    }
  }

  lemma {:induction false} TrimLeftWhole(p: string)
    ensures Whole(TrimLeft(p, '/')) <==> Whole(p)
  {
    if p != "" && p[0] == '/' {
      TrimLeftWhole(p[1..]);
      SlashBetween("", p[1..]);
      assert "" + ['/'] + p[1..] == p;
    }
  }

  lemma {:induction false} TrimRightWhole(p: string)
    ensures Whole(TrimRight(p, '/')) <==> Whole(p)
  {
    if p != "" && p[|p| - 1] == '/' {
      var q := p[..|p| - 1];
      TrimRightWhole(q);
      assert p == q + ['/'];
      ReadConcat(Outside, q, ['/']);
      assert Read(Outside, ['/']) == Read(Outside, ['/'][1..]);
      forall i | 0 <= i < |q| ensures p[i] == q[i] && p[..i] == q[..i] {
      }
      if Whole(p) {
        assert p[..|q|] == q && p[|q|] == '/';
      }
      if Whole(q) {
        forall i | 0 <= i < |p| && p[i] == '/' ensures Read(Outside, p[..i]) == Outside {
          assert i == |q| ==> p[..i] == q;
        }
      }
    }
  }

  /** Every segment the walk matches against a name, #include aside, is well formed. */
  predicate SegmentsParse(pattern: string) {
    forall i :: 0 <= i < |Segments(pattern)| ==>
      Segments(pattern)[i] == "#include" || Parse(Segments(pattern)[i]).Some?
  }

  /** The segments are well formed exactly when the whole pattern passes the check made before
      the walk and no slash of it stands inside a class or after a backslash. */
  lemma SegmentsParseIff(pattern: string)
    ensures SegmentsParse(pattern)
            <==> Parse(ReplaceAll(pattern, "#include", "dummy")).Some? && SlashesOutside(pattern)
  {
    ParseRead(ReplaceAll(pattern, "#include", "dummy"));
    ReplaceRead(Outside, pattern);
    TrimLeftWhole(pattern);
    TrimRightWhole(TrimLeft(pattern, '/'));
    SplitWhole(Trim(pattern, '/'));
    StandInRead(Outside);
    var segments := Segments(pattern);
    forall i | 0 <= i < |segments|
      ensures Read(Outside, segments[i]) == Outside <==> segments[i] == "#include" || Parse(segments[i]).Some?
    {
      ParseRead(segments[i]);
    }
  }
}
