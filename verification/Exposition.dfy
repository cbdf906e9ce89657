/** Label values (lv, metrics.go) and the text of exposition lines, with an independent reader
    after the Prometheus text format 0.0.4. */
module Exposition {
  import opened Wrappers
  import opened Text

  // ---- lv: three replacement passes ------------------------------------------------------------

  /** The body of lv, before the quotes are put around it. */
  function Escape(s: string): string {
    ReplaceAll(ReplaceAll(ReplaceAll(s, "\\", "\\\\"), "\n", "\\n"), "\"", "\\\"")
  }

  function LabelValue(s: string): string {
    "\"" + Escape(s) + "\""
  }

  /** What one character of a value is written as. */
  function EscapedChar(c: char): string {
    if c == '\\' then "\\\\" else if c == '\n' then "\\n" else if c == '"' then "\\\"" else [c]
  }

  function EscapeEach(s: string): string {
    if s == "" then "" else EscapedChar(s[0]) + EscapeEach(s[1..])
  }

  lemma {:induction false} ReplaceConcat(a: string, b: string, c: char, into: string)
    ensures ReplaceAll(a + b, [c], into) == ReplaceAll(a, [c], into) + ReplaceAll(b, [c], into)
  {
    if a == "" {
      assert a + b == b;
    } else {
      assert (a + b)[1..] == a[1..] + b;
      ReplaceConcat(a[1..], b, c, into);
      assert [c] <= a <==> a[0] == c;
      assert [c] <= a + b <==> a[0] == c;
    }
  }

  lemma ReplaceOne(x: char, c: char, into: string)
    ensures ReplaceAll([x], [c], into) == if x == c then into else [x]
  {
    assert [x][1..] == "";
    assert [c] <= [x] ==> [c][0] == [x][0];
  }

  lemma EscapeConcat(a: string, b: string)
    ensures Escape(a + b) == Escape(a) + Escape(b)
  {
    ReplaceConcat(a, b, '\\', "\\\\");
    var a1, b1 := ReplaceAll(a, "\\", "\\\\"), ReplaceAll(b, "\\", "\\\\");
    ReplaceConcat(a1, b1, '\n', "\\n");
    ReplaceConcat(ReplaceAll(a1, "\n", "\\n"), ReplaceAll(b1, "\n", "\\n"), '"', "\\\"");
  }

  lemma ReplaceTwo(x: char, y: char, c: char, into: string)
    ensures ReplaceAll([x, y], [c], into) == ReplaceAll([x], [c], into) + ReplaceAll([y], [c], into)
  {
    assert [x] + [y] == [x, y];
    ReplaceConcat([x], [y], c, into);
  }

  lemma EscapeOne(c: char)
    ensures Escape([c]) == EscapedChar(c)
  {
    ReplaceOne(c, '\\', "\\\\");
    if c == '\\' {
      ReplaceTwo('\\', '\\', '\n', "\\n");
      ReplaceOne('\\', '\n', "\\n");
      ReplaceTwo('\\', '\\', '"', "\\\"");
      ReplaceOne('\\', '"', "\\\"");
    } else {
      ReplaceOne(c, '\n', "\\n");
      if c == '\n' {
        ReplaceTwo('\\', 'n', '"', "\\\"");
        ReplaceOne('\\', '"', "\\\"");
        ReplaceOne('n', '"', "\\\"");
      } else {
        ReplaceOne(c, '"', "\\\"");
      }
    }
  }

  /** The three passes, each over the output of the one before, amount to one pass that
      rewrites each character on its own: no pass touches what an earlier one wrote. */
  lemma {:induction false} PassesCompose(s: string)
    ensures Escape(s) == EscapeEach(s)
  {
    if s != "" {
      assert [s[0]] + s[1..] == s;
      EscapeConcat([s[0]], s[1..]);
      EscapeOne(s[0]);
      PassesCompose(s[1..]);
    }
  }

  // ---- reading a value back --------------------------------------------------------------------

  /** A quoted value read from just after its opening quote: the value, and what follows the
      closing quote. Only the three escapes exist, and a raw line feed ends the line early. */
  function ReadValue(s: string): (r: Option<(string, string)>)
    ensures r.Some? ==> |r.value.1| < |s|
    decreases |s|
  {
    if s == "" || s[0] == '\n' then None
    else if s[0] == '"' then Some(("", s[1..]))
    else if s[0] == '\\' then
      if |s| < 2 || s[1] !in {'\\', 'n', '"'} then None
      else
        var later := ReadValue(s[2..]);
        if later.None? then None else Some(([if s[1] == 'n' then '\n' else s[1]] + later.value.0, later.value.1))
    else
      var later := ReadValue(s[1..]);
      if later.None? then None else Some(([s[0]] + later.value.0, later.value.1))
  }

  lemma {:induction false} ReadEscaped(v: string, rest: string)
    ensures ReadValue(EscapeEach(v) + "\"" + rest) == Some((v, rest))
  {
    var s := EscapeEach(v) + "\"" + rest;
    if v == "" {
      assert s[1..] == rest;
    } else {
      var later := EscapeEach(v[1..]) + "\"" + rest;
      ReadEscaped(v[1..], rest);
      assert s == EscapedChar(v[0]) + later;
      ReadEscapedChar(v[0], later);
      assert [v[0]] + v[1..] == v;
    }
  }

  lemma ReadEscapedChar(c: char, later: string)
    requires ReadValue(later).Some?
    ensures ReadValue(EscapedChar(c) + later) == Some(([c] + ReadValue(later).value.0, ReadValue(later).value.1))
  {
    var e := EscapedChar(c);
    assert (e + later)[|e|..] == later;
  }

  /** Whatever follows on the line, a value written by lv reads back as itself. */
  lemma LabelValueRoundTrip(v: string, rest: string)
    ensures LabelValue(v)[0] == '"' && ReadValue(LabelValue(v)[1..] + rest) == Some((v, rest))
  {
    PassesCompose(v);
    ReadEscaped(v, rest);
    assert LabelValue(v)[1..] + rest == EscapeEach(v) + "\"" + rest;
  }

  /** The number of backslashes that end s. */
  function Backslashes(s: string): nat {
    if s != "" && s[|s| - 1] == '\\' then 1 + Backslashes(s[..|s| - 1]) else 0
  }

  /** No raw line feed, and every quote stands after an odd number of backslashes. */
  predicate SafeBody(body: string) {
    && '\n' !in body
    && (forall i :: 0 <= i < |body| && body[i] == '"' ==> Backslashes(body[..i]) % 2 == 1)
  }

  lemma {:induction false} EscapeSnoc(s: string, c: char)
    ensures EscapeEach(s + [c]) == EscapeEach(s) + EscapedChar(c)
  {
    if s == "" {
      assert ([] + [c])[1..] == "";
    } else {
      EscapeSnoc(s[1..], c);
      assert (s + [c])[1..] == s[1..] + [c];
    }
  }

  lemma SafeAppend(before: string, x: char)
    requires SafeBody(before) && x != '\n' && (x == '"' ==> Backslashes(before) % 2 == 1)
    ensures SafeBody(before + [x])
    ensures Backslashes(before + [x]) == if x == '\\' then Backslashes(before) + 1 else 0
  {
    var body, n := before + [x], |before|;
    assert body[..n] == before;
    forall i | 0 <= i < |body| && body[i] == '"' ensures Backslashes(body[..i]) % 2 == 1 {
      if i < n {
        assert body[..i] == before[..i] && before[i] == '"';
      }
    }
  }

  lemma SafeNext(before: string, c: char)
    requires SafeBody(before) && Backslashes(before) % 2 == 0
    ensures var body := before + EscapedChar(c); SafeBody(body) && Backslashes(body) % 2 == 0
  {
    var e := EscapedChar(c);
    SafeAppend(before, e[0]);
    if |e| == 2 {
      SafeAppend(before + [e[0]], e[1]);
      assert before + [e[0]] + [e[1]] == before + e;
    } else {
      assert before + [e[0]] == before + e;
    }
  }

  lemma {:induction false} EscapeEachSafe(s: string)
    ensures SafeBody(EscapeEach(s)) && Backslashes(EscapeEach(s)) % 2 == 0
  {
    if s != "" {
      var init, c := s[..|s| - 1], s[|s| - 1];
      EscapeEachSafe(init);
      assert init + [c] == s;
      EscapeSnoc(init, c);
      SafeNext(EscapeEach(init), c);
    }
  }

  /** A rendered value cannot end its line or its quotes early. */
  lemma EscapeSafe(s: string)
    ensures SafeBody(Escape(s))
  {
    PassesCompose(s);
    EscapeEachSafe(s);
  }

  // ---- lines --------------------------------------------------------------------------------------

  datatype LabelPair = LabelPair(name: string, value: string)

  /** What a line of the exposition says. */
  datatype Line =
    | Help(metric: string, text: string)
    | Type(metric: string, kind: string)
    | Sample(metric: string, labels: seq<LabelPair>, value: string)

  function PairText(p: LabelPair): string {
    p.name + "=" + LabelValue(p.value)
  }

  function PairsText(labels: seq<LabelPair>): string
    requires labels != []
  {
    PairText(labels[0]) + if |labels| == 1 then "}" else "," + PairsText(labels[1..])
  }

  const HELP := "# HELP "
  const TYPE := "# TYPE "

  function CommentText(metric: string, text: string): string {
    metric + " " + text + "\n"
  }

  function SampleText(metric: string, labels: seq<LabelPair>, value: string): string {
    metric + (if labels == [] then "" else "{" + PairsText(labels)) + " " + value + "\n"
  }

  function LineText(l: Line): string {
    match l
    case Help(metric, text) => HELP + CommentText(metric, text)
    case Type(metric, kind) => TYPE + CommentText(metric, kind)
    case Sample(metric, labels, value) => SampleText(metric, labels, value)
  }

  function Print(lines: seq<Line>): string {
    if lines == [] then "" else LineText(lines[0]) + Print(lines[1..])
  }

  lemma {:induction false} PrintConcat(a: seq<Line>, b: seq<Line>)
    ensures Print(a + b) == Print(a) + Print(b)
  {
    if a == [] {
      assert a + b == b;
    } else {
      assert (a + b)[1..] == a[1..] + b;
      PrintConcat(a[1..], b);
    }
  }

  // ---- an independent reader ------------------------------------------------------------------------

  /** The text up to the first character of stops, and the rest from there on. */
  function Cut(s: string, stops: set<char>): (r: Option<(string, string)>)
    ensures r.Some? ==> r.value.1 != "" && |r.value.1| <= |s|
  {
    if s == "" then None
    else if s[0] in stops then Some(("", s))
    else
      var later := Cut(s[1..], stops);
      if later.None? then None else Some(([s[0]] + later.value.0, later.value.1))
  }

  function ReadPair(s: string): (r: Option<(LabelPair, string)>)
    ensures r.Some? ==> |r.value.1| < |s|
  {
    var name := Cut(s, {'='});
    if name.None? || |name.value.1| < 2 || name.value.1[1] != '"' then None
    else
      var value := ReadValue(name.value.1[2..]);
      if value.None? then None else Some((LabelPair(name.value.0, value.value.0), value.value.1))
  }

  /** Pairs from just after the opening brace to just after the closing one. */
  function ReadPairs(s: string): (r: Option<(seq<LabelPair>, string)>)
    ensures r.Some? ==> |r.value.1| < |s|
    decreases |s|
  {
    var first := ReadPair(s);
    if first.None? || first.value.1 == "" then None
    else
      var (pair, after) := (first.value.0, first.value.1);
      if after[0] == '}' then Some(([pair], after[1..]))
      else if after[0] != ',' then None
      else
        var more := ReadPairs(after[1..]);
        if more.None? then None else Some(([pair] + more.value.0, more.value.1))
  }

  /** A name, a space, and the rest of the line: what HELP and TYPE are followed by. */
  function ReadComment(s: string): (r: Option<(string, string, string)>)
    ensures r.Some? ==> |r.value.2| < |s|
  {
    var metric := Cut(s, {' '});
    if metric.None? then None
    else
      var text := Cut(metric.value.1[1..], {'\n'});
      if text.None? then None else Some((metric.value.0, text.value.0, text.value.1[1..]))
  }

  function ReadSample(s: string): (r: Option<(Line, string)>)
    ensures r.Some? ==> |r.value.1| < |s|
  {
    var metric := Cut(s, {' ', '{'});
    if metric.None? then None
    else
      var labels :=
        if metric.value.1[0] == '{' then ReadPairs(metric.value.1[1..]) else Some(([], metric.value.1));
      if labels.None? || labels.value.1 == "" || labels.value.1[0] != ' ' then None
      else
        var value := Cut(labels.value.1[1..], {'\n'});
        if value.None? then None
        else Some((Sample(metric.value.0, labels.value.0, value.value.0), value.value.1[1..]))
  }

  /** The first line of a text, and the text after it. */
  function ReadLine(s: string): (r: Option<(Line, string)>)
    ensures r.Some? ==> |r.value.1| < |s|
  {
    if "# HELP " <= s then
      var c := ReadComment(s[7..]);
      if c.None? then None else Some((Help(c.value.0, c.value.1), c.value.2))
    else if "# TYPE " <= s then
      var c := ReadComment(s[7..]);
      if c.None? then None else Some((Type(c.value.0, c.value.1), c.value.2))
    else ReadSample(s)
  }

  function ReadAll(s: string): Option<seq<Line>>
    decreases |s|
  {
    if s == "" then Some([])
    else
      var first := ReadLine(s);
      if first.None? then None
      else
        var later := ReadAll(first.value.1);
        if later.None? then None else Some([first.value.0] + later.value)
  }

  // ---- the round trip ---------------------------------------------------------------------------------

  predicate MetricOk(name: string) {
    name != "" && name[0] != '#' && ' ' !in name && '{' !in name
  }

  /** Lines a writer may print: names without delimiters, text and numbers on one line. */
  predicate LineOk(l: Line) {
    MetricOk(l.metric) &&
    match l
    case Help(_, text) => '\n' !in text
    case Type(_, kind) => '\n' !in kind
    case Sample(_, labels, value) => '\n' !in value && forall i :: 0 <= i < |labels| ==> '=' !in labels[i].name
  }

  predicate LinesOk(lines: seq<Line>) {
    forall i :: 0 <= i < |lines| ==> LineOk(lines[i])
  }

  lemma {:induction false} CutAt(a: string, b: string, stops: set<char>)
    requires b != "" && b[0] in stops && forall i :: 0 <= i < |a| ==> a[i] !in stops
    ensures Cut(a + b, stops) == Some((a, b))
  {
    if a == "" {
      assert a + b == b;
    } else {
      assert (a + b)[1..] == a[1..] + b;
      CutAt(a[1..], b, stops);
      assert [a[0]] + a[1..] == a;
    }
  }

  lemma PairRoundTrip(p: LabelPair, after: string)
    requires '=' !in p.name
    ensures ReadPair(PairText(p) + after) == Some((p, after))
  {
    var v := LabelValue(p.value);
    LabelValueRoundTrip(p.value, after);
    var eq := ['='] + (v + after);
    assert PairText(p) + after == p.name + eq;
    CutAt(p.name, eq, {'='});
    assert eq[2..] == v[1..] + after;
    assert eq[1] == v[0];
  }

  lemma ReadLastPair(t: string, p: LabelPair, rest: string)
    requires ReadPair(t + ("}" + rest)) == Some((p, "}" + rest))
    ensures ReadPairs(t + "}" + rest) == Some(([p], rest))
  {
    assert t + "}" + rest == t + ("}" + rest);
    assert ("}" + rest)[1..] == rest;
  }

  lemma ReadPairAndMore(t: string, p: LabelPair, more: string, labels: seq<LabelPair>, rest: string)
    requires ReadPair(t + ("," + more)) == Some((p, "," + more)) && ReadPairs(more) == Some((labels, rest))
    ensures ReadPairs(t + ("," + more)) == Some(([p] + labels, rest))
  {
    assert ("," + more)[1..] == more;
  }

  /** A whole label block reads back as its names and values, whatever the values hold. */
  lemma {:induction false} PairsRoundTrip(labels: seq<LabelPair>, rest: string)
    requires labels != [] && forall i :: 0 <= i < |labels| ==> '=' !in labels[i].name
    ensures ReadPairs(PairsText(labels) + rest) == Some((labels, rest))
  {
    var p, t := labels[0], PairText(labels[0]);
    if |labels| == 1 {
      PairRoundTrip(p, "}" + rest);
      ReadLastPair(t, p, rest);
      assert [p] == labels;
    } else {
      var later := PairsText(labels[1..]);
      PairsRoundTrip(labels[1..], rest);
      PairRoundTrip(p, "," + (later + rest));
      ReadPairAndMore(t, p, later + rest, labels[1..], rest);
      assert t + ("," + later) + rest == t + ("," + (later + rest));
      assert [p] + labels[1..] == labels;
    }
  }

  lemma CommentRoundTrip(metric: string, text: string, rest: string)
    requires MetricOk(metric) && '\n' !in text
    ensures ReadComment(CommentText(metric, text) + rest) == Some((metric, text, rest))
  {
    var end := ['\n'] + rest;
    var tail := [' '] + (text + end);
    assert CommentText(metric, text) + rest == metric + tail;
    CutAt(metric, tail, {' '});
    assert tail[1..] == text + end;
    CutAt(text, end, {'\n'});
    assert end[1..] == rest;
  }

  lemma SampleRoundTrip(metric: string, labels: seq<LabelPair>, value: string, rest: string)
    requires LineOk(Sample(metric, labels, value))
    ensures ReadSample(SampleText(metric, labels, value) + rest) == Some((Sample(metric, labels, value), rest))
  {
    var end := ['\n'] + rest;
    var tail := [' '] + (value + end);
    var after := if labels == [] then tail else ['{'] + (PairsText(labels) + tail);
    assert SampleText(metric, labels, value) + rest == metric + after;
    CutAt(metric, after, {' ', '{'});
    if labels != [] {
      assert after[1..] == PairsText(labels) + tail;
      PairsRoundTrip(labels, tail);
    }
    assert tail[1..] == value + end;
    CutAt(value, end, {'\n'});
    assert end[1..] == rest;
  }

  lemma Starts(a: string, b: string, c: string)
    ensures var s := (a + b) + c; a <= s && s[|a|..] == b + c
  {
    assert (a + b) + c == a + (b + c);
  }

  lemma TypeIsNotHelp(b: string)
    ensures !(HELP <= TYPE + b)
  {
    assert (TYPE + b)[2] == TYPE[2] == 'T' && HELP[2] == 'H';
  }

  lemma LineRoundTrip(l: Line, rest: string)
    requires LineOk(l)
    ensures ReadLine(LineText(l) + rest) == Some((l, rest))
  {
    match l
    case Help(metric, text) =>
      CommentRoundTrip(metric, text, rest);
      Starts(HELP, CommentText(metric, text), rest);
    case Type(metric, kind) =>
      CommentRoundTrip(metric, kind, rest);
      Starts(TYPE, CommentText(metric, kind), rest);
      TypeIsNotHelp(CommentText(metric, kind) + rest);
      assert (TYPE + CommentText(metric, kind)) + rest == TYPE + (CommentText(metric, kind) + rest);
    case Sample(metric, labels, value) =>
      SampleRoundTrip(metric, labels, value, rest);
      var s := SampleText(metric, labels, value) + rest;
      assert s[0] == metric[0] && HELP[0] == '#' && TYPE[0] == '#';
  }

  /** The printed text reads back as exactly the lines that were printed. */
  lemma {:induction false} PrintRoundTrip(lines: seq<Line>)
    requires LinesOk(lines)
    ensures ReadAll(Print(lines)) == Some(lines)
  {
    if lines != [] {
      LineRoundTrip(lines[0], Print(lines[1..]));
      PrintRoundTrip(lines[1..]);
      assert [lines[0]] + lines[1..] == lines;
    }
  }

  /** Different lines print differently. */
  lemma PrintInjective(a: seq<Line>, b: seq<Line>)
    requires LinesOk(a) && LinesOk(b) && Print(a) == Print(b)
    ensures a == b
  {
    PrintRoundTrip(a);
    PrintRoundTrip(b);
  }
}
