/** Go's string operations, on sequences of characters. */
module Text {

  /** strings.Split(s, sep) for a one-character separator: never empty. */
  function Split(s: string, sep: char): (parts: seq<string>)
    ensures |parts| >= 1
  {
    if s == "" then [""]
    else
      var rest := Split(s[1..], sep);
      if s[0] == sep then [""] + rest else [[s[0]] + rest[0]] + rest[1..]
  }

  /** strings.Join(parts, sep). */
  function Join(parts: seq<string>, sep: char): string {
    if |parts| == 0 then ""
    else if |parts| == 1 then parts[0]
    else parts[0] + [sep] + Join(parts[1..], sep)
  }

  /** strings.TrimLeft(s, c), strings.TrimRight(s, c) and strings.Trim(s, c). */
  function TrimLeft(s: string, c: char): string {
    if s != "" && s[0] == c then TrimLeft(s[1..], c) else s
  }

  function TrimRight(s: string, c: char): string {
    if s != "" && s[|s| - 1] == c then TrimRight(s[..|s| - 1], c) else s
  }

  function Trim(s: string, c: char): string {
    TrimRight(TrimLeft(s, c), c)
  }

  /** strings.ReplaceAll: leftmost, non-overlapping, never rescanning the replacement. */
  function ReplaceAll(s: string, old_: string, new_: string): string
    requires old_ != ""
    decreases |s|
  {
    if s == "" then ""
    else if old_ <= s then new_ + ReplaceAll(s[|old_|..], old_, new_)
    else [s[0]] + ReplaceAll(s[1..], old_, new_)
  }

  /** strings.Contains. */
  predicate Contains(s: string, sub: string) {
    exists i :: 0 <= i <= |s| && sub <= s[i..]
  }

  /** Go's < on strings: lexicographic. */
  predicate Less(a: string, b: string) {
    b != "" && (a == "" || a[0] < b[0] || (a[0] == b[0] && Less(a[1..], b[1..])))
  }

  predicate SepFree(parts: seq<string>, sep: char) {
    forall i :: 0 <= i < |parts| ==> sep !in parts[i]
  }

  // ---- Split and Join are inverse -----------------------------------------

  lemma {:induction false} SplitWord(w: string, sep: char)
    requires sep !in w
    ensures Split(w, sep) == [w]
  {
    if w != "" {
      SplitWord(w[1..], sep);
      assert [w[0]] + w[1..] == w;
    }
  }

  lemma {:induction false} SplitAfterWord(w: string, s: string, sep: char)
    requires sep !in w
    ensures Split(w + [sep] + s, sep) == [w] + Split(s, sep)
  {
    if w == "" {
      assert ("" + [sep] + s)[1..] == s;
    } else {
      SplitAfterWord(w[1..], s, sep);
      assert (w + [sep] + s)[1..] == w[1..] + [sep] + s;
      assert [w[0]] + w[1..] == w;
    }
  }

  lemma {:induction false} SplitJoin(parts: seq<string>, sep: char)
    requires parts != [] && SepFree(parts, sep)
    ensures Split(Join(parts, sep), sep) == parts
  {
    if |parts| == 1 {
      SplitWord(parts[0], sep);
    } else {
      SplitJoin(parts[1..], sep);
      SplitAfterWord(parts[0], Join(parts[1..], sep), sep);
    }
  }

  lemma {:induction false} JoinSplit(s: string, sep: char)
    ensures Join(Split(s, sep), sep) == s
    ensures SepFree(Split(s, sep), sep)
  {
    if s != "" {
      JoinSplit(s[1..], sep);
      var rest := Split(s[1..], sep);
      if s[0] == sep {
        assert ([""] + rest)[1..] == rest;
      } else {
        var parts := [[s[0]] + rest[0]] + rest[1..];
        assert parts[1..] == rest[1..];
      }
      assert [s[0]] + s[1..] == s;
    }
  }

  lemma JoinInjective(p: seq<string>, q: seq<string>, sep: char)
    requires p != [] && q != [] && SepFree(p, sep) && SepFree(q, sep)
    requires Join(p, sep) == Join(q, sep)
    ensures p == q
  {
    SplitJoin(p, sep);
    SplitJoin(q, sep);
  }

  lemma {:induction false} JoinSnoc(parts: seq<string>, w: string, sep: char)
    requires parts != []
    ensures Join(parts + [w], sep) == Join(parts, sep) + [sep] + w
  {
    if |parts| == 1 {
      assert (parts + [w])[1..] == [w];
    } else {
      JoinSnoc(parts[1..], w, sep);
      assert (parts + [w])[1..] == parts[1..] + [w];
    }
  }

  lemma {:induction false} JoinConcat(a: seq<string>, b: seq<string>, sep: char)
    requires a != [] && b != []
    ensures Join(a + b, sep) == Join(a, sep) + [sep] + Join(b, sep)
  {
    assert (a + b)[1..] == a[1..] + b;
    if |a| == 1 {
      assert a[1..] + b == b;
    } else {
      JoinConcat(a[1..], b, sep);
      assert a[0] + [sep] + (Join(a[1..], sep) + [sep] + Join(b, sep)) == Join(a, sep) + [sep] + Join(b, sep);
    }
  }

  lemma JoinEnds(parts: seq<string>, sep: char)
    requires parts != [] && parts[0] != "" && parts[|parts| - 1] != ""
    ensures var s := Join(parts, sep); s != "" && s[0] == parts[0][0]
    ensures var s := Join(parts, sep);
            var w := parts[|parts| - 1]; s[|s| - 1] == w[|w| - 1]
  {
    if |parts| > 1 {
      var last := parts[|parts| - 1];
      assert parts[..|parts| - 1] + [last] == parts;
      JoinSnoc(parts[..|parts| - 1], last, sep);
    }
  }

  predicate AllAre(s: string, c: char) {
    forall i :: 0 <= i < |s| ==> s[i] == c
  }

  /** What trimming leaves: everything from the first to the last character other than c. */
  predicate IsTrimmed(s: string, c: char, a: nat, b: nat) {
    && a <= b <= |s| && AllAre(s[..a], c) && AllAre(s[b..], c)
    && (a < b ==> s[a] != c && s[b - 1] != c)
  }

  lemma {:induction false} TrimLeftMeaning(s: string, c: char) returns (a: nat)
    ensures a <= |s| && TrimLeft(s, c) == s[a..] && AllAre(s[..a], c) && (a < |s| ==> s[a] != c)
  {
    a := 0;
    if s != "" && s[0] == c {
      var k := TrimLeftMeaning(s[1..], c);
      a := k + 1;
      assert forall i :: 1 <= i < a ==> s[i] == s[1..][i - 1] == s[1..][..k][i - 1];
    }
  }

  lemma {:induction false} TrimRightMeaning(s: string, c: char) returns (b: nat)
    ensures b <= |s| && TrimRight(s, c) == s[..b] && AllAre(s[b..], c) && (b > 0 ==> s[b - 1] != c)
  {
    b := |s|;
    if s != "" && s[|s| - 1] == c {
      b := TrimRightMeaning(s[..|s| - 1], c);
      assert forall i :: b <= i < |s| - 1 ==> s[i] == s[..|s| - 1][b..][i - b];
    }
  }

  /** strings.Trim drops the runs of c at both ends and nothing else. */
  lemma TrimMeaning(s: string, c: char) returns (a: nat, b: nat)
    ensures IsTrimmed(s, c, a, b) && Trim(s, c) == s[a..b]
  {
    a := TrimLeftMeaning(s, c);
    var k := TrimRightMeaning(s[a..], c);
    b := a + k;
    assert s[a..][k..] == s[b..];
  }

  lemma TrimNothing(s: string, c: char)
    requires s != "" && s[0] != c && s[|s| - 1] != c
    ensures Trim(s, c) == s
  {
  }

  /** Trimming then splitting a joined path of non-empty parts gives the parts back. */
  lemma SplitTrimJoin(parts: seq<string>, sep: char)
    requires parts != [] && SepFree(parts, sep)
    requires forall i :: 0 <= i < |parts| ==> parts[i] != ""
    ensures Split(Trim(Join(parts, sep), sep), sep) == parts
  {
    JoinEnds(parts, sep);
    TrimNothing(Join(parts, sep), sep);
    SplitJoin(parts, sep);
  }

  // ---- the order is strict and total ----------------------------------------

  lemma LessIrreflexive(a: string)
    ensures !Less(a, a)
  {
  }

  lemma LessTotal(a: string, b: string)
    ensures a == b || Less(a, b) || Less(b, a)
  {
    if a != "" && b != "" && a[0] == b[0] {
      LessTotal(a[1..], b[1..]);
      assert a == [a[0]] + a[1..] && b == [b[0]] + b[1..];
    }
  }

  lemma LessTransitive(a: string, b: string, c: string)
    requires Less(a, b) && Less(b, c)
    ensures Less(a, c)
  {
  }

  /** a ends where b goes on, or at the first difference a has the smaller character. */
  predicate LessAt(a: string, b: string, k: nat) {
    k <= |a| && k < |b| && a[..k] == b[..k] && (k == |a| || a[k] < b[k])
  }

  lemma {:induction false} LessIff(a: string, b: string)
    ensures Less(a, b) <==> exists k: nat :: k <= |a| && LessAt(a, b, k)
  {
    if Less(a, b) {
      if a == "" || a[0] < b[0] {
        assert LessAt(a, b, 0);
      } else {
        LessIff(a[1..], b[1..]);
        var k: nat :| k <= |a[1..]| && LessAt(a[1..], b[1..], k);
        assert a[..k + 1] == [a[0]] + a[1..][..k] && b[..k + 1] == [b[0]] + b[1..][..k];
        assert LessAt(a, b, k + 1);
      }
    }
    if k: nat :| k <= |a| && LessAt(a, b, k) && k > 0 {
      assert a[0] == a[..k][0] == b[..k][0] == b[0];
      assert a[1..][..k - 1] == a[..k][1..] && b[1..][..k - 1] == b[..k][1..];
      assert LessAt(a[1..], b[1..], k - 1);
      LessIff(a[1..], b[1..]);
    }
  }
}
