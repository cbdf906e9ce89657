/** The buffer record of a node told by its configuration, the scans given and the disk. */
module BuffersMeaning {
  import opened Wrappers
  import opened Text
  import opened Paths
  import opened Records
  import opened Buffers

  // ---- who is a collector ----------------------------------------------------------------------------

  /** The character is d, or its capital. */
  predicate SameLetter(c: char, d: char) {
    c == d || ('A' <= c <= 'Z' && c - 'A' + 'a' == d)
  }

  predicate LowerWord(word: string) {
    word != "" && forall j :: 0 <= j < |word| ==> 'a' <= word[j] <= 'z'
  }

  /** The text spells the word from place i on, in any case. */
  predicate SpeltAt(text: string, i: nat, word: string) {
    i + |word| <= |text| && forall j :: 0 <= j < |word| ==> SameLetter(text[i + j], word[j])
  }

  /** The blanks of Latin-1, by their codes. */
  predicate Blank(c: char) {
    c as int in {9, 10, 11, 12, 13, 32, 0x85, 0xA0}
  }

  /** text[a..b] is what stands between the leading and the trailing spaces. */
  predicate Between(text: string, a: nat, b: nat) {
    && a <= b <= |text|
    && (forall i :: 0 <= i < a ==> Blank(text[i])) && (forall i :: b <= i < |text| ==> Blank(text[i]))
    && (a < b ==> !Blank(text[a]) && !Blank(text[b - 1]))
  }

  lemma {:induction false} TrimSpaceMeaning(text: string) returns (a: nat, b: nat)
    ensures Between(text, a, b) && TrimSpace(text) == text[a..b]
    decreases |text|
  {
    if text != "" && IsSpace(text[0]) {
      var c, d := TrimSpaceMeaning(text[1..]);
      a, b := c + 1, d + 1;
      assert forall i :: 1 <= i < |text| ==> text[i] == text[1..][i - 1];
      assert text[1..][c..d] == text[a..b];
    } else if text != "" && IsSpace(text[|text| - 1]) {
      a, b := TrimSpaceMeaning(text[..|text| - 1]);
      assert forall i :: 0 <= i < |text| - 1 ==> text[i] == text[..|text| - 1][i];
      assert text[..|text| - 1][a..b] == text[a..b];
    } else {
      a, b := 0, |text|;
    }
  }

  lemma LowerSpelt(s: string, i: nat, word: string)
    requires LowerWord(word) && i <= |s|
    ensures word <= Lower(s)[i..] <==> SpeltAt(s, i, word)
  {
    var rest := Lower(s)[i..];
    if SpeltAt(s, i, word) {
      forall j | 0 <= j < |word| ensures rest[j] == word[j] {
        assert SameLetter(s[i + j], word[j]);
      }
      assert rest[..|word|] == word;
    }
    if word <= rest {
      forall j | 0 <= j < |word| ensures SameLetter(s[i + j], word[j]) {
        assert rest[..|word|][j] == word[j] == rest[j];
      }
    }
  }

  lemma SpeltInside(text: string, a: nat, b: nat, i: nat, word: string)
    requires LowerWord(word) && Between(text, a, b) && SpeltAt(text, i, word)
    ensures a <= i && i + |word| <= b && SpeltAt(text[a..b], i - a, word)
  {
    assert SameLetter(text[i], word[0]);
    var last := |word| - 1;
    assert SameLetter(text[i + last], word[last]);
    forall j | 0 <= j < |word| ensures SameLetter(text[a..b][i - a + j], word[j]) {
      assert SameLetter(text[i + j], word[j]);
    }
  }

  /** Trimmed and in lower case, a text contains a word just when it spells it somewhere. */
  lemma ContainsWord(text: string, word: string)
    requires LowerWord(word)
    ensures Contains(Lower(TrimSpace(text)), word) <==> exists i: nat :: i < |text| && SpeltAt(text, i, word)
  {
    var a, b := TrimSpaceMeaning(text);
    var inner := text[a..b];
    if Contains(Lower(inner), word) {
      var i :| 0 <= i <= |Lower(inner)| && word <= Lower(inner)[i..];
      LowerSpelt(inner, i, word);
      forall j | 0 <= j < |word| ensures SameLetter(text[a + i + j], word[j]) {
        assert SameLetter(inner[i + j], word[j]);
      }
      assert SpeltAt(text, a + i, word);
    }
    if i: nat :| i < |text| && SpeltAt(text, i, word) {
      SpeltInside(text, a, b, i, word);
      LowerSpelt(inner, i - a, word);
    }
  }

  /** A text is a word, spaces around it and case aside. */
  predicate IsWord(text: string, word: string) {
    exists a: nat :: a < |text| && Between(text, a, a + |word|) && SpeltAt(text, a, word)
  }

  lemma EqualsWord(text: string, word: string)
    requires LowerWord(word)
    ensures Lower(TrimSpace(text)) == word <==> IsWord(text, word)
  {
    var a, b := TrimSpaceMeaning(text);
    var inner := text[a..b];
    if Lower(inner) == word {
      assert Lower(inner)[0..] == word;
      LowerSpelt(inner, 0, word);
      forall j | 0 <= j < |word| ensures SameLetter(text[a + j], word[j]) {
        assert SameLetter(inner[0 + j], word[j]);
      }
      assert Between(text, a, a + |word|) && SpeltAt(text, a, word);
    }
    if c: nat :| c < |text| && Between(text, c, c + |word|) && SpeltAt(text, c, word) {
      SpeltInside(text, a, b, c, word);
      SameBounds(text, a, b, c, c + |word|);
      LowerSpelt(inner, 0, word);
      assert Lower(inner)[0..] == Lower(inner);
    }
  }

  lemma SameBounds(text: string, a: nat, b: nat, c: nat, d: nat)
    requires Between(text, a, b) && Between(text, c, d) && a < b && c < d
    ensures a == c && b == d
  {
  }

  /** A node type is a collector's when it spells "collector" somewhere or is the word "col". */
  lemma CollectorMeaning(nodeType: string)
    ensures IsCollector(nodeType) <==>
              (exists i: nat :: i < |nodeType| && SpeltAt(nodeType, i, "collector")) || IsWord(nodeType, "col")
  {
    ContainsWord(nodeType, "collector");
    EqualsWord(nodeType, "col");
  }

  // ---- the record ---------------------------------------------------------------------------------------

  /** Who gets a record: a node that no type rules out, by the first type that is known for it: the
      configured one, the discovered one, the detected one. */
  lemma BufferIff(w: NodeWorld, n: StreamNode)
    ensures var configured := w.config(n.nodeDir).0;
            HasBuffer(w, n) <==>
              && (n.nodeType != "" ==> IsCollector(n.nodeType))
              && (configured != "" ==> IsCollector(configured))
              && (configured == "" && n.nodeType == "" ==> IsCollector(w.detect(n.nodeDir, n.node)))
  {
  }

  /** The count of a path: that of a successful scan of the same directory, else a fresh one. */
  predicate CountOf(
      w: NodeWorld, cached: map<string, DirMetrics>, n: StreamNode, i: nat, path: string, c: Option<nat>)
  {
    if Clean(path) in cached && cached[Clean(path)].success then c == Some(cached[Clean(path)].fileCount)
    else c == CountUnlessCut(w.directory(Clean(path)), w.cut(n, i))
  }

  function SumOf(cs: seq<Option<nat>>): nat {
    if cs == [] then 0 else (if cs[0].Some? then cs[0].value else 0) + SumOf(cs[1..])
  }

  lemma {:induction false} SumSnoc(cs: seq<Option<nat>>, c: Option<nat>)
    ensures SumOf(cs + [c]) == SumOf(cs) + if c.Some? then c.value else 0
  {
    if cs == [] {
      assert cs + [c] == [c];
    } else {
      assert (cs + [c])[1..] == cs[1..] + [c];
      SumSnoc(cs[1..], c);
    }
  }

  lemma {:induction false} CountsSum(w: NodeWorld, cached: map<string, DirMetrics>, n: StreamNode, paths: seq<string>)
    returns (cs: seq<Option<nat>>)
    ensures |cs| == |paths| && CountSum(w, cached, n, paths) == SumOf(cs)
    ensures forall i :: 0 <= i < |paths| ==> cs[i] == PathCount(w, cached, n, i, paths[i])
  {
    cs := [];
    if paths != [] {
      var last := |paths| - 1;
      var front := CountsSum(w, cached, n, paths[..last]);
      cs := front + [PathCount(w, cached, n, last, paths[last])];
      SumSnoc(front, PathCount(w, cached, n, last, paths[last]));
      forall i | 0 <= i < last ensures cs[i] == PathCount(w, cached, n, i, paths[i]) {
        assert paths[..last][i] == paths[i];
      }
    }
  }

  /** The record of a node that gets one: its own labels, the configured paths, the sum of the counts
      of those that could be counted, and success when there is a path and each could. */
  lemma RecordMeaning(w: NodeWorld, cached: map<string, DirMetrics>, n: StreamNode) returns (cs: seq<Option<nat>>)
    requires HasBuffer(w, n)
    ensures var paths, r := w.config(n.nodeDir).1, BufferOf(w, cached, n);
            && (r.base, r.stream, r.node) == (n.base, n.stream, n.node) && r.nodeType == "collector"
            && (paths == [] ==> r.bufferPath == "-") && (paths != [] ==> r.bufferPath == Join(paths, ','))
            && |cs| == |paths| && (forall i :: 0 <= i < |paths| ==> CountOf(w, cached, n, i, paths[i], cs[i]))
            && r.fileCount == SumOf(cs)
            && (r.success <==> cs != [] && forall i :: 0 <= i < |cs| ==> cs[i].Some?)
  {
    BufferIff(w, n);
    cs := CountsSum(w, cached, n, w.config(n.nodeDir).1);
  }
}
