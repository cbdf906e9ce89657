/** filepath.Clean and filepath.Join on a slash-separated system. */
module Paths {
  import opened Text

  /** A directory-entry name as ReadDir returns it: not empty, no slash, neither "." nor "..". */
  predicate GoodName(name: string) {
    && |name| > 0 && '/' !in name
    && !(|name| == 1 && name[0] == '.')
    && !(|name| == 2 && name[0] == '.' && name[1] == '.')
  }

  predicate GoodNames(names: seq<string>) {
    forall i :: 0 <= i < |names| ==> GoodName(names[i])
  }

  /** The element walk of filepath.Clean: drop "" and ".", let ".." eat its parent. */
  function Normalize(parts: seq<string>, rooted: bool, kept: seq<string>): seq<string>
    decreases |parts|
  {
    if parts == [] then kept
    else
      var p := parts[0];
      if p == "" || p == "." then Normalize(parts[1..], rooted, kept)
      else if p == ".." then
        if kept != [] && kept[|kept| - 1] != ".." then Normalize(parts[1..], rooted, kept[..|kept| - 1])
        else if rooted then Normalize(parts[1..], rooted, kept)
        else Normalize(parts[1..], rooted, kept + [p])
      else Normalize(parts[1..], rooted, kept + [p])
  }

  /** A cleaned path: an optional root and its elements. */
  datatype Cleaned = Cleaned(rooted: bool, elements: seq<string>)

  function Render(c: Cleaned): string {
    if c.rooted then "/" + Join(c.elements, '/')
    else if c.elements == [] then "."
    else Join(c.elements, '/')
  }

  function Analyse(path: string): Cleaned {
    var rooted := path != "" && path[0] == '/';
    Cleaned(rooted, Normalize(Split(path, '/'), rooted, []))
  }

  /** filepath.Clean. */
  function Clean(path: string): string {
    Render(Analyse(path))
  }

  /** filepath.Join of two non-empty elements. */
  function JoinPath(dir: string, name: string): string {
    Clean(dir + "/" + name)
  }

  // ---- canonical forms ----------------------------------------------------

  /** The elements Clean leaves: plain names after, when not rooted, a run of "..". */
  predicate Canonical(c: Cleaned) {
    && (forall i :: 0 <= i < |c.elements| ==> GoodName(c.elements[i]) || c.elements[i] == "..")
    && (c.rooted ==> GoodNames(c.elements))
    && (forall i :: 0 < i < |c.elements| && c.elements[i] == ".." ==> c.elements[i - 1] == "..")
  }

  lemma {:induction false} NormalizeCanonical(parts: seq<string>, rooted: bool, kept: seq<string>)
    requires SepFree(parts, '/') && Canonical(Cleaned(rooted, kept))
    ensures Canonical(Cleaned(rooted, Normalize(parts, rooted, kept)))
    decreases |parts|
  {
    if parts != [] {
      var p := parts[0];
      if p == "" || p == "." {
        NormalizeCanonical(parts[1..], rooted, kept);
      } else if p == ".." {
        if kept != [] && kept[|kept| - 1] != ".." {
          NormalizeCanonical(parts[1..], rooted, kept[..|kept| - 1]);
        } else if rooted {
          NormalizeCanonical(parts[1..], rooted, kept);
        } else {
          NormalizeCanonical(parts[1..], rooted, kept + [p]);
        }
      } else {
        NormalizeCanonical(parts[1..], rooted, kept + [p]);
      }
    }
  }

  lemma AnalyseCanonical(path: string)
    ensures Canonical(Analyse(path))
  {
    JoinSplit(path, '/');
    NormalizeCanonical(Split(path, '/'), path != "" && path[0] == '/', []);
  }

  /** Canonical elements pass through Normalize unchanged. */
  lemma {:induction false} NormalizeKeeps(parts: seq<string>, rooted: bool, kept: seq<string>)
    requires Canonical(Cleaned(rooted, kept + parts))
    ensures Normalize(parts, rooted, kept) == kept + parts
    decreases |parts|
  {
    if parts != [] {
      var all := kept + parts;
      assert all[|kept|] == parts[0];
      assert kept != [] ==> all[|kept| - 1] == kept[|kept| - 1];
      assert GoodName(all[|kept|]) || all[|kept|] == "..";
      assert (kept + [parts[0]]) + parts[1..] == kept + parts;
      NormalizeKeeps(parts[1..], rooted, kept + [parts[0]]);
    } else {
      assert kept + parts == kept;
    }
  }

  lemma CanonicalSepFree(c: Cleaned)
    requires Canonical(c)
    ensures SepFree(c.elements, '/')
  {
    forall i | 0 <= i < |c.elements| ensures '/' !in c.elements[i] {
      assert GoodName(c.elements[i]) || c.elements[i] == "..";
    }
  }

  lemma AnalyseRooted(elements: seq<string>)
    requires Canonical(Cleaned(true, elements))
    ensures Analyse(Render(Cleaned(true, elements))) == Cleaned(true, elements)
  {
    var body := Join(elements, '/');
    SplitAfterWord("", body, '/');
    assert "" + ['/'] + body == "/" + body;
    if elements == [] {
      SplitWord("", '/');
      SkipsEmpty([""], true);
      SkipsEmpty([], true);
    } else {
      CanonicalSepFree(Cleaned(true, elements));
      SplitJoin(elements, '/');
      SkipsEmpty(elements, true);
      NormalizeKeeps(elements, true, []);
      assert [] + elements == elements;
    }
  }

  lemma SkipsEmpty(parts: seq<string>, rooted: bool)
    ensures Normalize([""] + parts, rooted, []) == Normalize(parts, rooted, [])
  {
    assert ([""] + parts)[1..] == parts;
  }

  lemma AnalyseRelative(elements: seq<string>)
    requires Canonical(Cleaned(false, elements)) && elements != []
    ensures Analyse(Render(Cleaned(false, elements))) == Cleaned(false, elements)
  {
    CanonicalSepFree(Cleaned(false, elements));
    SplitJoin(elements, '/');
    NormalizeKeeps(elements, false, []);
    assert [] + elements == elements;
    assert GoodName(elements[0]) || elements[0] == "..";
    JoinHead(elements);
  }

  /** Rendering a canonical form and analysing it again gives it back. */
  lemma AnalyseRender(c: Cleaned)
    requires Canonical(c)
    ensures Analyse(Render(c)) == c
  {
    if c.rooted {
      AnalyseRooted(c.elements);
    } else if c.elements == [] {
      SplitWord(".", '/');
    } else {
      AnalyseRelative(c.elements);
    }
  }

  lemma JoinHead(parts: seq<string>)
    requires parts != [] && parts[0] != ""
    ensures Join(parts, '/') != "" && Join(parts, '/')[0] == parts[0][0]
  {
  }

  /** Cleaning is idempotent: discoverTarget and discoverDirectories both clean the base. */
  lemma CleanIdempotent(path: string)
    ensures Clean(Clean(path)) == Clean(path)
  {
    AnalyseCanonical(path);
    AnalyseRender(Analyse(path));
  }

  lemma {:induction false} NormalizeConcat(a: seq<string>, b: seq<string>, rooted: bool, kept: seq<string>)
    ensures Normalize(a + b, rooted, kept) == Normalize(b, rooted, Normalize(a, rooted, kept))
    decreases |a|
  {
    if a == [] {
      assert a + b == b;
    } else {
      assert (a + b)[1..] == a[1..] + b;
      var p := a[0];
      if p == "" || p == "." {
        NormalizeConcat(a[1..], b, rooted, kept);
      } else if p == ".." {
        if kept != [] && kept[|kept| - 1] != ".." {
          NormalizeConcat(a[1..], b, rooted, kept[..|kept| - 1]);
        } else if rooted {
          NormalizeConcat(a[1..], b, rooted, kept);
        } else {
          NormalizeConcat(a[1..], b, rooted, kept + [p]);
        }
      } else {
        NormalizeConcat(a[1..], b, rooted, kept + [p]);
      }
    }
  }

  /** What filepath.Clean lets go of: empty elements and dots, a name with the ".." after it, and
      ".." at the root. */
  lemma NormalizeRules(a: seq<string>, b: seq<string>, x: string, rooted: bool)
    ensures Normalize(a + [""] + b, rooted, []) == Normalize(a + b, rooted, [])
    ensures Normalize(a + ["."] + b, rooted, []) == Normalize(a + b, rooted, [])
    ensures GoodName(x) ==> Normalize(a + [x, ".."] + b, rooted, []) == Normalize(a + b, rooted, [])
    ensures rooted ==> Normalize([".."] + b, rooted, []) == Normalize(b, rooted, [])
  {
    var kept := Normalize(a, rooted, []);
    NormalizeConcat(a, b, rooted, []);
    NormalizeMiddle(a, [""], b, rooted);
    NormalizeMiddle(a, ["."], b, rooted);
    NormalizeMiddle([], [".."], b, rooted);
    assert [] + [".."] + b == [".."] + b;
    assert Normalize([""], rooted, kept) == kept && Normalize(["."], rooted, kept) == kept;
    if GoodName(x) {
      NormalizeMiddle(a, [x, ".."], b, rooted);
      assert (kept + [x])[..|kept|] == kept;
      assert [x, ".."][1..] == [".."];
      assert Normalize([x, ".."], rooted, kept) == Normalize([".."], rooted, kept + [x]) == kept;
    }
  }

  lemma NormalizeMiddle(a: seq<string>, m: seq<string>, b: seq<string>, rooted: bool)
    ensures Normalize(a + m + b, rooted, []) == Normalize(b, rooted, Normalize(m, rooted, Normalize(a, rooted, [])))
  {
    NormalizeConcat(a + m, b, rooted, []);
    NormalizeConcat(a, m, rooted, []);
  }

  /** Elements without any of these stay as they are. */
  lemma NormalizeFixed(c: Cleaned)
    requires Canonical(c)
    ensures Normalize(c.elements, c.rooted, []) == c.elements
  {
    assert [] + c.elements == c.elements;
    NormalizeKeeps(c.elements, c.rooted, []);
  }

  /** The parts of a string, from its first character and the parts of the rest. */
  function Prefixed(c: char, parts: seq<string>): seq<string>
    requires parts != []
  {
    if c == '/' then [""] + parts else [[c] + parts[0]] + parts[1..]
  }

  lemma SplitStep(s: string)
    requires s != ""
    ensures Split(s, '/') == Prefixed(s[0], Split(s[1..], '/'))
  {
  }

  lemma PrefixedConcat(c: char, a: seq<string>, b: seq<string>)
    requires a != []
    ensures Prefixed(c, a + b) == Prefixed(c, a) + b
  {
    if c != '/' {
      assert (a + b)[1..] == a[1..] + b;
    }
  }

  lemma {:induction false} SplitConcat(a: string, b: string)
    ensures Split(a + "/" + b, '/') == Split(a, '/') + Split(b, '/')
  {
    if a == "" {
      SplitAfterWord("", b, '/');
      assert "" + ['/'] + b == "" + "/" + b;
    } else {
      var s := a + "/" + b;
      assert s[1..] == a[1..] + "/" + b && s[0] == a[0];
      SplitConcat(a[1..], b);
      SplitStep(a);
      SplitStep(s);
      PrefixedConcat(a[0], Split(a[1..], '/'), Split(b, '/'));
    }
  }

  /** Appending one good name to a path appends exactly that element. */
  lemma AnalyseSnoc(path: string, name: string)
    requires path != "" && GoodName(name)
    ensures var c := Analyse(path); Analyse(path + "/" + name) == Cleaned(c.rooted, c.elements + [name])
  {
    var rooted := path[0] == '/';
    assert (path + "/" + name)[0] == path[0];
    SplitConcat(path, name);
    SplitWord(name, '/');
    NormalizeConcat(Split(path, '/'), [name], rooted, []);
    var kept := Normalize(Split(path, '/'), rooted, []);
    assert Normalize([name], rooted, kept) == kept + [name];
  }

  lemma RenderNotEmpty(c: Cleaned)
    requires Canonical(c)
    ensures Render(c) != ""
  {
    if !c.rooted && c.elements != [] {
      assert GoodName(c.elements[0]) || c.elements[0] == "..";
      JoinHead(c.elements);
    }
  }

  /** Joining one good name to a cleaned directory appends exactly that element. */
  lemma JoinPathSnoc(c: Cleaned, name: string)
    requires Canonical(c) && GoodName(name)
    ensures Canonical(Cleaned(c.rooted, c.elements + [name]))
    ensures JoinPath(Render(c), name) == Render(Cleaned(c.rooted, c.elements + [name]))
  {
    AnalyseRender(c);
    RenderNotEmpty(c);
    AnalyseSnoc(Render(c), name);
  }

  /** So does joining two. */
  lemma CleanTwoBelow(c: Cleaned, x: string, y: string)
    requires Canonical(c) && GoodName(x) && GoodName(y)
    ensures Canonical(Cleaned(c.rooted, c.elements + [x] + [y]))
    ensures Clean(Render(c) + "/" + x + "/" + y) == Render(Cleaned(c.rooted, c.elements + [x] + [y]))
  {
    AnalyseRender(c);
    RenderNotEmpty(c);
    AnalyseSnoc(Render(c), x);
    AnalyseSnoc(Render(c) + "/" + x, y);
  }

  /** A cleaned path determines its root and its elements. */
  lemma RenderInjective(c: Cleaned, d: Cleaned)
    requires Canonical(c) && Canonical(d) && Render(c) == Render(d)
    ensures c == d
  {
    AnalyseRender(c);
    AnalyseRender(d);
  }
}
