/** Bounded preorder listings of a tree given by its children function, as paths of names. */
module Preorder {
  import opened Wrappers

  type Path = seq<string>
  type Kids = Path -> seq<string>

  /** Every path from here down, at most remaining levels deeper. */
  function Under(kids: Kids, here: Path, remaining: nat): seq<Path>
    decreases remaining, 0
  {
    [here] + if remaining == 0 then [] else UnderAll(kids, here, remaining - 1, kids(here))
  }

  function UnderAll(kids: Kids, here: Path, remaining: nat, names: seq<string>): seq<Path>
    decreases remaining, 1 + |names|
  {
    if names == [] then []
    else Under(kids, here + [names[0]], remaining) + UnderAll(kids, here, remaining, names[1..])
  }

  // ---- membership ------------------------------------------------------------------------------

  /** n extends here by one child after another. */
  predicate Steps(kids: Kids, here: Path, n: Path) {
    here <= n && forall k :: |here| <= k < |n| ==> n[k] in kids(n[..k])
  }

  lemma StepsChild(kids: Kids, here: Path, n: Path)
    requires here <= n && |n| > |here|
    ensures Steps(kids, here, n) <==> n[|here|] in kids(here) && Steps(kids, here + [n[|here|]], n)
  {
    assert n[..|here|] == here && n[..|here| + 1] == here + [n[|here|]];
  }

  lemma {:induction false} UnderAllMember(kids: Kids, here: Path, remaining: nat, names: seq<string>, n: Path)
    ensures n in UnderAll(kids, here, remaining, names)
            <==> exists x :: x in names && n in Under(kids, here + [x], remaining)
  {
    if names != [] {
      UnderAllMember(kids, here, remaining, names[1..], n);
      assert names == [names[0]] + names[1..];
    }
  }

  lemma WhichChild(kids: Kids, here: Path, remaining: nat, names: seq<string>, n: Path) returns (x: string)
    requires n in UnderAll(kids, here, remaining, names)
    ensures x in names && n in Under(kids, here + [x], remaining)
  {
    UnderAllMember(kids, here, remaining, names, n);
    x :| x in names && n in Under(kids, here + [x], remaining);
  }

  lemma ThroughChild(here: Path, x: string, n: Path)
    requires here + [x] <= n
    ensures here <= n && |n| > |here| && n[|here|] == x
  {
    assert n[..|here| + 1] == here + [x];
    assert n[..|here|] == (here + [x])[..|here|] == here;
  }

  lemma UnderIs(kids: Kids, here: Path, remaining: nat, n: Path)
    ensures n in Under(kids, here, remaining)
            <==> n == here || (remaining > 0 && n in UnderAll(kids, here, remaining - 1, kids(here)))
  {
  }

  lemma {:induction false} UnderSteps(kids: Kids, here: Path, remaining: nat, n: Path)
    requires n in Under(kids, here, remaining)
    ensures Steps(kids, here, n) && |n| <= |here| + remaining
    decreases remaining
  {
    UnderIs(kids, here, remaining, n);
    if n != here {
      var x := WhichChild(kids, here, remaining - 1, kids(here), n);
      UnderSteps(kids, here + [x], remaining - 1, n);
      ThroughChild(here, x, n);
      StepsChild(kids, here, n);
    }
  }

  lemma {:induction false} StepsUnder(kids: Kids, here: Path, remaining: nat, n: Path)
    requires Steps(kids, here, n) && |n| <= |here| + remaining
    ensures n in Under(kids, here, remaining)
    decreases remaining
  {
    if |n| > |here| {
      StepsChild(kids, here, n);
      StepsUnder(kids, here + [n[|here|]], remaining - 1, n);
      UnderAllMember(kids, here, remaining - 1, kids(here), n);
    } else {
      assert n == here;
    }
    UnderIs(kids, here, remaining, n);
  }

  /** The listing is the set of paths that step from child to child, within the depth. */
  lemma UnderMember(kids: Kids, here: Path, remaining: nat, n: Path)
    ensures n in Under(kids, here, remaining) <==> Steps(kids, here, n) && |n| <= |here| + remaining
  {
    if n in Under(kids, here, remaining) {
      UnderSteps(kids, here, remaining, n);
    }
    if Steps(kids, here, n) && |n| <= |here| + remaining {
      StepsUnder(kids, here, remaining, n);
    }
  }

  // ---- each path once -------------------------------------------------------------------------------

  lemma DistinctConcat<T>(a: seq<T>, b: seq<T>)
    requires Distinct(a) && Distinct(b)
    requires forall x :: x in a ==> x !in b
    ensures Distinct(a + b)
  {
    var s := a + b;
    forall i, j | 0 <= i < j < |s| ensures s[i] != s[j] {
      if i < |a| && |a| <= j {
        assert s[i] == a[i] && s[j] == b[j - |a|];
        assert a[i] in a && b[j - |a|] in b;
      } else if |a| <= i {
        assert s[i] == b[i - |a|] && s[j] == b[j - |a|];
      }
    }
  }

  lemma {:induction false} UnderDistinct(kids: Kids, here: Path, remaining: nat)
    requires forall p :: Distinct(kids(p))
    ensures Distinct(Under(kids, here, remaining))
    decreases remaining, 0
  {
    if remaining > 0 {
      UnderAllDistinct(kids, here, remaining - 1, kids(here));
      var below := UnderAll(kids, here, remaining - 1, kids(here));
      if here in below {
        ChildOf(kids, here, remaining - 1, kids(here), here);
      }
      DistinctConcat([here], below);
    }
  }

  lemma ChildOf(kids: Kids, here: Path, remaining: nat, names: seq<string>, n: Path)
    requires n in UnderAll(kids, here, remaining, names)
    ensures |n| > |here| && n[|here|] in names
  {
    UnderAllMember(kids, here, remaining, names, n);
    var x :| x in names && n in Under(kids, here + [x], remaining);
    UnderMember(kids, here + [x], remaining, n);
    assert (here + [x])[|here|] == x;
  }

  lemma {:induction false} UnderAllDistinct(kids: Kids, here: Path, remaining: nat, names: seq<string>)
    requires Distinct(names) && forall p :: Distinct(kids(p))
    ensures Distinct(UnderAll(kids, here, remaining, names))
    decreases remaining, 1 + |names|
  {
    if names != [] {
      var x := names[0];
      var first, later := Under(kids, here + [x], remaining), UnderAll(kids, here, remaining, names[1..]);
      UnderDistinct(kids, here + [x], remaining);
      UnderAllDistinct(kids, here, remaining, names[1..]);
      forall n | n in first ensures n !in later {
        UnderMember(kids, here + [x], remaining, n);
        assert n[|here|] == (here + [x])[|here|];
        if n in later {
          ChildOf(kids, here, remaining, names[1..], n);
          assert false;
        }
      }
      DistinctConcat(first, later);
    }
  }

  // ---- the order of the listing --------------------------------------------------------------------

  predicate Before(names: seq<string>, x: string, y: string) {
    exists i, j :: 0 <= i < j < |names| && names[i] == x && names[j] == y
  }

  /** p and n part below their first k names, p by the earlier child. */
  predicate PartsAt(kids: Kids, p: Path, n: Path, k: nat) {
    k < |p| && k < |n| && p[..k] == n[..k] && Before(kids(p[..k]), p[k], n[k])
  }

  /** In preorder p comes before n: it leads to n, or they part with p on the earlier child. */
  predicate Precedes(kids: Kids, p: Path, n: Path) {
    (|p| < |n| && p <= n) || exists k: nat :: k < |p| && PartsAt(kids, p, n, k)
  }

  predicate InPreorder(kids: Kids, paths: seq<Path>) {
    forall i, j :: 0 <= i < j < |paths| ==> Precedes(kids, paths[i], paths[j])
  }

  lemma OrderedConcat(kids: Kids, a: seq<Path>, b: seq<Path>)
    requires InPreorder(kids, a) && InPreorder(kids, b)
    requires forall p, n :: p in a && n in b ==> Precedes(kids, p, n)
    ensures InPreorder(kids, a + b)
  {
    var s := a + b;
    forall i, j | 0 <= i < j < |s| ensures Precedes(kids, s[i], s[j]) {
      if i < |a| && |a| <= j {
        assert s[i] in a && s[j] == b[j - |a|] && b[j - |a|] in b;
      } else if |a| <= i {
        assert s[i] == b[i - |a|] && s[j] == b[j - |a|];
      }
    }
  }

  /** A directory comes before everything below it, and children in their listed order. */
  lemma {:induction false} UnderOrdered(kids: Kids, here: Path, remaining: nat)
    ensures InPreorder(kids, Under(kids, here, remaining))
    decreases remaining, 0
  {
    if remaining > 0 {
      var below := UnderAll(kids, here, remaining - 1, kids(here));
      assert kids(here)[0..] == kids(here);
      UnderAllOrdered(kids, here, remaining - 1, 0);
      forall p, n | p in [here] && n in below ensures Precedes(kids, p, n) {
        BelowHere(kids, here, remaining - 1, n);
      }
      OrderedConcat(kids, [here], below);
    }
  }

  lemma BelowHere(kids: Kids, here: Path, remaining: nat, n: Path)
    requires n in UnderAll(kids, here, remaining, kids(here))
    ensures |here| < |n| && here <= n
  {
    var x := WhichChild(kids, here, remaining, kids(here), n);
    UnderMember(kids, here + [x], remaining, n);
    ThroughChild(here, x, n);
  }

  lemma LaterChild(kids: Kids, here: Path, remaining: nat, i: nat, p: Path, n: Path)
    requires i < |kids(here)|
    requires p in Under(kids, here + [kids(here)[i]], remaining)
    requires n in UnderAll(kids, here, remaining, kids(here)[i + 1..])
    ensures Precedes(kids, p, n)
  {
    var y := WhichChild(kids, here, remaining, kids(here)[i + 1..], n);
    UnderMember(kids, here + [kids(here)[i]], remaining, p);
    UnderMember(kids, here + [y], remaining, n);
    ThroughChild(here, kids(here)[i], p);
    ThroughChild(here, y, n);
    var j :| 0 <= j < |kids(here)[i + 1..]| && kids(here)[i + 1..][j] == y;
    assert kids(here)[i + 1 + j] == y;
    assert p[..|here|] == here == n[..|here|];
    assert PartsAt(kids, p, n, |here|);
  }

  lemma {:induction false} UnderAllOrdered(kids: Kids, here: Path, remaining: nat, i: nat)
    requires i <= |kids(here)|
    ensures InPreorder(kids, UnderAll(kids, here, remaining, kids(here)[i..]))
    decreases remaining, 1 + |kids(here)| - i
  {
    var names := kids(here)[i..];
    if names != [] {
      assert names[1..] == kids(here)[i + 1..];
      UnderOrdered(kids, here + [names[0]], remaining);
      UnderAllOrdered(kids, here, remaining, i + 1);
      var first, later := Under(kids, here + [names[0]], remaining), UnderAll(kids, here, remaining, names[1..]);
      forall p, n | p in first && n in later ensures Precedes(kids, p, n) {
        LaterChild(kids, here, remaining, i, p, n);
      }
      OrderedConcat(kids, first, later);
    }
  }

  // ---- depths that make no difference ---------------------------------------------------------------

  /** The paths of at most k names. */
  function Upto(paths: seq<Path>, k: nat): seq<Path> {
    if paths == [] then [] else (if |paths[0]| <= k then [paths[0]] else []) + Upto(paths[1..], k)
  }

  lemma {:induction false} UptoConcat(a: seq<Path>, b: seq<Path>, k: nat)
    ensures Upto(a + b, k) == Upto(a, k) + Upto(b, k)
  {
    if a == [] {
      assert a + b == b;
    } else {
      assert (a + b)[1..] == a[1..] + b;
      UptoConcat(a[1..], b, k);
      ConcatAssociates(if |a[0]| <= k then [a[0]] else [], Upto(a[1..], k), Upto(b, k));
    }
  }

  lemma {:induction false} UptoNothing(paths: seq<Path>, k: nat)
    requires forall p :: p in paths ==> |p| > k
    ensures Upto(paths, k) == []
  {
    if paths != [] {
      UptoNothing(paths[1..], k);
    }
  }

  lemma UptoUnder(kids: Kids, here: Path, remaining: nat, k: nat)
    ensures Upto(Under(kids, here, remaining), k)
            == (if |here| <= k then [here] else [])
               + Upto(if remaining == 0 then [] else UnderAll(kids, here, remaining - 1, kids(here)), k)
  {
    var below := if remaining == 0 then [] else UnderAll(kids, here, remaining - 1, kids(here));
    UptoConcat([here], below, k);
    assert [here][1..] == [];
  }

  lemma NoneBelow(kids: Kids, here: Path, remaining: nat, names: seq<string>, k: nat)
    requires |here| >= k
    ensures Upto(UnderAll(kids, here, remaining, names), k) == []
  {
    var below := UnderAll(kids, here, remaining, names);
    forall n | n in below ensures |n| > k {
      ChildOf(kids, here, remaining, names, n);
    }
    UptoNothing(below, k);
  }

  /** Listings deep enough to reach length k agree up to length k. */
  lemma {:induction false} UptoSame(kids: Kids, here: Path, r: nat, s: nat, k: nat)
    requires |here| + r >= k && |here| + s >= k
    ensures Upto(Under(kids, here, r), k) == Upto(Under(kids, here, s), k)
    decreases r, 0
  {
    UptoUnder(kids, here, r, k);
    UptoUnder(kids, here, s, k);
    if r > 0 && s > 0 {
      UptoSameAll(kids, here, r - 1, s - 1, kids(here), k);
    } else {
      if r > 0 {
        NoneBelow(kids, here, r - 1, kids(here), k);
      }
      if s > 0 {
        NoneBelow(kids, here, s - 1, kids(here), k);
      }
    }
  }

  lemma {:induction false} UptoSameAll(kids: Kids, here: Path, r: nat, s: nat, names: seq<string>, k: nat)
    requires |here| + 1 + r >= k && |here| + 1 + s >= k
    ensures Upto(UnderAll(kids, here, r, names), k) == Upto(UnderAll(kids, here, s, names), k)
    decreases r, 1 + |names|
  {
    if names != [] {
      UptoSame(kids, here + [names[0]], r, s, k);
      UptoSameAll(kids, here, r, s, names[1..], k);
      UptoConcat(Under(kids, here + [names[0]], r), UnderAll(kids, here, r, names[1..]), k);
      UptoConcat(Under(kids, here + [names[0]], s), UnderAll(kids, here, s, names[1..]), k);
    }
  }

  /** Within good, only paths shorter than k have children. */
  ghost predicate EndsBefore(kids: Kids, good: Path -> bool, k: nat) {
    forall p, x :: good(p) && x in kids(p) ==> good(p + [x]) && |p| < k
  }

  /** A tree of bounded height is listed in full from every depth that reaches the bound. */
  lemma {:induction false} UnderSaturates(kids: Kids, good: Path -> bool, k: nat, here: Path, r: nat, s: nat)
    requires EndsBefore(kids, good, k) && good(here) && |here| + r >= k && |here| + s >= k
    ensures Under(kids, here, r) == Under(kids, here, s)
    decreases r, 0
  {
    if kids(here) != [] {
      assert kids(here)[0] in kids(here);
      UnderAllSaturates(kids, good, k, here, r - 1, s - 1, kids(here));
    }
  }

  lemma {:induction false} UnderAllSaturates(
      kids: Kids, good: Path -> bool, k: nat, here: Path, r: nat, s: nat, names: seq<string>)
    requires EndsBefore(kids, good, k) && good(here) && |here| + 1 + r >= k && |here| + 1 + s >= k
    requires forall x :: x in names ==> x in kids(here)
    ensures UnderAll(kids, here, r, names) == UnderAll(kids, here, s, names)
    decreases r, 1 + |names|
  {
    if names != [] {
      assert names[0] in kids(here);
      UnderSaturates(kids, good, k, here + [names[0]], r, s);
      UnderAllSaturates(kids, good, k, here, r, s, names[1..]);
    }
  }
}
