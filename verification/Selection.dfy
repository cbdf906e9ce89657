/** Choosing elements of a sequence by their places, in order. */
module Selection {

  ghost predicate Ascending(ks: seq<nat>) {
    forall i, j :: 0 <= i < j < |ks| ==> ks[i] < ks[j]
  }

  /** ks are the places below n that p picks, in increasing order. */
  ghost predicate Selects(ks: seq<nat>, n: nat, p: nat -> bool) {
    && Ascending(ks)
    && (forall k: nat :: k in ks <==> k < n && p(k))
  }

  predicate InRange(ks: seq<nat>, n: nat) {
    forall i :: 0 <= i < |ks| ==> ks[i] < n
  }

  /** The elements at these places. */
  function At<T>(xs: seq<T>, ks: seq<nat>): seq<T>
    requires InRange(ks, |xs|)
  {
    seq(|ks|, i requires 0 <= i < |ks| => xs[ks[i]])
  }

  function Shifted(ks: seq<nat>): seq<nat> {
    seq(|ks|, i requires 0 <= i < |ks| => ks[i] + 1)
  }

  lemma ShiftedMember(ks: seq<nat>, k: nat)
    ensures k in Shifted(ks) <==> k > 0 && k - 1 in ks
  {
    if k > 0 && k - 1 in ks {
      var i :| 0 <= i < |ks| && ks[i] == k - 1;
      assert Shifted(ks)[i] == k;
    }
    if k in Shifted(ks) {
      var i :| 0 <= i < |ks| && Shifted(ks)[i] == k;
      assert ks[i] == k - 1;
    }
  }

  /** A selection of the rest, seen from one element earlier. */
  function From(here: bool, ks: seq<nat>): seq<nat> {
    (if here then [0] else []) + Shifted(ks)
  }

  lemma FromMember(here: bool, ks: seq<nat>, k: nat)
    ensures k in From(here, ks) <==> if k == 0 then here else k - 1 in ks
  {
    ShiftedMember(ks, k);
  }

  lemma FromAscends(here: bool, ks: seq<nat>)
    requires Ascending(ks)
    ensures Ascending(From(here, ks))
  {
  }

  lemma FromAt<T>(here: bool, x: T, xs: seq<T>, ks: seq<nat>)
    requires InRange(ks, |xs|)
    ensures InRange(From(here, ks), |xs| + 1)
    ensures At([x] + xs, From(here, ks)) == (if here then [x] else []) + At(xs, ks)
  {
  }

  lemma FromSelects(ks: seq<nat>, n: nat, q: nat -> bool, p: nat -> bool)
    requires Selects(ks, n, q) && forall k: nat :: k < n ==> q(k) == p(k + 1)
    ensures Selects(From(p(0), ks), n + 1, p)
  {
    FromAscends(p(0), ks);
    forall k: nat ensures k in From(p(0), ks) <==> k < n + 1 && p(k) {
      FromMember(p(0), ks, k);
      if k > 0 {
        assert k - 1 in ks <==> k - 1 < n && q(k - 1);
      }
    }
  }

  /** A selection of one place more. */
  lemma OneMoreSelects(ks: seq<nat>, n: nat, p: nat -> bool)
    requires Selects(ks, n, p)
    ensures Selects(ks + if p(n) then [n] else [], n + 1, p)
  {
    forall i | 0 <= i < |ks| ensures ks[i] < n {
      assert ks[i] in ks;
    }
    forall k: nat ensures k in ks + (if p(n) then [n] else []) <==> k < n + 1 && p(k) {
    }
  }

  lemma LastIsLargest(a: seq<nat>, k: nat)
    requires Ascending(a) && a != []
    ensures k in a[..|a| - 1] <==> k in a && k != a[|a| - 1]
    ensures k in a ==> k <= a[|a| - 1]
  {
    if k in a && k != a[|a| - 1] {
      var i :| 0 <= i < |a| && a[i] == k;
      assert a[..|a| - 1][i] == k;
    }
  }

  ghost predicate SamePlaces(a: seq<nat>, b: seq<nat>) {
    forall k: nat :: k in a <==> k in b
  }

  lemma LastsAgree(a: seq<nat>, b: seq<nat>)
    requires Ascending(a) && Ascending(b) && SamePlaces(a, b) && a != []
    ensures b != [] && a[|a| - 1] == b[|b| - 1]
    ensures SamePlaces(a[..|a| - 1], b[..|b| - 1])
  {
    assert a[0] in b;
    LastIsLargest(a, b[|b| - 1]);
    LastIsLargest(b, a[|a| - 1]);
    var p, q := a[..|a| - 1], b[..|b| - 1];
    forall k: nat ensures k in p <==> k in q {
      LastIsLargest(a, k);
      LastIsLargest(b, k);
    }
  }

  /** The places chosen determine the selection. */
  lemma {:induction false} AscendingUnique(a: seq<nat>, b: seq<nat>)
    requires Ascending(a) && Ascending(b) && SamePlaces(a, b)
    ensures a == b
  {
    if a != [] {
      LastsAgree(a, b);
      AscendingUnique(a[..|a| - 1], b[..|b| - 1]);
      assert a == a[..|a| - 1] + [a[|a| - 1]] && b == b[..|b| - 1] + [b[|b| - 1]];
    } else if b != [] {
      LastsAgree(b, a);
    }
  }

  lemma SelectionUnique(a: seq<nat>, b: seq<nat>, n: nat, p: nat -> bool)
    requires Selects(a, n, p) && Selects(b, n, p)
    ensures a == b
  {
    AscendingUnique(a, b);
  }
}
