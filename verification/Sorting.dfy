/** Sorting by a strict weak order: what sort.Slice promises, and when that fixes the result. */
module Sorting {
  import opened Text

  type Order<!T> = (T, T) -> bool

  /** Asymmetric, and unordered pairs chain: what sort.Slice asks of its comparison. */
  ghost predicate WeakOrder<T(!new)>(less: Order<T>) {
    && (forall x, y :: less(x, y) ==> !less(y, x))
    && (forall x, y, z :: !less(x, y) && !less(y, z) ==> !less(x, z))
  }

  predicate SortedBy<T>(xs: seq<T>, less: Order<T>) {
    forall i, j :: 0 <= i < j < |xs| ==> !less(xs[j], xs[i])
  }

  /** A result sort.Slice may leave: sorted, the same elements, ties in any order. */
  predicate IsSortOf<T(==)>(ys: seq<T>, xs: seq<T>, less: Order<T>) {
    SortedBy(ys, less) && multiset(ys) == multiset(xs)
  }

  function Insert<T>(x: T, sorted: seq<T>, less: Order<T>): seq<T> {
    if sorted == [] || !less(sorted[0], x) then [x] + sorted else [sorted[0]] + Insert(x, sorted[1..], less)
  }

  function Sorted<T>(xs: seq<T>, less: Order<T>): seq<T> {
    if xs == [] then [] else Insert(xs[0], Sorted(xs[1..], less), less)
  }

  lemma SameMembers<T>(xs: seq<T>, ys: seq<T>)
    requires multiset(xs) == multiset(ys)
    ensures |xs| == |ys| && forall x :: x in xs <==> x in ys
  {
    assert |multiset(xs)| == |xs| && |multiset(ys)| == |ys|;
    forall x ensures x in xs <==> x in ys {
      assert x in xs <==> x in multiset(xs);
      assert x in ys <==> x in multiset(ys);
    }
  }

  /** The place of a's first element in b, and what is left of both without it. */
  lemma TakeOut<T>(a: seq<T>, b: seq<T>) returns (k: nat)
    requires multiset(a) == multiset(b) && a != []
    ensures k < |b| && b[k] == a[0] && b == b[..k] + ([b[k]] + b[k + 1..])
    ensures multiset(a[1..]) == multiset(b[..k] + b[k + 1..])
  {
    SameMembers(a, b);
    assert a[0] in b;
    k :| 0 <= k < |b| && b[k] == a[0];
    assert a == [a[0]] + a[1..];
    assert b == b[..k] + ([b[k]] + b[k + 1..]);
    var rest := b[..k] + b[k + 1..];
    assert multiset(b) == multiset(b[..k]) + (multiset{b[k]} + multiset(b[k + 1..]));
    assert multiset(b) == multiset(rest) + multiset{b[k]};
    assert multiset(a) == multiset(a[1..]) + multiset{a[0]};
    assert multiset(rest) == multiset(b) - multiset{b[k]};
    assert multiset(a[1..]) == multiset(a) - multiset{a[0]};
  }

  lemma InsertMembers<T>(x: T, sorted: seq<T>, less: Order<T>)
    ensures multiset(Insert(x, sorted, less)) == multiset(sorted) + multiset{x}
  {
    if sorted != [] && less(sorted[0], x) {
      InsertMembers(x, sorted[1..], less);
      assert sorted == [sorted[0]] + sorted[1..];
    }
  }

  /** Prepending an element that nothing in a sorted list comes before. */
  lemma Prepend<T(!new)>(x: T, xs: seq<T>, less: Order<T>)
    requires SortedBy(xs, less) && forall y :: y in xs ==> !less(y, x)
    ensures SortedBy([x] + xs, less)
  {
  }

  lemma {:induction false} InsertSorts<T(!new)>(x: T, sorted: seq<T>, less: Order<T>)
    requires WeakOrder(less) && SortedBy(sorted, less)
    ensures SortedBy(Insert(x, sorted, less), less)
  {
    if sorted != [] {
      var first, rest := sorted[0], sorted[1..];
      assert sorted == [first] + rest;
      if less(first, x) {
        InsertSorts(x, rest, less);
        InsertMembers(x, rest, less);
        assert multiset(Insert(x, rest, less)) == multiset([x] + rest);
        SameMembers(Insert(x, rest, less), [x] + rest);
        forall y | y in Insert(x, rest, less) ensures !less(y, first) {
          assert y in [x] + rest;
          if y in rest {
            var k :| 0 <= k < |rest| && rest[k] == y;
            assert sorted[k + 1] == y;
          }
        }
        Prepend(first, Insert(x, rest, less), less);
      } else {
        forall y | y in sorted ensures !less(y, x) {
          var k :| 0 <= k < |sorted| && sorted[k] == y;
          assert k > 0 ==> !less(sorted[k], sorted[0]);
        }
        Prepend(x, sorted, less);
      }
    }
  }

  lemma {:induction false} SortedIsSort<T(!new)>(xs: seq<T>, less: Order<T>)
    requires WeakOrder(less)
    ensures IsSortOf(Sorted(xs, less), xs, less)
  {
    if xs != [] {
      SortedIsSort(xs[1..], less);
      InsertSorts(xs[0], Sorted(xs[1..], less), less);
      InsertMembers(xs[0], Sorted(xs[1..], less), less);
      assert xs == [xs[0]] + xs[1..];
    }
  }

  // ---- when the result is fixed -----------------------------------------------------------------

  predicate Tied<T>(x: T, y: T, less: Order<T>) {
    !less(x, y) && !less(y, x)
  }

  /** Two sorts of the same elements agree up to ties, place by place. */
  lemma {:induction false} SortsTie<T(!new)>(a: seq<T>, b: seq<T>, less: Order<T>)
    requires WeakOrder(less) && IsSortOf(a, b, less) && SortedBy(b, less)
    ensures |a| == |b| && forall i :: 0 <= i < |a| ==> Tied(a[i], b[i], less)
  {
    SameMembers(a, b);
    forall i | 0 <= i < |a| ensures Tied(a[i], b[i], less) {
      NoneBefore(a, b, i, less);
      NoneBefore(b, a, i, less);
    }
  }

  /** Were a[i] before b[i], the first i + 1 of a would all be before b[i], yet only i places
      of b are. */
  lemma NoneBefore<T(!new)>(a: seq<T>, b: seq<T>, i: nat, less: Order<T>)
    requires WeakOrder(less) && SortedBy(a, less) && SortedBy(b, less) && multiset(a) == multiset(b)
    requires |a| == |b| && i < |a|
    ensures !less(a[i], b[i])
  {
    if less(a[i], b[i]) {
      var x := b[i];
      forall k | 0 <= k <= i ensures less(a[k], x) {
        if k < i {
          assert !less(a[i], a[k]);
        }
      }
      forall k | i <= k < |b| ensures !less(b[k], x) {
        if i < k {
          assert !less(b[k], b[i]);
        }
      }
      CountBefore(a, i + 1, x, less);
      CountBefore(b, i, x, less);
      CountSame(a, b, x, less);
      CountAfter(b, i, x, less);
      assert false;
    }
  }

  function Before<T>(xs: seq<T>, x: T, less: Order<T>): nat {
    if xs == [] then 0 else (if less(xs[0], x) then 1 else 0) + Before(xs[1..], x, less)
  }

  lemma {:induction false} BeforeConcat<T>(a: seq<T>, b: seq<T>, x: T, less: Order<T>)
    ensures Before(a + b, x, less) == Before(a, x, less) + Before(b, x, less)
  {
    if a == [] {
      assert a + b == b;
    } else {
      assert (a + b)[1..] == a[1..] + b;
      BeforeConcat(a[1..], b, x, less);
    }
  }

  lemma {:induction false} BeforeAll<T>(xs: seq<T>, x: T, less: Order<T>)
    ensures Before(xs, x, less) <= |xs|
    ensures (forall k :: 0 <= k < |xs| ==> less(xs[k], x)) ==> Before(xs, x, less) == |xs|
    ensures (forall k :: 0 <= k < |xs| ==> !less(xs[k], x)) ==> Before(xs, x, less) == 0
  {
    if xs != [] {
      BeforeAll(xs[1..], x, less);
    }
  }

  lemma CountBefore<T>(xs: seq<T>, n: nat, x: T, less: Order<T>)
    requires n <= |xs|
    ensures (forall k :: 0 <= k < n ==> less(xs[k], x)) ==> Before(xs, x, less) >= n
  {
    assert xs == xs[..n] + xs[n..];
    BeforeConcat(xs[..n], xs[n..], x, less);
    BeforeAll(xs[..n], x, less);
  }

  lemma CountAfter<T>(xs: seq<T>, n: nat, x: T, less: Order<T>)
    requires n <= |xs| && forall k :: n <= k < |xs| ==> !less(xs[k], x)
    ensures Before(xs, x, less) <= n
  {
    assert xs == xs[..n] + xs[n..];
    BeforeConcat(xs[..n], xs[n..], x, less);
    BeforeAll(xs[..n], x, less);
    BeforeAll(xs[n..], x, less);
  }

  lemma {:induction false} CountSame<T>(a: seq<T>, b: seq<T>, x: T, less: Order<T>)
    requires multiset(a) == multiset(b)
    ensures Before(a, x, less) == Before(b, x, less)
    decreases |a|
  {
    SameMembers(a, b);
    if a != [] {
      var k := TakeOut(a, b);
      CountSame(a[1..], b[..k] + b[k + 1..], x, less);
      BeforeConcat(b[..k], b[k + 1..], x, less);
      BeforeConcat(b[..k], [b[k]] + b[k + 1..], x, less);
      assert ([b[k]] + b[k + 1..])[1..] == b[k + 1..];
    }
  }

  // ---- exchanging a tie -----------------------------------------------------------------------------

  function Exchanged<T>(a: seq<T>, i: nat, j: nat): seq<T>
    requires i < |a| && j < |a|
  {
    a[i := a[j]][j := a[i]]
  }

  lemma TiesKeepOrder<T(!new)>(a: T, b: T, x: T, y: T, less: Order<T>)
    requires WeakOrder(less) && !less(a, b) && Tied(a, x, less) && Tied(b, y, less)
    ensures !less(x, y)
  {
    assert !less(x, a) && !less(a, b) && !less(b, y);
    assert !less(x, b);
  }

  /** Ties may come out either way round. */
  lemma ExchangeIsSort<T(!new)>(a: seq<T>, i: nat, j: nat, less: Order<T>)
    requires WeakOrder(less) && SortedBy(a, less) && i < j < |a| && Tied(a[i], a[j], less)
    ensures IsSortOf(Exchanged(a, i, j), a, less)
  {
    var b := Exchanged(a, i, j);
    forall k | 0 <= k < |a| ensures Tied(a[k], b[k], less) {
      assert k != i && k != j ==> b[k] == a[k];
      assert !less(a[k], a[k]);
    }
    forall p, q | 0 <= p < q < |b| ensures !less(b[q], b[p]) {
      TiesKeepOrder(a[q], a[p], b[q], b[p], less);
    }
  }

  // ---- sorting by a string key ------------------------------------------------------------------------

  function ByKey<T>(key: T -> string): Order<T> {
    (x, y) => Less(key(x), key(y))
  }

  lemma LessNegative(a: string, b: string, c: string)
    requires !Less(a, b) && !Less(b, c)
    ensures !Less(a, c)
  {
    LessTotal(a, b);
    LessTotal(b, c);
    if Less(a, c) {
      if a != b && b != c {
        LessTransitive(a, c, b);
        LessTransitive(a, b, a);
      }
      if Less(b, a) && Less(a, c) {
        LessTransitive(b, a, c);
      }
    }
  }

  lemma ByKeyWeak<T(!new)>(key: T -> string)
    ensures WeakOrder(ByKey(key))
    ensures forall x, y :: Tied(x, y, ByKey(key)) <==> key(x) == key(y)
  {
    var less := ByKey(key);
    forall x, y | less(x, y) ensures !less(y, x) {
      if less(y, x) {
        LessTransitive(key(x), key(y), key(x));
        LessIrreflexive(key(x));
      }
    }
    forall x, y, z | !less(x, y) && !less(y, z) ensures !less(x, z) {
      LessNegative(key(x), key(y), key(z));
    }
    forall x, y ensures Tied(x, y, less) <==> key(x) == key(y) {
      LessTotal(key(x), key(y));
      LessIrreflexive(key(x));
    }
  }

  // ---- distinct values ------------------------------------------------------------------------------------

  predicate DistinctBy<T, K(==)>(xs: seq<T>, f: T -> K) {
    forall i, j :: 0 <= i < j < |xs| ==> f(xs[i]) != f(xs[j])
  }

  lemma DistinctPutBack<T, K>(a: seq<T>, y: T, b: seq<T>, f: T -> K)
    requires DistinctBy(a + b, f) && forall x :: x in a + b ==> f(x) != f(y)
    ensures DistinctBy(a + ([y] + b), f)
  {
    var all, rest, k := a + ([y] + b), a + b, |a|;
    forall i | 0 <= i < |all| && i != k ensures all[i] == rest[if i < k then i else i - 1] && all[i] in rest {
    }
  }

  lemma {:induction false} DistinctRearranged<T, K>(xs: seq<T>, ys: seq<T>, f: T -> K)
    requires DistinctBy(xs, f) && multiset(xs) == multiset(ys)
    ensures DistinctBy(ys, f)
    decreases |xs|
  {
    if xs == [] {
      SameMembers(xs, ys);
    } else {
      var k := TakeOut(xs, ys);
      var rest := ys[..k] + ys[k + 1..];
      DistinctRearranged(xs[1..], rest, f);
      SameMembers(xs[1..], rest);
      forall x | x in rest ensures f(x) != f(ys[k]) {
        var l :| 0 <= l < |xs[1..]| && xs[1..][l] == x;
        assert xs[l + 1] == x;
      }
      DistinctPutBack(ys[..k], ys[k], ys[k + 1..], f);
    }
  }

  /** With distinct keys there is only one sort. */
  lemma DistinctKeysFixTheSort<T(!new)>(a: seq<T>, b: seq<T>, key: T -> string)
    requires SortedBy(a, ByKey(key)) && SortedBy(b, ByKey(key)) && multiset(a) == multiset(b)
    requires DistinctBy(a, key)
    ensures a == b
  {
    ByKeyWeak(key);
    SortsTie(a, b, ByKey(key));
    SameMembers(a, b);
    forall i | 0 <= i < |a| ensures a[i] == b[i] {
      assert b[i] in a;
      var k :| 0 <= k < |a| && a[k] == b[i];
      assert key(a[k]) == key(a[i]);
    }
  }
}
