/** The Cache and WatchList objects (cache.go, watchlist.go) and Exporter.Discover, one call
    at a time. The interleaved behaviour of the same cells is in CacheProtocol and Protocol. */
module CacheStore {
  import opened Wrappers
  import opened Records
  import opened CacheProtocol
  import opened FileSystem
  import opened Targets
  import opened Discovery
  import Protocol

  datatype CacheSnapshot = CacheSnapshot(
    entries: seq<DirMetrics>, nodeActivities: seq<NodeActivity>, nodeBuffers: seq<NodeBuffer>,
    lastScanTime: int, ready: bool, scanErrors: nat, reloadTotal: nat, watchedTotal: int)

  /** vs lists the values of m, one for each key, in the order of some listing of the keys. */
  ghost predicate Lists<V>(order: seq<string>, vs: seq<V>, m: map<string, V>) {
    && |order| == |vs|
    && (forall i, j :: 0 <= i < j < |order| ==> order[i] != order[j])
    && (forall k :: k in order <==> k in m)
    && (forall i :: 0 <= i < |order| && order[i] in m ==> vs[i] == m[order[i]])
  }

  ghost predicate ListsValues<V>(vs: seq<V>, m: map<string, V>) {
    exists order :: Lists(order, vs, m)
  }

  /** Ranging over a map: the keys come in an order the language does not fix. */
  method Values<V>(m: map<string, V>) returns (vs: seq<V>)
    ensures ListsValues(vs, m)
  {
    vs := [];
    ghost var order: seq<string> := [];
    var left := m.Keys;
    while left != {}
      invariant left <= m.Keys && |order| == |vs|
      invariant forall i, j :: 0 <= i < j < |order| ==> order[i] != order[j]
      invariant forall k :: k in order <==> k in m.Keys - left
      invariant forall i :: 0 <= i < |order| && order[i] in m ==> vs[i] == m[order[i]]
      decreases |left|
    {
      var k :| k in left;
      assert k !in order;
      vs := vs + [m[k]];
      order := order + [k];
      left := left - {k};
    }
    assert Lists(order, vs, m);
  }

  /** Two listings of one map are rearrangements of each other. */
  lemma ListingsArePermutations<V>(vs: seq<V>, ws: seq<V>, m: map<string, V>)
    requires ListsValues(vs, m) && ListsValues(ws, m)
    ensures multiset(vs) == multiset(ws)
  {
    var o :| Lists(o, vs, m);
    var p :| Lists(p, ws, m);
    SameKeysSameMultiset(o, vs, p, ws, m);
  }

  lemma {:induction false} SameKeysSameMultiset<V>(o: seq<string>, vs: seq<V>, p: seq<string>, ws: seq<V>, m: map<string, V>)
    requires Lists(o, vs, m) && Lists(p, ws, m)
    ensures multiset(vs) == multiset(ws)
    decreases |o|
  {
    if o == [] {
      FirstListed(p, ws, m);
    } else {
      var n := |o| - 1;
      assert o[n] in o && o[n] in p;
      var i :| 0 <= i < |p| && p[i] == o[n];
      Dropped(o, vs, m, n);
      Dropped(p, ws, m, i);
      Without(vs, n);
      Without(ws, i);
      SameKeysSameMultiset(o[..n] + o[n + 1..], vs[..n] + vs[n + 1..],
                           p[..i] + p[i + 1..], ws[..i] + ws[i + 1..], m - {o[n]});
    }
  }

  lemma FirstListed<V>(o: seq<string>, vs: seq<V>, m: map<string, V>)
    requires Lists(o, vs, m)
    ensures o != [] ==> o[0] in m
  {
    if o != [] {
      assert o[0] in o;
    }
  }

  lemma Without<T>(s: seq<T>, i: nat)
    requires i < |s|
    ensures multiset(s) == multiset(s[..i] + s[i + 1..]) + multiset{s[i]}
  {
    assert s == s[..i] + [s[i]] + s[i + 1..];
  }

  lemma Dropped<V>(o: seq<string>, vs: seq<V>, m: map<string, V>, i: nat)
    requires Lists(o, vs, m) && i < |o|
    ensures Lists(o[..i] + o[i + 1..], vs[..i] + vs[i + 1..], m - {o[i]})
  {
    var o' := o[..i] + o[i + 1..];
    forall k ensures k in o' <==> k in m - {o[i]} {
      if k in m && k != o[i] {
        assert k in o;
        var j :| 0 <= j < |o| && o[j] == k;
        assert k == if j < i then o'[j] else o'[j - 1];
      }
      if k in o' {
        var j :| 0 <= j < |o'| && o'[j] == k;
        assert k == o[if j < i then j else j + 1];
        assert k in o;
      }
    }
  }

  class Cache {
    var entries: map<string, DirMetrics>
    var nodeActivities: map<string, NodeActivity>
    var nodeBuffers: map<string, NodeBuffer>
    var lastScanTime: int
    var ready: bool
    var scanErrors: nat
    var reloadTotal: nat
    var watchedTotal: int

    /** The memory the concurrent model speaks of. */
    function View(): Cells
      reads this
    {
      Cells(Batch(entries, nodeActivities, nodeBuffers, lastScanTime), ready, scanErrors, reloadTotal, watchedTotal)
    }

    constructor ()
      ensures View() == NEW_CELLS
    {
      entries, nodeActivities, nodeBuffers := map[], map[], map[];
      lastScanTime, ready, scanErrors, reloadTotal, watchedTotal := 0, false, 0, 0, 0;
    }

    /** SetBatch publishes the batch, counts its errors and marks the cache ready. */
    method SetBatch(
        newEntries: map<string, DirMetrics>, activities: map<string, NodeActivity>,
        buffers: map<string, NodeBuffer>, scanTime: int, newErrors: nat)
      modifies this
      ensures View() == old(View()).(fields := Batch(newEntries, activities, buffers, scanTime),
                                     scanErrors := old(scanErrors) + newErrors, ready := true)
    {
      entries := newEntries;
      nodeActivities := activities;
      nodeBuffers := buffers;
      lastScanTime := scanTime;
      if newErrors > 0 {
        scanErrors := scanErrors + newErrors;
      }
      ready := true;
    }

    method SetWatchedTotal(n: nat)
      modifies this`watchedTotal
      ensures View() == old(View()).(watchedTotal := Protocol.Int32(n))
    {
      watchedTotal := Protocol.Int32(n);
    }

    /** Snapshot lists every cached value once and copies the scalars. */
    method Snapshot() returns (snap: CacheSnapshot)
      ensures ListsValues(snap.entries, entries)
      ensures ListsValues(snap.nodeActivities, nodeActivities)
      ensures ListsValues(snap.nodeBuffers, nodeBuffers)
      ensures snap.lastScanTime == lastScanTime && snap.ready == ready && snap.scanErrors == scanErrors
      ensures snap.reloadTotal == reloadTotal && snap.watchedTotal == watchedTotal
    {
      var es := Values(entries);
      var activities := Values(nodeActivities);
      var buffers := Values(nodeBuffers);
      snap := CacheSnapshot(es, activities, buffers, lastScanTime, ready, scanErrors, reloadTotal, watchedTotal);
    }
  }

  class WatchList {
    var entries: seq<WatchEntry>

    constructor ()
      ensures entries == []
    {
      entries := [];
    }

    method Set(newEntries: seq<WatchEntry>)
      modifies this
      ensures entries == newEntries
    {
      entries := newEntries;
    }
  }

  class Exporter {
    const targets: seq<Target>
    const cache: Cache
    const wl: WatchList

    constructor (targets: seq<Target>)
      ensures this.targets == targets && fresh(cache) && fresh(wl)
      ensures cache.View() == NEW_CELLS && wl.entries == []
    {
      this.targets := targets;
      cache := new Cache();
      wl := new WatchList();
    }

    /** Discover replaces the watch list even when some target failed, and reports the first
        failure. */
    method Discover(tree: Tree) returns (err: Option<DiscoveryError>)
      modifies wl, cache`watchedTotal
      ensures wl.entries == AllEntries(tree, targets)
      ensures err == FirstOf(None, AllErrors(tree, targets))
      ensures cache.View() == old(cache.View()).(watchedTotal := Protocol.Int32(|wl.entries|))
    {
      var entries;
      entries, err := DiscoverTargets(tree, targets);
      wl.Set(entries);
      cache.SetWatchedTotal(|entries|);
    }
  }
}
