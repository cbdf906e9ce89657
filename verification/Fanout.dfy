/** A map filled by concurrent workers under one lock: the writes in the order they happen. */
module Fanout {
  import opened Wrappers
  import opened Sorting

  datatype Write<K, V> = Write(key: K, value: V)

  /** The map after the writes, later ones winning. */
  function Apply<K, V>(ws: seq<Write<K, V>>): map<K, V> {
    if ws == [] then map[]
    else
      var last := ws[|ws| - 1];
      Apply(ws[..|ws| - 1])[last.key := last.value]
  }

  function WriteKey<K, V>(): Write<K, V> -> K {
    (w: Write<K, V>) => w.key
  }

  predicate DistinctKeys<K(==), V>(ws: seq<Write<K, V>>) {
    DistinctBy(ws, WriteKey())
  }

  /** Without a repeated key nothing is overwritten. */
  lemma {:induction false} NothingOverwritten<K, V>(ws: seq<Write<K, V>>)
    requires DistinctKeys(ws)
    ensures forall k :: k in Apply(ws) <==> exists i :: 0 <= i < |ws| && ws[i].key == k
    ensures forall i :: 0 <= i < |ws| ==> Apply(ws)[ws[i].key] == ws[i].value
  {
    if ws != [] {
      NothingOverwritten(ws[..|ws| - 1]);
    }
  }

  /** Every entry of the map is some write's value under that write's key. */
  lemma {:induction false} AppliedFrom<K, V>(ws: seq<Write<K, V>>, k: K)
    requires k in Apply(ws)
    ensures exists w :: w in ws && w.key == k && w.value == Apply(ws)[k]
  {
    var last := ws[|ws| - 1];
    if last.key == k {
      assert last in ws;
    } else {
      AppliedFrom(ws[..|ws| - 1], k);
    }
  }

  lemma SameWrites<K, V>(a: seq<Write<K, V>>, b: seq<Write<K, V>>, k: K)
    requires DistinctKeys(a) && DistinctKeys(b) && forall w :: w in a ==> w in b
    requires k in Apply(a)
    ensures k in Apply(b) && Apply(a)[k] == Apply(b)[k]
  {
    NothingOverwritten(a);
    NothingOverwritten(b);
    var i :| 0 <= i < |a| && a[i].key == k;
    assert a[i] in b;
    var j :| 0 <= j < |b| && b[j] == a[i];
  }

  /** The order in which workers take the lock does not matter when keys are distinct. */
  lemma OrderIrrelevant<K, V>(a: seq<Write<K, V>>, b: seq<Write<K, V>>)
    requires DistinctKeys(a) && multiset(a) == multiset(b)
    ensures Apply(a) == Apply(b)
  {
    DistinctRearranged(a, b, WriteKey());
    SameMembers(a, b);
    forall k | k in Apply(a) ensures k in Apply(b) && Apply(a)[k] == Apply(b)[k] {
      SameWrites(a, b, k);
    }
    forall k | k in Apply(b) ensures k in Apply(a) {
      SameWrites(b, a, k);
    }
  }

  /** The jobs launched when the context is found cancelled at the given turn of the loop. */
  function Launched<J>(jobs: seq<J>, cancelAt: Option<nat>): seq<J> {
    if cancelAt.Some? && cancelAt.value < |jobs| then jobs[..cancelAt.value] else jobs
  }

  // ---- one job, at most one write ----------------------------------------------------------

  function Written<K, V>(write: Option<Write<K, V>>): seq<Write<K, V>> {
    if write.Some? then [write.value] else []
  }

  /** The writes of a list of jobs, in launch order; job says what each one stores. */
  function JobWrites<J, K, V>(jobs: seq<J>, job: J -> Option<Write<K, V>>): seq<Write<K, V>> {
    if jobs == [] then [] else Written(job(jobs[0])) + JobWrites(jobs[1..], job)
  }

  lemma {:induction false} JobWritesMember<J, K, V>(jobs: seq<J>, job: J -> Option<Write<K, V>>, x: Write<K, V>)
    ensures x in JobWrites(jobs, job) <==> exists j :: j in jobs && job(j) == Some(x)
  {
    if jobs != [] {
      JobWritesMember(jobs[1..], job, x);
      assert jobs == [jobs[0]] + jobs[1..];
      assert x in JobWrites(jobs, job) <==> x in Written(job(jobs[0])) || x in JobWrites(jobs[1..], job);
    }
  }

  lemma {:induction false} SameJobs<J, K, V>(jobs: seq<J>, f: J -> Option<Write<K, V>>, g: J -> Option<Write<K, V>>)
    requires forall i :: 0 <= i < |jobs| ==> f(jobs[i]) == g(jobs[i])
    ensures JobWrites(jobs, f) == JobWrites(jobs, g)
  {
    if jobs != [] {
      forall i | 0 <= i < |jobs[1..]| ensures f(jobs[1..][i]) == g(jobs[1..][i]) {
        assert f(jobs[i + 1]) == g(jobs[i + 1]);
      }
      SameJobs(jobs[1..], f, g);
    }
  }

  /** No two jobs store under one key. */
  ghost predicate KeysApart<J, K, V>(jobs: seq<J>, job: J -> Option<Write<K, V>>) {
    forall i, j :: 0 <= i < j < |jobs| && job(jobs[i]).Some? && job(jobs[j]).Some? ==>
      job(jobs[i]).value.key != job(jobs[j]).value.key
  }

  lemma {:induction false} JobKeysDistinct<J, K, V>(jobs: seq<J>, job: J -> Option<Write<K, V>>)
    requires KeysApart(jobs, job)
    ensures DistinctKeys(JobWrites(jobs, job))
  {
    if jobs != [] {
      var first, later := job(jobs[0]), JobWrites(jobs[1..], job);
      assert KeysApart(jobs[1..], job) by {
        forall i, j | 0 <= i < j < |jobs[1..]| && job(jobs[1..][i]).Some? && job(jobs[1..][j]).Some?
          ensures job(jobs[1..][i]).value.key != job(jobs[1..][j]).value.key
        {
          assert jobs[1..][i] == jobs[i + 1] && jobs[1..][j] == jobs[j + 1];
        }
      }
      JobKeysDistinct(jobs[1..], job);
      if first.Some? {
        forall k | 0 <= k < |later| ensures later[k].key != first.value.key {
          assert later[k] in later;
          JobWritesMember(jobs[1..], job, later[k]);
          var j :| 0 <= j < |jobs[1..]| && job(jobs[1..][j]) == Some(later[k]);
          assert jobs[1..][j] == jobs[j + 1];
        }
      }
    }
  }

  /** When keys are apart, whatever order the workers store in, the map has one entry for each
      job that stores, holding that job's value, and nothing else. */
  lemma FannedOut<J, K, V>(jobs: seq<J>, job: J -> Option<Write<K, V>>, order: seq<Write<K, V>>)
    requires KeysApart(jobs, job) && multiset(order) == multiset(JobWrites(jobs, job))
    ensures Apply(order) == Apply(JobWrites(jobs, job))
    ensures forall j :: j in jobs && job(j).Some? ==>
              job(j).value.key in Apply(order) && Apply(order)[job(j).value.key] == job(j).value.value
    ensures forall k :: k in Apply(order) ==> exists j :: j in jobs && job(j).Some? && job(j).value.key == k
  {
    JobKeysDistinct(jobs, job);
    OrderIrrelevant(JobWrites(jobs, job), order);
    forall j | j in jobs && job(j).Some?
      ensures job(j).value.key in Apply(order) && Apply(order)[job(j).value.key] == job(j).value.value
    {
      JobIsThere(jobs, job, j);
    }
    forall k | k in Apply(order) ensures exists j :: j in jobs && job(j).Some? && job(j).value.key == k {
      var j := JobBehind(jobs, job, k);
    }
  }

  lemma JobIsThere<J, K, V>(jobs: seq<J>, job: J -> Option<Write<K, V>>, j: J)
    requires DistinctKeys(JobWrites(jobs, job)) && j in jobs && job(j).Some?
    ensures var w := job(j).value; var m := Apply(JobWrites(jobs, job)); w.key in m && m[w.key] == w.value
  {
    var ws := JobWrites(jobs, job);
    JobWritesMember(jobs, job, job(j).value);
    var i :| 0 <= i < |ws| && ws[i] == job(j).value;
    NothingOverwritten(ws);
    assert ws[i].key in Apply(ws) && Apply(ws)[ws[i].key] == ws[i].value;
  }

  lemma JobBehind<J, K, V>(jobs: seq<J>, job: J -> Option<Write<K, V>>, k: K) returns (j: J)
    requires DistinctKeys(JobWrites(jobs, job)) && k in Apply(JobWrites(jobs, job))
    ensures j in jobs && job(j).Some? && job(j).value.key == k
  {
    var ws := JobWrites(jobs, job);
    NothingOverwritten(ws);
    var i :| 0 <= i < |ws| && ws[i].key == k;
    assert ws[i] in ws;
    JobWritesMember(jobs, job, ws[i]);
    j :| j in jobs && job(j) == Some(ws[i]);
  }

  // ---- filling the map in launch order --------------------------------------------------------

  lemma AppliedOne<K, V>(ws: seq<Write<K, V>>, w: Write<K, V>)
    ensures Apply(ws + [w]) == Apply(ws)[w.key := w.value]
  {
    assert (ws + [w])[..|ws|] == ws;
  }

  /** One turn of the launching loop. */
  lemma NextWrite<J, K, V>(jobs: seq<J>, job: J -> Option<Write<K, V>>, i: nat, ws: seq<Write<K, V>>)
    requires i < |jobs|
    ensures ws + JobWrites(jobs[i..], job) == (ws + Written(job(jobs[i]))) + JobWrites(jobs[i + 1..], job)
    ensures job(jobs[i]).Some? ==>
              var w := job(jobs[i]).value; Apply(ws + Written(job(jobs[i]))) == Apply(ws)[w.key := w.value]
    ensures job(jobs[i]).None? ==> Apply(ws + Written(job(jobs[i]))) == Apply(ws)
  {
    assert jobs[i..][0] == jobs[i] && jobs[i..][1..] == jobs[i + 1..];
    if job(jobs[i]).Some? {
      AppliedOne(ws, job(jobs[i]).value);
    } else {
      assert ws + [] == ws;
    }
  }
}
