/** The fan-out of node activities (activity.go): one goroutine a node, one map under a lock. */
module NodeActivities {
  import opened Wrappers
  import opened Records
  import opened Activity
  import opened Fanout
  import opened Sorting
  import opened NodeKeys

  /** What the nodes' files say, and the settings of one scan. audit: the fields of a node's
      audit_info, None when it cannot be read; hasAudit: whether it exists; number: ParseInt;
      parse: the line parser for a node; traces: a stream's trace files d days ago. */
  datatype Inputs = Inputs(
    audit: string -> Option<seq<string>>,
    hasAudit: string -> bool,
    number: string -> Option<int>,
    parse: string -> Parser,
    traces: string -> nat -> seq<TraceFile>,
    tracelogDir: string, minDelay: int, lookback: int, now: int)

  /** ScanCollectorActivity without an error. */
  function CollectorActivity(w: Inputs, n: StreamNode): Option<NodeActivity> {
    match w.audit(n.nodeDir)
    case None => None
    case Some(fields) =>
      if |fields| < 2 then None
      else
        match w.number(fields[1])
        case None => None
        case Some(epoch) =>
          if epoch <= 0 then None
          else Some(NodeActivity(n.base, n.stream, n.node, "collector", epoch,
                                 DelayOf(w.now, epoch, w.minDelay), fields[0], true))
  }

  function DistributorOf(w: Inputs, n: StreamNode): NodeActivity {
    DistributorActivity(w.parse(n.node), w.traces(n.stream), w.tracelogDir,
                        n.base, n.stream, n.node, w.lookback, w.minDelay, w.now)
  }

  /** The activity a node's goroutine stores, if any. */
  function ActivityOf(w: Inputs, n: StreamNode): Option<NodeActivity> {
    if n.nodeType == "collector" || (n.nodeType != "distributor" && w.hasAudit(n.nodeDir)) then
      CollectorActivity(w, n)
    else if (n.nodeType == "distributor" || w.tracelogDir != "") && DistributorOf(w, n).success then
      Some(DistributorOf(w, n))
    else None
  }

  function ActivityKey(a: NodeActivity): string {
    TypedKey(a.base, a.stream, a.node, a.nodeType)
  }

  function ActivityWrite(w: Inputs): StreamNode -> Option<Write<string, NodeActivity>> {
    n =>
      var a := ActivityOf(w, n);
      if a.Some? then Some(Write(ActivityKey(a.value), a.value)) else None
  }

  method ScanCollectorActivity(w: Inputs, n: StreamNode) returns (act: NodeActivity, ok: bool)
    ensures (if ok then Some(act) else None) == CollectorActivity(w, n)
    ensures !ok ==>
              var fields := w.audit(n.nodeDir);
              var lastFile := if fields.Some? && |fields.value| >= 2 then fields.value[0] else "-";
              act == NodeActivity(n.base, n.stream, n.node, "collector", 0, 0, lastFile, false)
    ensures ok == act.success
  {
    var fields := w.audit(n.nodeDir);
    if fields.None? || |fields.value| < 2 {
      return NodeActivity(n.base, n.stream, n.node, "collector", 0, 0, "-", false), false;
    }
    var lastFile, epoch := fields.value[0], w.number(fields.value[1]);
    if epoch.None? || epoch.value <= 0 {
      return NodeActivity(n.base, n.stream, n.node, "collector", 0, 0, lastFile, false), false;
    }
    var delay := w.now - epoch.value;
    if delay < 0 {
      delay := 0;
    }
    if w.minDelay > 0 && delay <= w.minDelay / 1_000_000_000 {
      delay := 0;
    }
    return NodeActivity(n.base, n.stream, n.node, "collector", epoch.value, delay, lastFile, true), true;
  }

  /** The goroutine of one node. */
  method ActivityJob(w: Inputs, n: StreamNode) returns (write: Option<Write<string, NodeActivity>>)
    ensures write == ActivityWrite(w)(n)
  {
    var act := NodeActivity("", "", "", "", 0, 0, "", false);
    var ok := true;
    if n.nodeType == "collector" {
      act, ok := ScanCollectorActivity(w, n);
    } else if n.nodeType == "distributor" {
      act := Activity.ScanDistributorActivity(w.parse(n.node), w.traces(n.stream), w.tracelogDir,
                                              n.base, n.stream, n.node, w.lookback, w.minDelay, w.now);
    } else if w.hasAudit(n.nodeDir) {
      act, ok := ScanCollectorActivity(w, n);
    } else if w.tracelogDir != "" {
      act := Activity.ScanDistributorActivity(w.parse(n.node), w.traces(n.stream), w.tracelogDir,
                                              n.base, n.stream, n.node, w.lookback, w.minDelay, w.now);
    }
    write := if ok && act.success then Some(Write(ActivityKey(act), act)) else None;
  }

  /** ScanAllNodeActivities, the goroutines taking the lock in launch order. */
  method ScanAllNodeActivities(w: Inputs, nodes: seq<StreamNode>, cancelAt: Option<nat>)
    returns (out: map<string, NodeActivity>)
    ensures out == Apply(JobWrites(Launched(nodes, cancelAt), ActivityWrite(w)))
  {
    out := map[];
    var i := 0;
    ghost var launched, job := Launched(nodes, cancelAt), ActivityWrite(w);
    ghost var ws: seq<Write<string, NodeActivity>> := [];
    assert launched[0..] == launched;
    while i < |nodes| && !(cancelAt.Some? && i >= cancelAt.value)
      invariant i <= |launched|
      invariant ws + JobWrites(launched[i..], job) == JobWrites(launched, job)
      invariant out == Apply(ws)
    {
      assert launched[i] == nodes[i];
      var write := ActivityJob(w, nodes[i]);
      NextWrite(launched, job, i, ws);
      ws := ws + Written(write);
      out := StoreWrite(out, write);
      i := i + 1;
    }
    assert launched[i..] == [] && ws + [] == ws;
  }

  /** The locked store at the end of a goroutine. */
  method StoreWrite(results: map<string, NodeActivity>, write: Option<Write<string, NodeActivity>>)
    returns (out: map<string, NodeActivity>)
    ensures out == if write.Some? then results[write.value.key := write.value.value] else results
  {
    out := results;
    if write.Some? {
      out := out[write.value.key := write.value.value];
    }
  }

  // ---- what the map holds ---------------------------------------------------------------------

  /** A stored activity belongs to its node, names one of the two types, and its delay is that
      of its timestamp; a collector's timestamp is positive. */
  lemma StoredActivity(w: Inputs, n: StreamNode)
    requires ActivityOf(w, n).Some?
    ensures var a := ActivityOf(w, n).value;
            && (a.base, a.stream, a.node) == (n.base, n.stream, n.node) && a.success
            && a.nodeType == (if n.nodeType == "collector" || n.nodeType == "distributor" then n.nodeType
                              else if w.hasAudit(n.nodeDir) then "collector" else "distributor")
            && a.delay == DelayOf(w.now, a.lastActivity, w.minDelay)
            && (a.nodeType == "collector" ==> a.lastActivity > 0)
            && (a.nodeType == "distributor" ==> w.tracelogDir != "" && w.lookback > 0)
  {
  }

  /** Whatever nodes were scanned, in whatever order, activities sit under their own keys. */
  lemma ActivitiesKeyed(w: Inputs, nodes: seq<StreamNode>, order: seq<Write<string, NodeActivity>>, k: string)
    requires multiset(order) == multiset(JobWrites(nodes, ActivityWrite(w))) && k in Apply(order)
    ensures ActivityKey(Apply(order)[k]) == k && Apply(order)[k].success
    ensures Apply(order)[k].nodeType in {"collector", "distributor"}
  {
    AppliedFrom(order, k);
    var x :| x in order && x.key == k && x.value == Apply(order)[k];
    SameMembers(order, JobWrites(nodes, ActivityWrite(w)));
    JobWritesMember(nodes, ActivityWrite(w), x);
    var n :| n in nodes && ActivityWrite(w)(n) == Some(x);
    StoredActivity(w, n);
  }

  /** An activity's node, under one of the two types. */
  predicate BelongsTo(a: NodeActivity, n: StreamNode) {
    (a.base, a.stream, a.node) == (n.base, n.stream, n.node) && a.nodeType in {"collector", "distributor"}
  }

  lemma TypesSlashFree()
    ensures '/' !in "collector" && '/' !in "distributor"
  {
  }

  lemma ActivityKeysDiffer(nodes: seq<StreamNode>, i: nat, j: nat, a: NodeActivity, b: NodeActivity)
    requires ProperNodes(nodes) && i < j < |nodes| && BelongsTo(a, nodes[i]) && BelongsTo(b, nodes[j])
    ensures ActivityKey(a) != ActivityKey(b)
  {
    TypesSlashFree();
    if ActivityKey(a) == ActivityKey(b) {
      TypedKeyInjective(a.base, a.stream, a.node, a.nodeType, b.base, b.stream, b.node, b.nodeType);
      assert false;
    }
  }

  /** In whatever order the goroutines store, the map is the same, and it holds exactly one
      record for each node whose scan succeeded, under that record's key. */
  lemma OneActivityPerNode(w: Inputs, nodes: seq<StreamNode>, order: seq<Write<string, NodeActivity>>)
    requires ProperNodes(nodes) && multiset(order) == multiset(JobWrites(nodes, ActivityWrite(w)))
    ensures Apply(order) == Apply(JobWrites(nodes, ActivityWrite(w)))
    ensures forall n :: n in nodes && ActivityOf(w, n).Some? ==>
              var a := ActivityOf(w, n).value; ActivityKey(a) in Apply(order) && Apply(order)[ActivityKey(a)] == a
    ensures forall k :: k in Apply(order) ==>
              exists n :: n in nodes && ActivityOf(w, n).Some? && k == ActivityKey(ActivityOf(w, n).value)
  {
    var job := ActivityWrite(w);
    forall i, j | 0 <= i < j < |nodes| && job(nodes[i]).Some? && job(nodes[j]).Some?
      ensures job(nodes[i]).value.key != job(nodes[j]).value.key
    {
      StoredActivity(w, nodes[i]);
      StoredActivity(w, nodes[j]);
      ActivityKeysDiffer(nodes, i, j, ActivityOf(w, nodes[i]).value, ActivityOf(w, nodes[j]).value);
    }
    FannedOut(nodes, job, order);
    forall n | n in nodes && ActivityOf(w, n).Some?
      ensures var a := ActivityOf(w, n).value; ActivityKey(a) in Apply(order) && Apply(order)[ActivityKey(a)] == a
    {
      assert job(n).Some?;
    }
    forall k | k in Apply(order)
      ensures exists n :: n in nodes && ActivityOf(w, n).Some? && k == ActivityKey(ActivityOf(w, n).value)
    {
      var n :| n in nodes && job(n).Some? && job(n).value.key == k;
    }
  }
}
