/** The activity stored for a node told by its audit file, or by the trace files of its stream. */
module NodeActivitiesMeaning {
  import opened Wrappers
  import opened Records
  import opened Activity
  import opened ActivityMeaning
  import opened NodeActivities

  /** Who is looked up as a collector, and who as a distributor. */
  predicate AsCollector(w: Inputs, n: StreamNode) {
    n.nodeType == "collector" || (n.nodeType != "distributor" && w.hasAudit(n.nodeDir))
  }

  predicate AsDistributor(w: Inputs, n: StreamNode) {
    n.nodeType == "distributor" || (n.nodeType != "collector" && !w.hasAudit(n.nodeDir))
  }

  /** The audit file has two fields, the second a positive time: the last activity, with the first
      field as the last file. */
  predicate FromAudit(w: Inputs, n: StreamNode, a: NodeActivity) {
    match w.audit(n.nodeDir)
    case None => false
    case Some(fields) =>
      && |fields| >= 2 && w.number(fields[1]) == Some(a.lastActivity) && a.lastActivity > 0
      && a == NodeActivity(n.base, n.stream, n.node, "collector", a.lastActivity,
                           DelayOf(w.now, a.lastActivity, w.minDelay), fields[0], true)
  }

  /** The event to report, found in the stream's traces by the node's own parser. */
  predicate FromTraces(w: Inputs, n: StreamNode, a: NodeActivity, d: nat, f: TraceFile, e: Event) {
    && w.tracelogDir != "" && ToReport(w.parse(n.node), w.traces(n.stream), w.lookback, d, f, e)
    && a == NodeActivity(n.base, n.stream, n.node, "distributor", e.time, DelayOf(w.now, e.time, w.minDelay), e.file, true)
  }

  lemma AuditIff(w: Inputs, n: StreamNode, a: NodeActivity)
    ensures CollectorActivity(w, n) == Some(a) <==> FromAudit(w, n, a)
  {
  }

  lemma TracesFound(w: Inputs, n: StreamNode) returns (d: nat, f: TraceFile, e: Event)
    ensures DistributorOf(w, n).success <==> w.tracelogDir != "" && AnyEvent(w.parse(n.node), w.traces(n.stream), w.lookback)
    ensures DistributorOf(w, n).success ==> FromTraces(w, n, DistributorOf(w, n), d, f, e)
  {
    d, f, e := DistributorMeaning(w.parse(n.node), w.traces(n.stream), w.tracelogDir,
                                  n.base, n.stream, n.node, w.lookback, w.minDelay, w.now);
  }

  /** A node looked up as a collector has an activity just when its audit file gives one, and it is
      that one. */
  lemma CollectorStores(w: Inputs, n: StreamNode, a: NodeActivity)
    requires AsCollector(w, n)
    ensures ActivityOf(w, n) == Some(a) <==> FromAudit(w, n, a)
  {
    AuditIff(w, n, a);
  }

  /** A node looked up as a distributor has an activity just when some trace file of its stream has an
      event of it, and it tells the event to report. */
  lemma DistributorStores(w: Inputs, n: StreamNode) returns (d: nat, f: TraceFile, e: Event)
    requires AsDistributor(w, n)
    ensures ActivityOf(w, n).Some? <==> w.tracelogDir != "" && AnyEvent(w.parse(n.node), w.traces(n.stream), w.lookback)
    ensures ActivityOf(w, n).Some? ==> FromTraces(w, n, ActivityOf(w, n).value, d, f, e)
  {
    d, f, e := TracesFound(w, n);
  }
}
