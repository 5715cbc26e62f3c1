/** What a broadcast comes to at the nodes it reaches: not only their marks, but the
    entries themselves.
 */
module ClusterOutcome {
  import opened Types
  import opened GossipNode
  import opened Cluster
  import opened ClusterForward
  import opened ClusterMarks
  import opened ClusterSuppression
  import opened ClusterConvergence
  import opened ClusterApplier
  import opened ClusterDelivery
  import ClusterProvenance
  import ClusterRepair
  import OrderedLedger
  import OrderedSlot

  /** Every node of the cluster has a path to `n`. */
  ghost predicate Reaches(c: System, n: NodeId, paths: map<NodeId, seq<NodeId>>) {
    forall k: NodeId | k < |c.nodes| ::
      k in paths && Path(c, paths[k]) && paths[k][0] == k && paths[k][|paths[k]| - 1] == n
  }

  /** The entry has the largest number that the run enqueued for its topic. */
  ghost predicate Largest(evs: seq<Cluster.Event>, size: nat, e: Entry) {
    && e in ClusterProvenance.Enqueued(evs, size)
    && forall x <- ClusterProvenance.Enqueued(evs, size) :: x.topic == e.topic ==> x.seqno <= e.seqno
  }

  /** The node enqueued the entry itself, or has delivered it, or has it waiting in
      its reorder buffer. */
  ghost predicate Got(nd: Node, own: seq<Entry>, e: Entry) {
    || e in own
    || e in nd.delivered
    || (e.seqno in nd.slots[e.topic].pending && nd.slots[e.topic].pending[e.seqno] == e.payload)
  }

  lemma GainedGot(nd: Node, nd': Node, log: seq<Entry>, own: seq<Entry>, e: Entry)
    requires Gains(nd, nd', e.topic, log) && e in log
    ensures Got(nd', own, e)
  {
    var it := OrderedSlot.Item(e.seqno, e.payload);
    ItemsAreListed(log, e.topic, e);
    assert it in multiset(ItemsOf(log, e.topic));
    assert it in Held(nd', e.topic);
    if it in multiset(ItemsOf(nd'.delivered, e.topic)) {
      ItemsComeFrom(nd'.delivered, e.topic, it);
    } else {
      assert OrderedLedger.Buffered(nd'.slots[e.topic].pending)[it] > 0;
    }
  }

  /** When a run without losses has come to rest, a node that every node has a
      path to has accepted or enqueued an entry with the largest number of the
      topic, if anything above its initial mark was enqueued for it. */
  lemma LargestTaken(c: System, p: Params, evs: seq<Cluster.Event>, n: NodeId, t: Topic, paths: map<NodeId, seq<NodeId>>, x: Entry)
    returns (e: Entry)
    requires Spreading(c, 0, []) && ClusterProvenance.HoldsNone(c) && Honest(p, |c.nodes|) && LossFree(evs) && n < |c.nodes|
    requires Quiescent(Exec(c, p, evs)) && Reaches(Exec(c, p, evs), n, paths)
    requires x in ClusterProvenance.Enqueued(evs, |c.nodes|) && x.topic == t && x.seqno > c.nodes[n].seen[t]
    ensures e in Taken(c, p, evs, n) && e.topic == t && Largest(evs, |c.nodes|, e)
  {
    ExecSize(c, p, evs);
    MarkIsLargest(c, p, evs, n, t, paths);
    MarkIsMaximum(c, p, evs, n, t);
    var mark := Exec(c, p, evs).nodes[n].seen[t];
    assert x.seqno <= mark;
    e :| e in Taken(c, p, evs, n) && e.topic == t && e.seqno == mark;
    ClusterRepair.TakenEnqueued(c, p, evs, n);
  }

  /** And if it was not repaired meanwhile, it has delivered that entry or holds it
      in its reorder buffer, unless it enqueued it itself. */
  lemma LargestArrives(c: System, p: Params, evs: seq<Cluster.Event>, n: NodeId, t: Topic, paths: map<NodeId, seq<NodeId>>, x: Entry)
    returns (e: Entry)
    requires Spreading(c, 0, []) && ClusterProvenance.HoldsNone(c) && Honest(p, |c.nodes|) && LossFree(evs)
    requires n < |c.nodes| == |Exec(c, p, evs).nodes| && WithinMark(c.nodes[n], t)
    requires Quiescent(Exec(c, p, evs)) && Reaches(Exec(c, p, evs), n, paths)
    requires x in ClusterProvenance.Enqueued(evs, |c.nodes|) && x.topic == t && x.seqno > c.nodes[n].seen[t]
    requires (forall ev <- evs :: Untouched(ev, n)) && forall y <- AcceptLog(c, p, evs, n) :: y.seqno < MAX_SEQ
    ensures e.topic == t && Largest(evs, |c.nodes|, e) && Got(Exec(c, p, evs).nodes[n], EnqueueLog(c, p, evs, n), e)
  {
    e := LargestTaken(c, p, evs, n, t, paths, x);
    AcceptedEndsUp(c, p, evs, n, t);
    if e in AcceptLog(c, p, evs, n) {
      GainedGot(c.nodes[n], Exec(c, p, evs).nodes[n], AcceptLog(c, p, evs, n), EnqueueLog(c, p, evs, n), e);
    }
  }
}
