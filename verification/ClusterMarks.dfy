/** The marks of a node over a run: they only rise, and each is the largest number
    that the node accepted or enqueued for the topic.
 */
module ClusterMarks {
  import opened Types
  import opened GossipNode
  import opened Cluster
  import opened ClusterForward

  lemma {:induction false} AcceptedOffered(seen: Marks, es: seq<Entry>)
    ensures forall e <- AcceptedOf(seen, es) :: e in es
    decreases |es|
  {
    if es != [] {
      var e := es[0];
      AcceptedOffered(if e.seqno > seen[e.topic] then seen[e.topic := e.seqno] else seen, es[1..]);
    }
  }

  lemma {:induction false} HandledMark(nd: Node, self: NodeId, maxGap: nat, es: seq<Entry>, from: Label, t: Topic)
    ensures var mark := HandleEntries(nd, self, maxGap, es, from).node.seen[t];
            && nd.seen[t] <= mark
            && (forall e <- AcceptedOf(nd.seen, es) :: e.topic == t ==> e.seqno <= mark)
            && (mark == nd.seen[t] || exists e :: e in AcceptedOf(nd.seen, es) && e.topic == t && e.seqno == mark)
    decreases |es|
  {
    if es != [] {
      var nd1 := HandleEntry(nd, self, maxGap, es[0], from).node;
      HandleEntrySeen(nd, self, maxGap, es[0], from);
      HandledMark(nd1, self, maxGap, es[1..], from, t);
      if IsNew(nd, es[0]) { assert es[0] in AcceptedOf(nd.seen, es); }
    }
  }

  lemma ArrivalMark(c: System, p: Params, m: Msg, t: Topic)
    requires Possible(c, Arrival(m))
    ensures var mark, added := NextSystem(c, p, Arrival(m)).nodes[m.to].seen[t], Accepts(c, Arrival(m), m.to);
            && c.nodes[m.to].seen[t] <= mark
            && (forall e <- added :: e.topic == t ==> e.seqno <= mark)
            && (mark == c.nodes[m.to].seen[t] || exists e :: e in added && e.topic == t && e.seqno == mark)
  {
    var nd, from := c.nodes[m.to], LabelOf(p, m.sender);
    HandledMark(if m.Lazy? then LearnMarks(nd, from, m.marks) else nd, m.to, p.maxGap, EntriesOf(m), from, t);
    if m.Eager? { OneEntry(nd, m.to, p.maxGap, m.entry, from); }
  }

  lemma OtherMark(c: System, p: Params, ev: Cluster.Event, n: NodeId, t: Topic)
    requires n < |c.nodes| && !(ev.Reset? && ev.n == n) && !(Possible(c, ev) && ev.Arrival? && ev.m.to == n)
    ensures var mark, prior := NextSystem(c, p, ev).nodes[n].seen[t], c.nodes[n].seen[t];
            if EnqueuedAt(c, ev, n) != [] && ev.e.topic == t && ev.e.seqno > prior then mark == ev.e.seqno else mark == prior
  {
    if Possible(c, ev) && ev.FlushAll? { FlushPeersAt(c.nodes[ev.n], ev.n, c.nodes[ev.n].lazyPeers, ev.marks, 0); }
  }

  /** Without a reset of the node, its marks only rise. */
  lemma NextRises(c: System, p: Params, ev: Cluster.Event, n: NodeId)
    requires n < |c.nodes| && !(ev.Reset? && ev.n == n)
    ensures forall t: Topic :: c.nodes[n].seen[t] <= NextSystem(c, p, ev).nodes[n].seen[t]
  {
    forall t: Topic ensures c.nodes[n].seen[t] <= NextSystem(c, p, ev).nodes[n].seen[t] {
      if Possible(c, ev) && ev.Arrival? && ev.m.to == n {
        ArrivalMark(c, p, ev.m, t);
      } else {
        OtherMark(c, p, ev, n, t);
      }
    }
  }

  // ----- The mark as a maximum -----

  /** The mark is the larger of where it started and the largest number of the
      topic in the log. */
  ghost predicate MarkOf(mark: Seq, start: Seq, log: seq<Entry>, t: Topic) {
    && start <= mark && (forall e <- log :: e.topic == t ==> e.seqno <= mark)
    && (mark == start || exists e :: e in log && e.topic == t && e.seqno == mark)
  }

  lemma MarkGrows(prior: Seq, mark: Seq, start: Seq, log: seq<Entry>, log': seq<Entry>, added: seq<Entry>, t: Topic)
    requires MarkOf(prior, start, log, t) && prior <= mark
    requires forall e :: e in log' <==> e in log || e in added
    requires forall e <- added :: e.topic == t ==> e.seqno <= mark
    requires mark == prior || exists e :: e in added && e.topic == t && e.seqno == mark
    ensures MarkOf(mark, start, log', t)
  {
  }

  /** From any state, a node's mark is the larger of its initial mark and the
      largest number it accepted or enqueued. */
  lemma {:induction false} MarkIsMaximum(c: System, p: Params, evs: seq<Cluster.Event>, n: NodeId, t: Topic)
    requires n < |c.nodes| && forall ev <- evs :: !(ev.Reset? && ev.n == n)
    ensures |Exec(c, p, evs).nodes| == |c.nodes|
    ensures MarkOf(Exec(c, p, evs).nodes[n].seen[t], c.nodes[n].seen[t], Taken(c, p, evs, n), t)
  {
    ExecSize(c, p, evs);
    if evs != [] {
      var front, ev := evs[..|evs| - 1], evs[|evs| - 1];
      assert ev in evs;
      MarkIsMaximum(c, p, front, n, t);
      TakenGrows(c, p, evs, n);
      NextMarkOf(Exec(c, p, front), p, ev, n, t, c.nodes[n].seen[t], Taken(c, p, front, n), Taken(c, p, evs, n));
    }
  }

  lemma NextMarkOf(c: System, p: Params, ev: Cluster.Event, n: NodeId, t: Topic, start: Seq, log: seq<Entry>, log': seq<Entry>)
    requires n < |c.nodes| && !(ev.Reset? && ev.n == n) && MarkOf(c.nodes[n].seen[t], start, log, t)
    requires forall e :: e in log' <==> e in log || e in Takes(c, ev, n)
    ensures MarkOf(NextSystem(c, p, ev).nodes[n].seen[t], start, log', t)
  {
    if Possible(c, ev) && ev.Arrival? && ev.m.to == n {
      ArrivalMark(c, p, ev.m, t);
    } else {
      OtherMark(c, p, ev, n, t);
    }
    MarkGrows(c.nodes[n].seen[t], NextSystem(c, p, ev).nodes[n].seen[t], start, log, log', Takes(c, ev, n), t);
  }
}
