/** What the nodes of a cluster take and send over a run. No node accepts a number
    twice.
 */
module ClusterForward {
  import opened Types
  import opened GossipNode
  import opened Cluster

  /** The entries accepted from a list by a node with the given marks. */
  function AcceptedOf(seen: Marks, es: seq<Entry>): seq<Entry>
    decreases |es|
  {
    if es == [] then []
    else if es[0].seqno > seen[es[0].topic]
    then [es[0]] + AcceptedOf(seen[es[0].topic := es[0].seqno], es[1..])
    else AcceptedOf(seen, es[1..])
  }

  /** The entries that node `n` accepts from the network with an event. */
  ghost function Accepts(c: System, ev: Cluster.Event, n: NodeId): seq<Entry> {
    if Possible(c, ev) && ev.Arrival? && ev.m.to == n then AcceptedOf(c.nodes[n].seen, EntriesOf(ev.m)) else []
  }

  ghost function EnqueuedAt(c: System, ev: Cluster.Event, n: NodeId): seq<Entry> {
    if Possible(c, ev) && ev.Enqueue? && ev.n == n then [ev.e] else []
  }

  /** The entries that node `n` takes with an event, by either way. */
  ghost function Takes(c: System, ev: Cluster.Event, n: NodeId): seq<Entry> {
    Accepts(c, ev, n) + EnqueuedAt(c, ev, n)
  }

  /** What node `n` accepted over a run, oldest first. */
  ghost function AcceptLog(c: System, p: Params, evs: seq<Cluster.Event>, n: NodeId): seq<Entry> {
    if evs == [] then []
    else
      var front := evs[..|evs| - 1];
      AcceptLog(c, p, front, n) + Accepts(Exec(c, p, front), evs[|evs| - 1], n)
  }

  ghost function EnqueueLog(c: System, p: Params, evs: seq<Cluster.Event>, n: NodeId): seq<Entry> {
    if evs == [] then []
    else
      var front := evs[..|evs| - 1];
      EnqueueLog(c, p, front, n) + EnqueuedAt(Exec(c, p, front), evs[|evs| - 1], n)
  }

  /** Everything a node accepted or enqueued over a run. */
  ghost function Taken(c: System, p: Params, evs: seq<Cluster.Event>, n: NodeId): seq<Entry> {
    AcceptLog(c, p, evs, n) + EnqueueLog(c, p, evs, n)
  }

  /** What a run takes is what it took before and what its last event adds. */
  lemma TakenGrows(c: System, p: Params, evs: seq<Cluster.Event>, n: NodeId)
    requires evs != []
    ensures var front := evs[..|evs| - 1];
            var before, added, after := Taken(c, p, front, n), Takes(Exec(c, p, front), evs[|evs| - 1], n), Taken(c, p, evs, n);
            |after| == |before| + |added| && forall e :: e in after <==> e in before || e in added
  {
  }

  /** The messages that an event puts on the network. */
  ghost function Sends(c: System, p: Params, ev: Cluster.Event): seq<Msg> {
    if !Possible(c, ev) then [] else
    match ev
    case Enqueue(n, e) => HandleLocal(c.nodes[n], n, e).sends
    case Arrival(m) => HandleMsg(c.nodes[m.to], m.to, p.maxGap, m, LabelOf(p, m.sender)).sends
    case FlushAll(n, marks) => Flush(c.nodes[n], n, marks).sends
    case _ => []
  }

  /** A sender that is known by its own name is sent nothing back when one of
      its messages arrives, and nothing is buffered for it. */
  lemma ArrivalNotSentBack(c: System, p: Params, m: Msg)
    requires Possible(c, Arrival(m)) && LabelOf(p, m.sender) == m.sender
    ensures forall x <- Sends(c, p, Arrival(m)) :: x.to != m.sender
    ensures BufFor(NextSystem(c, p, Arrival(m)).nodes[m.to].lazy, m.sender).entries == BufFor(c.nodes[m.to].lazy, m.sender).entries
  {
    MsgNotSentBack(c.nodes[m.to], m.to, p.maxGap, m, m.sender);
  }

  /** Every message put on the network over a run, oldest first. */
  ghost function SentLog(c: System, p: Params, evs: seq<Cluster.Event>): seq<Msg> {
    if evs == [] then []
    else
      var front := evs[..|evs| - 1];
      SentLog(c, p, front) + Sends(Exec(c, p, front), p, evs[|evs| - 1])
  }

  /** What `Sends` lists is what the event adds to the network. */
  lemma SendsAreAdded(c: System, p: Params, ev: Cluster.Event)
    ensures NextSystem(c, p, ev).net ==
            (if Possible(c, ev) && (ev.Arrival? || ev.Drop?) then c.net - multiset{ev.m} else c.net) + multiset(Sends(c, p, ev))
  {
  }

  // ----- Accepted at most once -----

  /** Numbers of one topic strictly increase and do not exceed its mark. */
  ghost predicate Climbs(log: seq<Entry>, seen: Marks) {
    && (forall e <- log :: e.seqno <= seen[e.topic])
    && (forall i, j | 0 <= i < j < |log| && log[i].topic == log[j].topic :: log[i].seqno < log[j].seqno)
  }

  /** A node's marks after handling a list of entries. */
  function SeenAfter(seen: Marks, es: seq<Entry>): Marks
    decreases |es|
  {
    if es == [] then seen
    else SeenAfter(if es[0].seqno > seen[es[0].topic] then seen[es[0].topic := es[0].seqno] else seen, es[1..])
  }

  lemma {:induction false} HandleEntriesSeen(nd: Node, self: NodeId, maxGap: nat, es: seq<Entry>, from: Label)
    ensures HandleEntries(nd, self, maxGap, es, from).node.seen == SeenAfter(nd.seen, es)
    decreases |es|
  {
    if es != [] {
      HandleEntrySeen(nd, self, maxGap, es[0], from);
      HandleEntriesSeen(HandleEntry(nd, self, maxGap, es[0], from).node, self, maxGap, es[1..], from);
    }
  }

  lemma ClimbsOne(log: seq<Entry>, seen: Marks, e: Entry)
    requires Climbs(log, seen) && e.seqno > seen[e.topic]
    ensures Climbs(log + [e], seen[e.topic := e.seqno])
  {
  }

  lemma EntriesAssoc(a: seq<Entry>, b: seq<Entry>, d: seq<Entry>)
    ensures a + (b + d) == (a + b) + d
  {
  }

  lemma {:induction false} AcceptedClimb(log: seq<Entry>, seen: Marks, es: seq<Entry>)
    requires Climbs(log, seen)
    ensures Climbs(log + AcceptedOf(seen, es), SeenAfter(seen, es))
    decreases |es|
  {
    if es == [] {
      assert log + [] == log;
    } else if es[0].seqno > seen[es[0].topic] {
      var e := es[0];
      ClimbsOne(log, seen, e);
      AcceptedClimb(log + [e], seen[e.topic := e.seqno], es[1..]);
      EntriesAssoc(log, [e], AcceptedOf(seen[e.topic := e.seqno], es[1..]));
    } else {
      AcceptedClimb(log, seen, es[1..]);
    }
  }

  lemma ArrivalClimbs(c: System, p: Params, m: Msg, log: seq<Entry>)
    requires Possible(c, Arrival(m)) && Climbs(log, c.nodes[m.to].seen)
    ensures Climbs(log + Accepts(c, Arrival(m), m.to), NextSystem(c, p, Arrival(m)).nodes[m.to].seen)
  {
    var n, from := m.to, LabelOf(p, m.sender);
    var nd := if m.Eager? then c.nodes[n] else LearnMarks(c.nodes[n], from, m.marks);
    HandleEntriesSeen(nd, n, p.maxGap, EntriesOf(m), from);
    AcceptedClimb(log, nd.seen, EntriesOf(m));
    if m.Eager? { OneEntry(nd, n, p.maxGap, m.entry, from); }
  }

  /** Marks do not fall with any other event. */
  lemma OtherRises(c: System, p: Params, ev: Cluster.Event, n: NodeId)
    requires n < |c.nodes| && !(ev.Reset? && ev.n == n) && !(ev.Arrival? && ev.m.to == n)
    ensures forall t: Topic :: c.nodes[n].seen[t] <= NextSystem(c, p, ev).nodes[n].seen[t]
  {
    if Possible(c, ev) && ev.FlushAll? { FlushPeersAt(c.nodes[ev.n], ev.n, c.nodes[ev.n].lazyPeers, ev.marks, 0); }
  }

  lemma NextClimbs(c: System, p: Params, ev: Cluster.Event, n: NodeId, log: seq<Entry>)
    requires n < |c.nodes| && Climbs(log, c.nodes[n].seen)
    requires !(ev.Reset? && ev.n == n)
    ensures Climbs(log + Accepts(c, ev, n), NextSystem(c, p, ev).nodes[n].seen)
  {
    if Possible(c, ev) && ev.Arrival? && ev.m.to == n {
      ArrivalClimbs(c, p, ev.m, log);
    } else {
      assert log + [] == log;
      if !(ev.Arrival? && ev.m.to == n) { OtherRises(c, p, ev, n); }
    }
  }

  lemma OneEntry(nd: Node, self: NodeId, maxGap: nat, e: Entry, from: Label)
    ensures HandleEntries(nd, self, maxGap, [e], from) == HandleEntry(nd, self, maxGap, e, from)
  {
    var first := HandleEntry(nd, self, maxGap, e, from);
    assert HandleEntries(first.node, self, maxGap, [e][1..], from) == Out(first.node, []);
    assert first.sends + [] == first.sends;
  }

  /** In every run in which a node's marks are not reset, the numbers it accepts
      from the network strictly increase per topic: it accepts none twice,
      however often and by whatever path it arrives. */
  lemma {:induction false} AcceptsClimb(c: System, p: Params, evs: seq<Cluster.Event>, n: NodeId)
    requires n < |c.nodes| && forall ev <- evs :: !(ev.Reset? && ev.n == n)
    ensures |Exec(c, p, evs).nodes| == |c.nodes|
    ensures Climbs(AcceptLog(c, p, evs, n), Exec(c, p, evs).nodes[n].seen)
  {
    ExecSize(c, p, evs);
    if evs != [] {
      var front, ev := evs[..|evs| - 1], evs[|evs| - 1];
      assert ev in evs;
      AcceptsClimb(c, p, front, n);
      NextClimbs(Exec(c, p, front), p, ev, n, AcceptLog(c, p, front, n));
    }
  }
}
