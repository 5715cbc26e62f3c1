/** Nothing is made up: every entry anywhere in the cluster was enqueued by some
    node, and so nodes that deliver the same number deliver the same payload.
 */
module ClusterProvenance {
  import opened Types
  import opened OrderedSlot
  import opened LazyBuffer
  import opened GossipNode
  import opened Cluster

  /** The entries that a run enqueues at the nodes of a cluster. */
  ghost function Enqueued(evs: seq<Cluster.Event>, size: nat): set<Entry> {
    set ev | ev in evs && ev.Enqueue? && ev.n < size :: ev.e
  }

  ghost predicate SlotFrom(slot: Slot, t: Topic, all: set<Entry>) {
    forall k <- slot.pending :: Entry(t, k, slot.pending[k]) in all
  }

  ghost predicate NodeFrom(nd: Node, all: set<Entry>) {
    && (forall k <- nd.cache :: Entry(k.topic, k.seqno, nd.cache[k]) in all)
    && (forall t: Topic :: SlotFrom(nd.slots[t], t, all))
    && (forall e <- nd.delivered :: e in all)
    && (forall p <- nd.lazy :: forall e <- nd.lazy[p].entries :: e in all)
  }

  ghost predicate MsgFrom(m: Msg, all: set<Entry>) {
    forall e <- EntriesOf(m) :: e in all
  }

  ghost predicate SystemFrom(c: System, all: set<Entry>) {
    && (forall nd <- c.nodes :: NodeFrom(nd, all))
    && (forall m <- c.net :: MsgFrom(m, all))
  }

  lemma SystemFromMore(c: System, all: set<Entry>, more: set<Entry>)
    requires SystemFrom(c, all) && all <= more
    ensures SystemFrom(c, more)
  {
    forall nd <- c.nodes ensures NodeFrom(nd, more) {
      assert forall t: Topic :: SlotFrom(nd.slots[t], t, all);
    }
  }

  lemma StepSlotFrom(nd: Node, maxGap: nat, t: Topic, ev: OrderedSlot.Event, all: set<Entry>)
    requires NodeFrom(nd, all)
    requires var a := OrderedSlot.Arrival(nd.slots[t], ev); a.Some? ==> Entry(t, a.value.seqno, a.value.payload) in all
    ensures NodeFrom(StepSlot(nd, maxGap, t, ev), all)
  {
    assert SlotFrom(nd.slots[t], t, all);
    StepProvenance(nd.slots[t], maxGap, ev);
    var nd' := StepSlot(nd, maxGap, t, ev);
    var out := Step(nd.slots[t], maxGap, ev).out;
    assert forall i | 0 <= i < |out| :: Tag(t, out)[i] == Entry(t, out[i].seqno, out[i].payload) && out[i] in out;
    assert SlotFrom(nd'.slots[t], t, all);
  }

  lemma ApplyFrom(nd: Node, maxGap: nat, e: Entry, all: set<Entry>)
    requires NodeFrom(nd, all) && e in all
    ensures NodeFrom(Apply(nd, maxGap, e), all)
  {
    StepSlotFrom(nd, maxGap, e.topic, Arrive(e.seqno, e.payload), all);
    assert Apply(nd, maxGap, e) == StepSlot(nd, maxGap, e.topic, Arrive(e.seqno, e.payload));
  }

  lemma RelayFrom(nd: Node, self: NodeId, e: Entry, exclude: Label, all: set<Entry>)
    requires NodeFrom(nd, all) && e in all
    ensures NodeFrom(Relay(nd, self, e, exclude).node, all)
    ensures forall m <- Relay(nd, self, e, exclude).sends :: MsgFrom(m, all)
  {
    var lazy := EnqueueLazy(nd.lazy, nd.lazyPeers, e, exclude);
    forall p <- lazy
      ensures forall x <- lazy[p].entries :: x in all
    {
      EnqueueLazyAt(nd.lazy, nd.lazyPeers, e, exclude, p);
    }
    EagerSendsAt(self, nd.eagerPeers, e, exclude);
  }

  lemma HandleEntryFrom(nd: Node, self: NodeId, maxGap: nat, e: Entry, from: Label, all: set<Entry>)
    requires NodeFrom(nd, all) && e in all
    ensures NodeFrom(HandleEntry(nd, self, maxGap, e, from).node, all)
    ensures forall m <- HandleEntry(nd, self, maxGap, e, from).sends :: MsgFrom(m, all)
  {
    if IsNew(nd, e) {
      var nd1 := CacheIt(MarkSeen(nd, e), e);
      ApplyFrom(nd1, maxGap, e, all);
      RelayFrom(Apply(nd1, maxGap, e), self, e, from, all);
    }
  }

  lemma {:induction false} HandleEntriesFrom(nd: Node, self: NodeId, maxGap: nat, es: seq<Entry>, from: Label, all: set<Entry>)
    requires NodeFrom(nd, all) && forall e <- es :: e in all
    ensures NodeFrom(HandleEntries(nd, self, maxGap, es, from).node, all)
    ensures forall m <- HandleEntries(nd, self, maxGap, es, from).sends :: MsgFrom(m, all)
    decreases |es|
  {
    if es != [] {
      HandleEntryFrom(nd, self, maxGap, es[0], from, all);
      HandleEntriesFrom(HandleEntry(nd, self, maxGap, es[0], from).node, self, maxGap, es[1..], from, all);
    }
  }

  lemma HandleMsgFrom(nd: Node, self: NodeId, maxGap: nat, m: Msg, from: Label, all: set<Entry>)
    requires NodeFrom(nd, all) && MsgFrom(m, all)
    ensures NodeFrom(HandleMsg(nd, self, maxGap, m, from).node, all)
    ensures forall x <- HandleMsg(nd, self, maxGap, m, from).sends :: MsgFrom(x, all)
  {
    match m
    case Eager(_, _, e) => HandleEntryFrom(nd, self, maxGap, e, from, all);
    case Lazy(_, _, es, marks) =>
      assert NodeFrom(LearnMarks(nd, from, marks), all);
      HandleEntriesFrom(LearnMarks(nd, from, marks), self, maxGap, es, from, all);
  }

  lemma FlushFrom(nd: Node, self: NodeId, marks: seq<TopicSeq>, all: set<Entry>)
    requires NodeFrom(nd, all)
    ensures NodeFrom(Flush(nd, self, marks).node, all)
    ensures forall m <- Flush(nd, self, marks).sends :: MsgFrom(m, all)
  {
    var out := Flush(nd, self, marks);
    forall p <- out.node.lazy
      ensures forall e <- out.node.lazy[p].entries :: e in all
    {
      FlushPeersAt(nd, self, nd.lazyPeers, marks, p);
    }
    FlushPeersAt(nd, self, nd.lazyPeers, marks, 0);
  }

  lemma InstallFrom(c: System, n: NodeId, out: Out, all: set<Entry>)
    requires SystemFrom(c, all) && n < |c.nodes|
    requires NodeFrom(out.node, all) && forall m <- out.sends :: MsgFrom(m, all)
    ensures SystemFrom(Install(c, n, out), all)
  {
  }

  lemma ReplaceFrom(c: System, n: NodeId, nd: Node, all: set<Entry>)
    requires SystemFrom(c, all) && n < |c.nodes| && NodeFrom(nd, all)
    ensures SystemFrom(c.(nodes := c.nodes[n := nd]), all)
  {
  }

  lemma NextFrom(c: System, p: Params, ev: Cluster.Event, all: set<Entry>)
    requires SystemFrom(c, all) && (ev.Enqueue? && ev.n < |c.nodes| ==> ev.e in all)
    ensures SystemFrom(NextSystem(c, p, ev), all)
  {
    if Possible(c, ev) {
      match ev
      case Enqueue(n, e) =>
        assert c.nodes[n] in c.nodes;
        RelayFrom(CacheIt(MarkSeen(c.nodes[n], e), e), n, e, LOCAL, all);
        InstallFrom(c, n, HandleLocal(c.nodes[n], n, e), all);
      case Arrival(m) =>
        assert c.nodes[m.to] in c.nodes;
        var from := LabelOf(p, m.sender);
        HandleMsgFrom(c.nodes[m.to], m.to, p.maxGap, m, from, all);
        InstallFrom(c.(net := c.net - multiset{m}), m.to, HandleMsg(c.nodes[m.to], m.to, p.maxGap, m, from), all);
      case Drop(m) =>
      case FlushAll(n, marks) =>
        assert c.nodes[n] in c.nodes;
        FlushFrom(c.nodes[n], n, marks, all);
        InstallFrom(c, n, Flush(c.nodes[n], n, marks), all);
      case _ => NodeStepFrom(c, p, ev, all);
    }
  }

  /** Events that touch only one node and send nothing. */
  lemma NodeStepFrom(c: System, p: Params, ev: Cluster.Event, all: set<Entry>)
    requires SystemFrom(c, all) && Possible(c, ev)
    requires !ev.Enqueue? && !ev.Arrival? && !ev.Drop? && !ev.FlushAll?
    ensures SystemFrom(NextSystem(c, p, ev), all)
  {
    var nd := c.nodes[ev.n];
    assert nd in c.nodes;
    match ev
    case TimerWakes(n, t, x) => StepSlotFrom(nd, p.maxGap, t, OrderedSlot.TimerWakes(x), all);
    case RepairHit(n, t, x, peer) =>
      assert c.nodes[peer] in c.nodes;
      StepSlotFrom(nd, p.maxGap, t, OrderedSlot.RepairHit(x, c.nodes[peer].cache[TopicSeq(t, x)]), all);
    case RepairMiss(n, t, x) => StepSlotFrom(nd, p.maxGap, t, OrderedSlot.RepairMiss(x), all);
    case Reset(n, t, s) => assert forall u: Topic :: SlotFrom(nd.slots[u], u, all) ==> SlotFrom(SetInitialSeq(nd, t, s).slots[u], u, all);
    case Reclassify(n, eager, lazy) =>
    ReplaceFrom(c, ev.n, NextSystem(c, p, ev).nodes[ev.n], all);
  }

  /** The cluster holds no entry anywhere; marks, windows and overlays may be
      anything. */
  ghost predicate HoldsNone(c: System) {
    SystemFrom(c, {})
  }

  /** In every run from a cluster without entries, with drops, reordering, repairs,
      resets and overlay changes, every entry in a message, buffer, cache,
      reorder window or delivery log was enqueued in that run. */
  lemma {:induction false} Provenance(c: System, p: Params, evs: seq<Cluster.Event>)
    requires HoldsNone(c)
    ensures SystemFrom(Exec(c, p, evs), Enqueued(evs, |c.nodes|))
  {
    if evs != [] {
      var front, ev := evs[..|evs| - 1], evs[|evs| - 1];
      Provenance(c, p, front);
      ExecSize(c, p, front);
      assert Enqueued(front, |c.nodes|) <= Enqueued(evs, |c.nodes|);
      SystemFromMore(Exec(c, p, front), Enqueued(front, |c.nodes|), Enqueued(evs, |c.nodes|));
      NextFrom(Exec(c, p, front), p, ev, Enqueued(evs, |c.nodes|));
    }
  }

  /** Producers give every (topic, number) one payload. */
  ghost predicate OnePayloadEach(all: set<Entry>) {
    forall a, b | a in all && b in all && KeyOf(a) == KeyOf(b) :: a == b
  }

  /** Then all nodes that deliver a number deliver the same payload, whether it
      came by eager push, lazy batch or repair. */
  lemma Agreement(c: System, p: Params, evs: seq<Cluster.Event>, n1: NodeId, n2: NodeId, e1: Entry, e2: Entry)
    requires HoldsNone(c) && OnePayloadEach(Enqueued(evs, |c.nodes|))
    requires n1 < |Exec(c, p, evs).nodes| && n2 < |Exec(c, p, evs).nodes|
    requires e1 in Exec(c, p, evs).nodes[n1].delivered && e2 in Exec(c, p, evs).nodes[n2].delivered
    requires KeyOf(e1) == KeyOf(e2)
    ensures e1.payload == e2.payload && e1 in Enqueued(evs, |c.nodes|)
  {
    Provenance(c, p, evs);
    var c' := Exec(c, p, evs);
    assert c'.nodes[n1] in c'.nodes && c'.nodes[n2] in c'.nodes;
  }
}
