/** A cluster of gossip nodes and the network between them, as a state machine
    over whole handlers. The network may drop and reorder messages at will, but
    does not duplicate them.
 */
module Cluster {
  import opened Types
  import opened OrderedSlot
  import opened LazyBuffer
  import opened GossipNode

  datatype System = System(nodes: seq<Node>, net: multiset<Msg>)

  /** What stays fixed: how each node is named by the transport, and the size of
      the reorder window. */
  datatype Params = Params(labels: seq<Label>, maxGap: nat)

  datatype Event =
    | Enqueue(n: NodeId, e: Entry)
    | Arrival(m: Msg)
    | Drop(m: Msg)
    | FlushAll(n: NodeId, marks: seq<TopicSeq>)
    | TimerWakes(n: NodeId, t: Topic, expected: Seq)
    | RepairHit(n: NodeId, t: Topic, expected: Seq, peer: NodeId)
    | RepairMiss(n: NodeId, t: Topic, expected: Seq)
    | Reset(n: NodeId, t: Topic, s: Seq)
    | Reclassify(n: NodeId, eager: seq<NodeId>, lazy: seq<NodeId>)

  function LabelOf(p: Params, n: NodeId): Label {
    if n < |p.labels| then p.labels[n] else LOCAL
  }

  /** Whether the event can happen; one that cannot is ignored. A repair hit
      needs a peer that has the missing entry in its cache. */
  ghost predicate Possible(c: System, ev: Event) {
    match ev
    case Enqueue(n, _) => n < |c.nodes|
    case Arrival(m) => m in c.net && m.to < |c.nodes|
    case Drop(m) => m in c.net
    case FlushAll(n, marks) => n < |c.nodes| && Snapshot(c.nodes[n].seen, marks)
    case TimerWakes(n, t, x) => n < |c.nodes| && x in c.nodes[n].slots[t].sleeping
    case RepairHit(n, t, x, peer) =>
      n < |c.nodes| && x in c.nodes[n].slots[t].repairing && peer < |c.nodes| && TopicSeq(t, x) in c.nodes[peer].cache
    case RepairMiss(n, t, x) => n < |c.nodes| && x in c.nodes[n].slots[t].repairing
    case Reset(n, _, _) => n < |c.nodes|
    case Reclassify(n, _, _) => n < |c.nodes|
  }

  function Install(c: System, n: NodeId, out: Out): System
    requires n < |c.nodes|
  {
    System(c.nodes[n := out.node], c.net + multiset(out.sends))
  }

  /** A step of one of the node's appliers. */
  ghost function StepSlot(nd: Node, maxGap: nat, t: Topic, ev: OrderedSlot.Event): Node {
    var eff := Step(nd.slots[t], maxGap, ev);
    nd.(slots := nd.slots[t := eff.slot], delivered := nd.delivered + Tag(t, eff.out))
  }

  ghost function NextSystem(c: System, p: Params, ev: Event): System {
    if !Possible(c, ev) then c else
    match ev
    case Enqueue(n, e) => Install(c, n, HandleLocal(c.nodes[n], n, e))
    case Arrival(m) =>
      Install(c.(net := c.net - multiset{m}), m.to, HandleMsg(c.nodes[m.to], m.to, p.maxGap, m, LabelOf(p, m.sender)))
    case Drop(m) => c.(net := c.net - multiset{m})
    case FlushAll(n, marks) => Install(c, n, Flush(c.nodes[n], n, marks))
    case TimerWakes(n, t, x) =>
      c.(nodes := c.nodes[n := StepSlot(c.nodes[n], p.maxGap, t, OrderedSlot.TimerWakes(x))])
    case RepairHit(n, t, x, peer) =>
      var payload := c.nodes[peer].cache[TopicSeq(t, x)];
      c.(nodes := c.nodes[n := StepSlot(c.nodes[n], p.maxGap, t, OrderedSlot.RepairHit(x, payload))])
    case RepairMiss(n, t, x) =>
      c.(nodes := c.nodes[n := StepSlot(c.nodes[n], p.maxGap, t, OrderedSlot.RepairMiss(x))])
    case Reset(n, t, s) => c.(nodes := c.nodes[n := SetInitialSeq(c.nodes[n], t, s)])
    case Reclassify(n, eager, lazy) =>
      c.(nodes := c.nodes[n := c.nodes[n].(eagerPeers := eager, lazyPeers := lazy)])
  }

  ghost function Exec(c: System, p: Params, evs: seq<Event>): System {
    if evs == [] then c
    else NextSystem(Exec(c, p, evs[..|evs| - 1]), p, evs[|evs| - 1])
  }

  /** A node that has seen and holds nothing; its overlay may be anything. */
  ghost predicate FreshNode(nd: Node) {
    && (forall t: Topic :: nd.seen[t] == 0 && nd.slots[t] == FRESH_SLOT)
    && nd.cache == map[] && nd.delivered == [] && nd.lazy == map[]
  }

  ghost predicate FreshSystem(c: System) {
    c.net == multiset{} && forall nd <- c.nodes :: FreshNode(nd)
  }

  lemma {:induction false} ExecSize(c: System, p: Params, evs: seq<Event>)
    ensures |Exec(c, p, evs).nodes| == |c.nodes|
  {
    if evs != [] { ExecSize(c, p, evs[..|evs| - 1]); }
  }

  /** Nothing in flight, nothing left to flush. */
  ghost predicate Quiescent(c: System) {
    && c.net == multiset{}
    && forall n: NodeId, q: NodeId | n < |c.nodes| && q in c.nodes[n].lazyPeers :: BufFor(c.nodes[n].lazy, q).entries == []
  }
}
