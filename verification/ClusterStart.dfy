/** Where runs start: nodes that hold nothing and were primed with initial numbers,
    as after bootstrap. They meet every starting condition of the results about runs.
 */
module ClusterStart {
  import opened Types
  import opened LazyBuffer
  import opened GossipNode
  import opened Cluster
  import opened ClusterApplier
  import opened ClusterConvergence
  import opened ClusterCopies
  import opened ClusterDelivery
  import opened ClusterProvenance
  import opened ClusterSuppression
  import S = OrderedSlot
  import R = OrderedRuns
  import OrderedLedger
  import Limits = OrderedLimits

  /** A node that holds nothing; every topic is fresh or primed. */
  ghost predicate PrimedNode(nd: Node) {
    && (forall t: Topic :: PrimedTopic(nd, t))
    && nd.cache == map[] && nd.delivered == [] && nd.lazy == map[]
  }

  ghost predicate PrimedTopic(nd: Node, t: Topic) {
    || nd.slots[t] == S.SetNext(S.FRESH_SLOT, Inc(nd.seen[t]))
    || (nd.seen[t] == 0 && nd.slots[t] == S.FRESH_SLOT)
  }

  ghost predicate PrimedSystem(c: System) {
    c.net == multiset{} && forall nd <- c.nodes :: PrimedNode(nd)
  }

  /** All nodes were primed with the same numbers. */
  ghost predicate PrimedAlike(c: System) {
    PrimedSystem(c) && forall n: NodeId, q: NodeId | n < |c.nodes| && q < |c.nodes| :: c.nodes[n].seen == c.nodes[q].seen
  }

  // ----- How a cluster gets there -----

  lemma PrimingPrimes(nd: Node, t: Topic, s: Seq)
    requires PrimedNode(nd)
    ensures PrimedNode(SetInitialSeq(nd, t, s))
  {
    var nd' := SetInitialSeq(nd, t, s);
    forall u: Topic ensures PrimedTopic(nd', u) {
      assert PrimedTopic(nd, u);
    }
  }

  /** Any priming of a fresh cluster gives a primed one. */
  lemma {:induction false} PrimingRun(c: System, p: Params, evs: seq<Cluster.Event>)
    requires PrimedSystem(c) && forall ev <- evs :: ev.Reset?
    ensures PrimedSystem(Exec(c, p, evs))
  {
    if evs != [] {
      var front, ev := evs[..|evs| - 1], evs[|evs| - 1];
      assert ev in evs;
      PrimingRun(c, p, front);
      var c1 := Exec(c, p, front);
      if ev.n < |c1.nodes| {
        assert c1.nodes[ev.n] in c1.nodes;
        PrimingPrimes(c1.nodes[ev.n], ev.t, ev.s);
      }
    }
  }

  lemma FreshIsPrimed(c: System)
    requires FreshSystem(c)
    ensures PrimedAlike(c)
  {
    forall nd <- c.nodes ensures PrimedNode(nd) { assert FreshNode(nd); }
    forall n: NodeId, q: NodeId | n < |c.nodes| && q < |c.nodes| ensures c.nodes[n].seen == c.nodes[q].seen {
      assert FreshNode(c.nodes[n]) && FreshNode(c.nodes[q]);
      assert forall t | 0 <= t < MAX_SLOTS :: c.nodes[n].seen[t] == c.nodes[q].seen[t];
    }
  }

  /** The same number for every node. */
  function PrimeAll(size: nat, t: Topic, s: Seq): seq<Cluster.Event> {
    if size == 0 then [] else PrimeAll(size - 1, t, s) + [Reset(size - 1, t, s)]
  }

  /** The first `k` nodes have been given the number, the others not. */
  ghost predicate PrimedUpTo(c: System, c': System, k: nat, t: Topic, s: Seq) {
    && PrimedSystem(c') && |c'.nodes| == |c.nodes|
    && forall n: NodeId | n < |c.nodes| :: c'.nodes[n].seen == if n < k then c.nodes[n].seen[t := s] else c.nodes[n].seen
  }

  lemma PrimesOne(c: System, c1: System, p: Params, k: nat, t: Topic, s: Seq)
    requires PrimedUpTo(c, c1, k, t, s) && k < |c.nodes|
    ensures PrimedUpTo(c, NextSystem(c1, p, Reset(k, t, s)), k + 1, t, s)
  {
    assert c1.nodes[k] in c1.nodes;
    PrimingPrimes(c1.nodes[k], t, s);
  }

  lemma ExecLast(c: System, p: Params, evs: seq<Cluster.Event>, ev: Cluster.Event)
    ensures Exec(c, p, evs + [ev]) == NextSystem(Exec(c, p, evs), p, ev)
  {
    assert (evs + [ev])[..|evs|] == evs;
  }

  lemma PrimesNext(c: System, p: Params, evs: seq<Cluster.Event>, k: nat, t: Topic, s: Seq)
    requires k < |c.nodes| && PrimedUpTo(c, Exec(c, p, evs), k, t, s)
    ensures PrimedUpTo(c, Exec(c, p, evs + [Reset(k, t, s)]), k + 1, t, s)
  {
    PrimesOne(c, Exec(c, p, evs), p, k, t, s);
    ExecLast(c, p, evs, Reset(k, t, s));
  }

  lemma {:induction false} PrimesSome(c: System, p: Params, k: nat, t: Topic, s: Seq)
    requires PrimedSystem(c) && k <= |c.nodes|
    ensures PrimedUpTo(c, Exec(c, p, PrimeAll(k, t, s)), k, t, s)
  {
    if k > 0 {
      PrimesSome(c, p, k - 1, t, s);
      PrimesNext(c, p, PrimeAll(k - 1, t, s), k - 1, t, s);
    }
  }

  /** Priming all nodes of a cluster with the same number keeps them alike. */
  lemma PrimesAlike(c: System, p: Params, t: Topic, s: Seq)
    requires PrimedAlike(c)
    ensures PrimedAlike(Exec(c, p, PrimeAll(|c.nodes|, t, s)))
  {
    PrimesSome(c, p, |c.nodes|, t, s);
  }

  // ----- What holds there -----

  /** The starting conditions on one topic of one node. */
  lemma PrimedNodeStarts(nd: Node, maxGap: nat, t: Topic, k: TopicSeq, q: NodeId)
    requires PrimedNode(nd)
    ensures WithinMark(nd, t) && StartsOrdered(nd, maxGap, t, nd.slots[t].next) && Held(nd, t) == multiset{}
    ensures !Had(nd, k) && Waiting(nd.lazy, q, k) == 0
    ensures R.OneTimer(nd.slots[t]) && S.NoWrap(nd.slots[t].pending) && !Limits.Stranded(nd.slots[t])
  {
    assert PrimedTopic(nd, t) && PrimedTopic(nd, k.topic);
    assert ItemsOf([], t) == [] && OrderedLedger.Buffered(map[]) == multiset{};
  }

  /** The starting conditions on the cluster. */
  lemma PrimedSystemStarts(c: System)
    requires PrimedSystem(c)
    ensures HoldsNone(c) && Truthful(c, {})
  {
    forall nd <- c.nodes ensures NodeFrom(nd, {}) {
      assert PrimedNode(nd);
      forall t: Topic ensures SlotFrom(nd.slots[t], t, {}) { assert PrimedTopic(nd, t); }
    }
    forall nd <- c.nodes ensures BelievesBelow(nd, c.nodes) { assert PrimedNode(nd); }
  }

  /** And that of the broadcast, when the nodes were primed alike. */
  lemma PrimedAlikeSpreads(c: System)
    requires PrimedAlike(c)
    ensures Spreading(c, 0, [])
  {
    PrimedSystemStarts(c);
    assert forall n: NodeId | n < |c.nodes| :: c.nodes[n] in c.nodes && PrimedNode(c.nodes[n]);
    forall n: NodeId, q: NodeId, t: Topic | Link(c, n, q) ensures Covered(c, 0, [], n, q, t) {
      assert c.nodes[n].seen == c.nodes[q].seen;
    }
  }
}
