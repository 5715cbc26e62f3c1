/** The flood dies out: with fixed overlays and nothing new enqueued, the number
    of deliveries, drops and non-empty flushes is bounded in advance.
 */
module ClusterFlood {
  import opened Types
  import opened LazyBuffer
  import opened GossipNode
  import opened Cluster

  // ----- Sums -----

  function Sum(xs: seq<nat>): nat {
    if xs == [] then 0 else Sum(xs[..|xs| - 1]) + xs[|xs| - 1]
  }

  lemma {:induction false} SumUpdate(xs: seq<nat>, i: nat, x: nat)
    requires i < |xs|
    ensures Sum(xs[i := x]) == Sum(xs) - xs[i] + x
    decreases |xs|
  {
    var n := |xs| - 1;
    if i < n {
      SumUpdate(xs[..n], i, x);
      assert xs[i := x][..n] == xs[..n][i := x];
    } else {
      assert xs[i := x][..n] == xs[..n];
    }
  }

  // ----- Potential -----

  /** How many buffered entries a node holds for the first `size` nodes. */
  ghost function Load(lazy: map<NodeId, Buf>, size: nat): nat {
    Sum(seq(size, q requires 0 <= q < size => |BufFor(lazy, q).entries|))
  }

  /** How many of the numbers in `all` the node would still accept. */
  ghost function Headroom(seen: Marks, all: set<TopicSeq>): nat {
    |set k | k in all && k.seqno > seen[k.topic]|
  }

  /** What one accepted entry can set in motion: an eager message per eager peer,
      a buffered entry (worth two) per lazy peer. */
  function FanOut(nd: Node): nat {
    |nd.eagerPeers| + 2 * |nd.lazyPeers|
  }

  ghost function NodePotential(nd: Node, size: nat, all: set<TopicSeq>): nat {
    Headroom(nd.seen, all) * (1 + FanOut(nd)) + 2 * Load(nd.lazy, size)
  }

  ghost function Potentials(c: System, all: set<TopicSeq>): seq<nat> {
    seq(|c.nodes|, n requires 0 <= n < |c.nodes| => NodePotential(c.nodes[n], |c.nodes|, all))
  }

  /** Everything still to happen: acceptances left with all they can set in
      motion, buffered entries, and messages in flight. */
  ghost function Potential(c: System, all: set<TopicSeq>): nat {
    Sum(Potentials(c, all)) + |c.net|
  }

  // ----- What is in circulation -----

  ghost predicate KeysIn(es: seq<Entry>, all: set<TopicSeq>) {
    forall e <- es :: KeyOf(e) in all
  }

  /** All entries in flight or buffered have their numbers in `all`, and all
      peers are nodes of the cluster. */
  ghost predicate Circulating(c: System, all: set<TopicSeq>) {
    && (forall m <- c.net :: KeysIn(EntriesOf(m), all))
    && (forall nd <- c.nodes :: NodeCirculating(nd, |c.nodes|, all))
  }

  ghost predicate Within(peers: seq<NodeId>, size: nat) {
    forall i | 0 <= i < |peers| :: peers[i] < size
  }

  ghost predicate NodeCirculating(nd: Node, size: nat, all: set<TopicSeq>) {
    && (forall q: NodeId :: KeysIn(BufFor(nd.lazy, q).entries, all))
    && Within(nd.lazyPeers, size)
  }

  // ----- Node-level accounting -----

  lemma LoadAdd(lazy: map<NodeId, Buf>, q: NodeId, buf: Buf, size: nat)
    requires q < size
    ensures Load(lazy[q := buf], size) == Load(lazy, size) - |BufFor(lazy, q).entries| + |buf.entries|
  {
    var before := seq(size, i requires 0 <= i < size => |BufFor(lazy, i).entries|);
    var after := seq(size, i requires 0 <= i < size => |BufFor(lazy[q := buf], i).entries|);
    SumUpdate(before, q, |buf.entries|);
    assert after == before[q := |buf.entries|];
  }

  lemma LoadSame(lazy: map<NodeId, Buf>, lazy': map<NodeId, Buf>, size: nat)
    requires forall q: NodeId :: BufFor(lazy, q).entries == BufFor(lazy', q).entries
    ensures Load(lazy, size) == Load(lazy', size)
  {
    assert seq(size, i requires 0 <= i < size => |BufFor(lazy, i).entries|)
        == seq(size, i requires 0 <= i < size => |BufFor(lazy', i).entries|);
  }

  lemma {:induction false} EnqueueLoad(lazy: map<NodeId, Buf>, peers: seq<NodeId>, e: Entry, exclude: Label, size: nat)
    requires Within(peers, size)
    ensures Load(EnqueueLazy(lazy, peers, e, exclude), size) <= Load(lazy, size) + |peers|
  {
    if peers != [] {
      var front, q := peers[..|peers| - 1], peers[|peers| - 1];
      EnqueueLoad(lazy, front, e, exclude, size);
      var before := EnqueueLazy(lazy, front, e, exclude);
      if q != exclude { LoadAdd(before, q, AddTo(BufFor(before, q), e), size); }
    }
  }

  /** Accepting an entry of `all` uses up headroom. */
  lemma HeadroomShrinks(seen: Marks, e: Entry, all: set<TopicSeq>)
    requires KeyOf(e) in all && e.seqno > seen[e.topic]
    ensures Headroom(seen[e.topic := e.seqno], all) < Headroom(seen, all)
  {
    var before := set k | k in all && k.seqno > seen[k.topic];
    var after := set k | k in all && k.seqno > seen[e.topic := e.seqno][k.topic];
    assert KeyOf(e) in before;
    SubsetSize(after, before - {KeyOf(e)});
  }

  lemma MulLess(a: nat, b: nat, k: nat)
    requires a < b
    ensures a * k + k <= b * k
  {
    assert (a + 1) * k <= b * k;
  }

  /** Handling an entry never raises the potential of the node and its sends. */
  lemma HandleEntryPays(nd: Node, self: NodeId, maxGap: nat, e: Entry, from: Label, size: nat, all: set<TopicSeq>)
    requires NodeCirculating(nd, size, all) && KeyOf(e) in all
    ensures var out := HandleEntry(nd, self, maxGap, e, from);
            && NodePotential(out.node, size, all) + |out.sends| <= NodePotential(nd, size, all)
            && NodeCirculating(out.node, size, all)
            && (forall m <- out.sends :: KeysIn(EntriesOf(m), all))
  {
    if IsNew(nd, e) {
      HeadroomShrinks(nd.seen, e, all);
      EnqueueLoad(nd.lazy, nd.lazyPeers, e, from, size);
      EagerSendsAt(self, nd.eagerPeers, e, from);
      var out := HandleEntry(nd, self, maxGap, e, from);
      MulLess(Headroom(out.node.seen, all), Headroom(nd.seen, all), 1 + FanOut(nd));
      forall q: NodeId ensures KeysIn(BufFor(out.node.lazy, q).entries, all) {
        EnqueueLazyAt(nd.lazy, nd.lazyPeers, e, from, q);
      }
    }
  }

  lemma {:induction false} HandleEntriesPays(nd: Node, self: NodeId, maxGap: nat, es: seq<Entry>, from: Label, size: nat, all: set<TopicSeq>)
    requires NodeCirculating(nd, size, all) && KeysIn(es, all)
    ensures var out := HandleEntries(nd, self, maxGap, es, from);
            && NodePotential(out.node, size, all) + |out.sends| <= NodePotential(nd, size, all)
            && NodeCirculating(out.node, size, all)
            && (forall m <- out.sends :: KeysIn(EntriesOf(m), all))
    decreases |es|
  {
    if es != [] {
      HandleEntryPays(nd, self, maxGap, es[0], from, size, all);
      HandleEntriesPays(HandleEntry(nd, self, maxGap, es[0], from).node, self, maxGap, es[1..], from, size, all);
    }
  }

  lemma HandleMsgPays(nd: Node, self: NodeId, maxGap: nat, m: Msg, from: Label, size: nat, all: set<TopicSeq>)
    requires NodeCirculating(nd, size, all) && KeysIn(EntriesOf(m), all)
    ensures var out := HandleMsg(nd, self, maxGap, m, from);
            && NodePotential(out.node, size, all) + |out.sends| <= NodePotential(nd, size, all)
            && NodeCirculating(out.node, size, all)
            && (forall x <- out.sends :: KeysIn(EntriesOf(x), all))
  {
    match m
    case Eager(_, _, e) => HandleEntryPays(nd, self, maxGap, e, from, size, all);
    case Lazy(_, _, es, marks) =>
      var nd1 := LearnMarks(nd, from, marks);
      assert forall q: NodeId :: BufFor(nd1.lazy, q).entries == BufFor(nd.lazy, q).entries;
      LoadSame(nd.lazy, nd1.lazy, size);
      HandleEntriesPays(nd1, self, maxGap, es, from, size, all);
  }

  /** Flushing turns each non-empty buffer into one message, at a profit. */
  lemma {:induction false} FlushPeersPays(nd: Node, self: NodeId, peers: seq<NodeId>, marks: seq<TopicSeq>, size: nat)
    requires Within(peers, size)
    ensures var out := FlushPeers(nd, self, peers, marks);
            2 * Load(out.node.lazy, size) + 2 * |out.sends| <= 2 * Load(nd.lazy, size)
  {
    if peers != [] {
      var front, q := peers[..|peers| - 1], peers[|peers| - 1];
      FlushPeersPays(nd, self, front, marks, size);
      var before := FlushPeers(nd, self, front, marks).node;
      var buf := BufFor(before.lazy, q);
      if buf.entries != [] { LoadAdd(before.lazy, q, buf.(entries := []), size); }
    }
  }

  lemma FlushPays(nd: Node, self: NodeId, marks: seq<TopicSeq>, size: nat, all: set<TopicSeq>)
    requires NodeCirculating(nd, size, all)
    ensures var out := Flush(nd, self, marks);
            && NodePotential(out.node, size, all) + 2 * |out.sends| <= NodePotential(nd, size, all)
            && NodeCirculating(out.node, size, all)
            && (forall m <- out.sends :: KeysIn(EntriesOf(m), all))
  {
    FlushPeersPays(nd, self, nd.lazyPeers, marks, size);
    FlushPeersAt(nd, self, nd.lazyPeers, marks, 0);
    var out := Flush(nd, self, marks);
    forall q: NodeId ensures KeysIn(BufFor(out.node.lazy, q).entries, all) {
      FlushPeersAt(nd, self, nd.lazyPeers, marks, q);
    }
  }

  // ----- Steps of the flood -----

  /** A step of the flood: a message is received or lost, or a node with
      something to flush flushes. */
  ghost predicate FloodStep(c: System, ev: Cluster.Event) {
    && Possible(c, ev)
    && (ev.Arrival? || ev.Drop? || (ev.FlushAll? && Flush(c.nodes[ev.n], ev.n, ev.marks).sends != []))
  }

  lemma InstallPotential(c: System, net: multiset<Msg>, n: NodeId, out: Out, all: set<TopicSeq>)
    requires n < |c.nodes|
    ensures Potential(Install(c.(net := net), n, out), all)
         == Potential(c, all) - |c.net| + |net| + |out.sends|
            - NodePotential(c.nodes[n], |c.nodes|, all) + NodePotential(out.node, |c.nodes|, all)
  {
    var c' := Install(c.(net := net), n, out);
    SumUpdate(Potentials(c, all), n, NodePotential(out.node, |c.nodes|, all));
    assert Potentials(c', all) == Potentials(c, all)[n := NodePotential(out.node, |c.nodes|, all)];
  }

  lemma InstallCirculates(c: System, net: multiset<Msg>, n: NodeId, out: Out, all: set<TopicSeq>)
    requires Circulating(c, all) && n < |c.nodes| && net <= c.net
    requires NodeCirculating(out.node, |c.nodes|, all) && forall m <- out.sends :: KeysIn(EntriesOf(m), all)
    ensures Circulating(Install(c.(net := net), n, out), all)
  {
  }

  lemma FloodStepPays(c: System, p: Params, ev: Cluster.Event, all: set<TopicSeq>)
    requires Circulating(c, all) && FloodStep(c, ev)
    ensures Circulating(NextSystem(c, p, ev), all)
    ensures Potential(NextSystem(c, p, ev), all) < Potential(c, all)
  {
    match ev
    case Arrival(m) =>
      assert c.nodes[m.to] in c.nodes;
      var from := LabelOf(p, m.sender);
      HandleMsgPays(c.nodes[m.to], m.to, p.maxGap, m, from, |c.nodes|, all);
      var out := HandleMsg(c.nodes[m.to], m.to, p.maxGap, m, from);
      InstallCirculates(c, c.net - multiset{m}, m.to, out, all);
      InstallPotential(c, c.net - multiset{m}, m.to, out, all);
    case Drop(m) =>
      assert Potentials(NextSystem(c, p, ev), all) == Potentials(c, all);
    case FlushAll(n, marks) =>
      assert c.nodes[n] in c.nodes;
      FlushPays(c.nodes[n], n, marks, |c.nodes|, all);
      InstallCirculates(c, c.net, n, Flush(c.nodes[n], n, marks), all);
      InstallPotential(c, c.net, n, Flush(c.nodes[n], n, marks), all);
  }

  /** The run brings in nothing new: no entry is enqueued, no mark is reset, and
      the overlays stay. Timers, repairs and idle flushes are free to happen. */
  ghost predicate NothingNew(evs: seq<Cluster.Event>) {
    forall ev <- evs :: !ev.Enqueue? && !ev.Reset? && !ev.Reclassify?
  }

  /** How many events of the run are steps of the flood. */
  ghost function FloodSteps(c: System, p: Params, evs: seq<Cluster.Event>): nat {
    if evs == [] then 0
    else
      var front := evs[..|evs| - 1];
      FloodSteps(c, p, front) + if FloodStep(Exec(c, p, front), evs[|evs| - 1]) then 1 else 0
  }

  /** Marks, buffers and overlays are the same: all that the potential counts. */
  ghost predicate SameLoad(nd: Node, nd': Node) {
    && nd'.seen == nd.seen && nd'.lazy == nd.lazy
    && nd'.eagerPeers == nd.eagerPeers && nd'.lazyPeers == nd.lazyPeers
  }

  lemma SamePotential(c: System, n: NodeId, nd: Node, all: set<TopicSeq>)
    requires Circulating(c, all) && n < |c.nodes| && SameLoad(c.nodes[n], nd)
    ensures var c' := c.(nodes := c.nodes[n := nd]);
            Circulating(c', all) && Potential(c', all) == Potential(c, all)
  {
    var c' := c.(nodes := c.nodes[n := nd]);
    assert c.nodes[n] in c.nodes;
    assert NodeCirculating(nd, |c.nodes|, all) && NodePotential(nd, |c.nodes|, all) == NodePotential(c.nodes[n], |c.nodes|, all);
    assert forall x <- c'.nodes :: x in c.nodes || x == nd;
    assert Potentials(c', all) == Potentials(c, all);
  }

  /** Any other event of such a run costs nothing. */
  lemma QuietPays(c: System, p: Params, ev: Cluster.Event, all: set<TopicSeq>)
    requires Circulating(c, all) && !FloodStep(c, ev) && !ev.Enqueue? && !ev.Reset? && !ev.Reclassify?
    ensures Circulating(NextSystem(c, p, ev), all) && Potential(NextSystem(c, p, ev), all) <= Potential(c, all)
  {
    if Possible(c, ev) {
      if ev.FlushAll? {
        var out := Flush(c.nodes[ev.n], ev.n, ev.marks);
        assert c.nodes[ev.n] in c.nodes;
        FlushPays(c.nodes[ev.n], ev.n, ev.marks, |c.nodes|, all);
        InstallCirculates(c, c.net, ev.n, out, all);
        InstallPotential(c, c.net, ev.n, out, all);
      } else {
        SamePotential(c, ev.n, NextSystem(c, p, ev).nodes[ev.n], all);
      }
    }
  }

  /** However the network orders, delays and drops messages, and whatever timers
      and repairs happen in between, a run that brings in nothing new has at most
      as many steps of the flood as its initial potential. */
  lemma {:induction false} FloodTerminates(c: System, p: Params, evs: seq<Cluster.Event>, all: set<TopicSeq>)
    requires Circulating(c, all) && NothingNew(evs)
    ensures Circulating(Exec(c, p, evs), all)
    ensures FloodSteps(c, p, evs) + Potential(Exec(c, p, evs), all) <= Potential(c, all)
  {
    if evs != [] {
      var front, ev := evs[..|evs| - 1], evs[|evs| - 1];
      assert ev in evs;
      FloodTerminates(c, p, front, all);
      if FloodStep(Exec(c, p, front), ev) {
        FloodStepPays(Exec(c, p, front), p, ev, all);
      } else {
        QuietPays(Exec(c, p, front), p, ev, all);
      }
    }
  }

  // ----- Where a flood stops -----

  /** The marks that are not zero, among the first `n` topics. */
  function ListMarks(seen: Marks, n: nat): seq<TopicSeq>
    requires n <= MAX_SLOTS
  {
    if n == 0 then []
    else
      var front := ListMarks(seen, n - 1);
      if seen[n - 1] > 0 then front + [TopicSeq(n - 1, seen[n - 1])] else front
  }

  lemma {:induction false} ListMarksAre(seen: Marks, n: nat)
    requires n <= MAX_SLOTS
    ensures forall m: TopicSeq :: m in ListMarks(seen, n) <==> m.topic < n && m.seqno > 0 && seen[m.topic] == m.seqno
  {
    if n > 0 { ListMarksAre(seen, n - 1); }
  }

  lemma ReceivableSteps(c: System, m: Msg)
    requires m in c.net && m.to < |c.nodes|
    ensures FloodStep(c, Arrival(m))
  {
  }

  lemma FlushableSteps(c: System, n: NodeId, q: NodeId) returns (marks: seq<TopicSeq>)
    requires n < |c.nodes| && q in c.nodes[n].lazyPeers
    ensures BufFor(c.nodes[n].lazy, q).entries != [] ==> FloodStep(c, FlushAll(n, marks))
  {
    var nd := c.nodes[n];
    marks := ListMarks(nd.seen, MAX_SLOTS);
    ListMarksAre(nd.seen, MAX_SLOTS);
    FlushPeersAt(nd, n, nd.lazyPeers, marks, q);
  }

  /** Where nothing can be received and nothing flushed any more, the cluster is
      at rest. */
  lemma StopsAtRest(c: System)
    requires forall m <- c.net :: m.to < |c.nodes|
    requires forall ev: Cluster.Event :: FloodStep(c, ev) ==> ev.Drop?
    ensures Quiescent(c)
  {
    if m :| m in c.net {
      ReceivableSteps(c, m);
      assert false;
    }
    forall n: NodeId, q: NodeId | n < |c.nodes| && q in c.nodes[n].lazyPeers
      ensures BufFor(c.nodes[n].lazy, q).entries == []
    {
      var marks := FlushableSteps(c, n, q);
      if BufFor(c.nodes[n].lazy, q).entries != [] { assert false; }
    }
  }

  // ----- The finite set of numbers exists -----

  /** Every cluster state whose lazy peers are nodes of the cluster has a set of
      circulating numbers, so the bound applies to it. */
  lemma CirculatingExists(c: System) returns (all: set<TopicSeq>)
    requires forall nd <- c.nodes :: Within(nd.lazyPeers, |c.nodes|)
    ensures Circulating(c, all)
  {
    var inNet := set m, e | m in c.net && e in EntriesOf(m) :: KeyOf(e);
    var inBufs := set nd, q, e | nd in c.nodes && q in nd.lazy && e in nd.lazy[q].entries :: KeyOf(e);
    all := inNet + inBufs;
    forall m <- c.net ensures KeysIn(EntriesOf(m), all) {
      forall e <- EntriesOf(m) ensures KeyOf(e) in all { assert KeyOf(e) in inNet; }
    }
    forall nd <- c.nodes ensures NodeCirculating(nd, |c.nodes|, all) {
      forall q: NodeId ensures KeysIn(BufFor(nd.lazy, q).entries, all) {
        forall e <- BufFor(nd.lazy, q).entries ensures KeyOf(e) in all { assert KeyOf(e) in inBufs; }
      }
    }
  }
}
