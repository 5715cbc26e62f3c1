/** Holding back entries that a lazy peer is believed to have never loses one:
    what a node believes of a peer's marks is never above the truth.
 */
module ClusterSuppression {
  import opened Types
  import opened LazyBuffer
  import opened GossipNode
  import opened Cluster

  /** The transport never names a sender by another node's id; it may name it by
      its own id or by an address. */
  ghost predicate Honest(p: Params, size: nat) {
    forall q: NodeId :: 0 <= LabelOf(p, q) < size ==> LabelOf(p, q) == q
  }

  /** What node `nd` believes of its peers is true of the given nodes. */
  ghost predicate BelievesBelow(nd: Node, nodes: seq<Node>) {
    forall q: NodeId, t: Topic | q < |nodes| :: Known(BufFor(nd.lazy, q).peerSeqs, t) <= nodes[q].seen[t]
  }

  ghost predicate MarksBelow(m: Msg, nodes: seq<Node>) {
    m.Lazy? && m.sender < |nodes| ==> forall mk <- m.marks :: mk.seqno <= nodes[m.sender].seen[mk.topic]
  }

  /** Beliefs, also those still in flight, are never above the truth; messages
      that nobody will learn from may be left out. */
  ghost predicate Truthful(c: System, unheard: set<Msg>) {
    && (forall nd <- c.nodes :: BelievesBelow(nd, c.nodes))
    && (forall m <- c.net :: m in unheard || MarksBelow(m, c.nodes))
  }

  /** No node learns from the message: it goes nowhere, or its sender is named by
      something that is no node's id. */
  ghost predicate Unheard(p: Params, m: Msg, size: nat) {
    m.to >= size || !(0 <= LabelOf(p, m.sender) < size)
  }

  /** Marks only rise. */
  ghost predicate Rises(nodes: seq<Node>, nodes': seq<Node>) {
    |nodes| == |nodes'| && forall n: NodeId, t: Topic | n < |nodes| :: nodes[n].seen[t] <= nodes'[n].seen[t]
  }

  ghost predicate NoRollback(c: System, ev: Cluster.Event) {
    ev.Reset? && ev.n < |c.nodes| ==> c.nodes[ev.n].seen[ev.t] <= ev.s
  }

  ghost predicate NoRollbacks(c: System, p: Params, evs: seq<Cluster.Event>) {
    evs == [] ||
    var front := evs[..|evs| - 1];
    NoRollbacks(c, p, front) && NoRollback(Exec(c, p, front), evs[|evs| - 1])
  }

  // ----- Handlers keep beliefs -----

  ghost predicate SameBeliefs(nd: Node, nd': Node) {
    forall q: NodeId :: BufFor(nd'.lazy, q).peerSeqs == BufFor(nd.lazy, q).peerSeqs
  }

  lemma RelayBeliefs(nd: Node, self: NodeId, e: Entry, exclude: Label)
    ensures SameBeliefs(nd, Relay(nd, self, e, exclude).node)
  {
    forall q: NodeId
      ensures BufFor(Relay(nd, self, e, exclude).node.lazy, q).peerSeqs == BufFor(nd.lazy, q).peerSeqs
    {
      EnqueueLazyAt(nd.lazy, nd.lazyPeers, e, exclude, q);
    }
  }

  lemma HandleEntryBeliefs(nd: Node, self: NodeId, maxGap: nat, e: Entry, from: Label)
    ensures SameBeliefs(nd, HandleEntry(nd, self, maxGap, e, from).node)
  {
    if IsNew(nd, e) { RelayBeliefs(Apply(CacheIt(MarkSeen(nd, e), e), maxGap, e), self, e, from); }
  }

  lemma {:induction false} HandleEntriesBeliefs(nd: Node, self: NodeId, maxGap: nat, es: seq<Entry>, from: Label)
    ensures var out := HandleEntries(nd, self, maxGap, es, from);
            && SameBeliefs(nd, out.node)
            && (forall t: Topic :: nd.seen[t] <= out.node.seen[t])
            && (forall m <- out.sends :: m.Eager?)
    decreases |es|
  {
    if es != [] {
      HandleEntryBeliefs(nd, self, maxGap, es[0], from);
      HandleEntrySeen(nd, self, maxGap, es[0], from);
      EagerSendsAt(self, nd.eagerPeers, es[0], from);
      HandleEntriesBeliefs(HandleEntry(nd, self, maxGap, es[0], from).node, self, maxGap, es[1..], from);
    }
  }

  lemma FlushBeliefs(nd: Node, self: NodeId, marks: seq<TopicSeq>)
    ensures SameBeliefs(nd, Flush(nd, self, marks).node)
  {
    forall q: NodeId
      ensures BufFor(Flush(nd, self, marks).node.lazy, q).peerSeqs == BufFor(nd.lazy, q).peerSeqs
    {
      FlushPeersAt(nd, self, nd.lazyPeers, marks, q);
    }
  }

  lemma LearnBelow(nd: Node, from: Label, m: Msg, nodes: seq<Node>)
    requires BelievesBelow(nd, nodes) && m.Lazy?
    requires 0 <= from < |nodes| ==> from == m.sender && MarksBelow(m, nodes)
    ensures BelievesBelow(LearnMarks(nd, from, m.marks), nodes)
  {
    forall q: NodeId, t: Topic | q < |nodes|
      ensures Known(BufFor(LearnMarks(nd, from, m.marks).lazy, q).peerSeqs, t) <= nodes[q].seen[t]
    {
      if q == from && q in nd.lazy {
        LearnIsMaximum(nd.lazy[q].peerSeqs, m.marks, t);
        assert Known(BufFor(nd.lazy, q).peerSeqs, t) <= nodes[q].seen[t];
      }
    }
  }

  lemma SameBeliefsBelow(nd: Node, nd': Node, nodes: seq<Node>)
    requires BelievesBelow(nd, nodes) && SameBeliefs(nd, nd')
    ensures BelievesBelow(nd', nodes)
  {
  }

  lemma HandleMsgBelow(nd: Node, self: NodeId, maxGap: nat, m: Msg, from: Label, nodes: seq<Node>)
    requires BelievesBelow(nd, nodes)
    requires 0 <= from < |nodes| ==> from == m.sender && MarksBelow(m, nodes)
    ensures var out := HandleMsg(nd, self, maxGap, m, from);
            && BelievesBelow(out.node, nodes)
            && (forall t: Topic :: nd.seen[t] <= out.node.seen[t])
            && (forall x <- out.sends :: x.Eager?)
  {
    match m
    case Eager(_, _, e) =>
      HandleEntryBeliefs(nd, self, maxGap, e, from);
      HandleEntrySeen(nd, self, maxGap, e, from);
      EagerSendsAt(self, nd.eagerPeers, e, from);
      SameBeliefsBelow(nd, HandleMsg(nd, self, maxGap, m, from).node, nodes);
    case Lazy(_, _, es, marks) =>
      LearnBelow(nd, from, m, nodes);
      var nd1 := LearnMarks(nd, from, marks);
      HandleEntriesBeliefs(nd1, self, maxGap, es, from);
      SameBeliefsBelow(nd1, HandleMsg(nd, self, maxGap, m, from).node, nodes);
  }

  // ----- Steps -----

  /** Beliefs true of the marks before a step are true after it. */
  lemma RisesKeeps(c: System, c': System, unheard: set<Msg>)
    requires Rises(c.nodes, c'.nodes)
    requires forall nd <- c'.nodes :: BelievesBelow(nd, c.nodes)
    requires forall m <- c'.net :: m in unheard || MarksBelow(m, c.nodes)
    ensures Truthful(c', unheard)
  {
    forall nd <- c'.nodes ensures BelievesBelow(nd, c'.nodes) {
      forall q: NodeId, t: Topic | q < |c'.nodes|
        ensures Known(BufFor(nd.lazy, q).peerSeqs, t) <= c'.nodes[q].seen[t]
      {
        assert Known(BufFor(nd.lazy, q).peerSeqs, t) <= c.nodes[q].seen[t] <= c'.nodes[q].seen[t];
      }
    }
  }

  lemma InstallKeeps(c: System, net: multiset<Msg>, n: NodeId, out: Out, unheard: set<Msg>)
    requires Truthful(c, unheard) && n < |c.nodes| && net <= c.net
    requires BelievesBelow(out.node, c.nodes) && forall t: Topic :: c.nodes[n].seen[t] <= out.node.seen[t]
    requires forall m <- out.sends :: MarksBelow(m, c.nodes)
    ensures Truthful(Install(c.(net := net), n, out), unheard) && Rises(c.nodes, Install(c.(net := net), n, out).nodes)
  {
    RisesKeeps(c, Install(c.(net := net), n, out), unheard);
  }

  lemma NextTruthful(c: System, p: Params, ev: Cluster.Event, unheard: set<Msg>)
    requires Truthful(c, unheard) && Honest(p, |c.nodes|) && NoRollback(c, ev)
    requires forall m <- unheard :: Unheard(p, m, |c.nodes|)
    ensures Truthful(NextSystem(c, p, ev), unheard) && Rises(c.nodes, NextSystem(c, p, ev).nodes)
  {
    if Possible(c, ev) {
      match ev
      case Enqueue(n, e) =>
        var nd := c.nodes[n];
        assert nd in c.nodes;
        var nd1 := CacheIt(MarkSeen(nd, e), e);
        RelayBeliefs(nd1, n, e, LOCAL);
        EagerSendsAt(n, nd.eagerPeers, e, LOCAL);
        SameBeliefsBelow(nd, HandleLocal(nd, n, e).node, c.nodes);
        InstallKeeps(c, c.net, n, HandleLocal(nd, n, e), unheard);
      case Arrival(m) =>
        assert c.nodes[m.to] in c.nodes;
        var from := LabelOf(p, m.sender);
        HandleMsgBelow(c.nodes[m.to], m.to, p.maxGap, m, from, c.nodes);
        InstallKeeps(c, c.net - multiset{m}, m.to, HandleMsg(c.nodes[m.to], m.to, p.maxGap, m, from), unheard);
      case Drop(m) =>
      case FlushAll(n, marks) =>
        var nd := c.nodes[n];
        assert nd in c.nodes;
        FlushBeliefs(nd, n, marks);
        FlushPeersAt(nd, n, nd.lazyPeers, marks, 0);
        SameBeliefsBelow(nd, Flush(nd, n, marks).node, c.nodes);
        InstallKeeps(c, c.net, n, Flush(nd, n, marks), unheard);
      case _ => LocalTruthful(c, p, ev, unheard);
    }
  }

  /** Events that touch one node's own affairs only. */
  lemma LocalTruthful(c: System, p: Params, ev: Cluster.Event, unheard: set<Msg>)
    requires Truthful(c, unheard) && NoRollback(c, ev) && Possible(c, ev)
    requires !ev.Enqueue? && !ev.Arrival? && !ev.Drop? && !ev.FlushAll?
    ensures Truthful(NextSystem(c, p, ev), unheard) && Rises(c.nodes, NextSystem(c, p, ev).nodes)
  {
    assert c.nodes[ev.n] in c.nodes;
    var c' := NextSystem(c, p, ev);
    assert c'.nodes[ev.n].lazy == c.nodes[ev.n].lazy;
    SameBeliefsBelow(c.nodes[ev.n], c'.nodes[ev.n], c.nodes);
    RisesKeeps(c, c', unheard);
  }

  lemma {:induction false} AlwaysTruthful(c: System, p: Params, evs: seq<Cluster.Event>, unheard: set<Msg>)
    requires Truthful(c, unheard) && Honest(p, |c.nodes|) && NoRollbacks(c, p, evs)
    requires forall m <- unheard :: Unheard(p, m, |c.nodes|)
    ensures Truthful(Exec(c, p, evs), unheard) && Rises(c.nodes, Exec(c, p, evs).nodes)
  {
    if evs != [] {
      AlwaysTruthful(c, p, evs[..|evs| - 1], unheard);
      ExecSize(c, p, evs[..|evs| - 1]);
      NextTruthful(Exec(c, p, evs[..|evs| - 1]), p, evs[|evs| - 1], unheard);
    }
  }

  /** No node holds an entry back from a peer that would still accept it. */
  ghost predicate Lossless(c: System) {
    forall n: NodeId, q: NodeId, e: Entry | n < |c.nodes| && q < |c.nodes| && Suppressed(BufFor(c.nodes[n].lazy, q), e) ::
      !IsNew(c.nodes[q], e)
  }

  /** In every run without rollback, at every point, whatever a node's buffer for
      a peer holds back as already seen, that peer would reject: then, and at
      any later point of the run. */
  lemma LosslessSuppression(c: System, p: Params, evs: seq<Cluster.Event>, more: seq<Cluster.Event>)
    requires Truthful(c, {}) && Honest(p, |c.nodes|)
    requires NoRollbacks(c, p, evs) && NoRollbacks(Exec(c, p, evs), p, more)
    ensures Lossless(Exec(c, p, evs))
    ensures var now, later := Exec(c, p, evs), Exec(Exec(c, p, evs), p, more);
            |now.nodes| == |later.nodes| &&
            forall n: NodeId, q: NodeId, e: Entry | n < |now.nodes| && q < |now.nodes| && Suppressed(BufFor(now.nodes[n].lazy, q), e) ::
              !IsNew(later.nodes[q], e)
  {
    AlwaysTruthful(c, p, evs, {});
    ExecSize(c, p, evs);
    TruthfulIsLossless(Exec(c, p, evs), {});
    AlwaysTruthful(Exec(c, p, evs), p, more, {});
    LosslessStays(Exec(c, p, evs), Exec(Exec(c, p, evs), p, more));
  }

  lemma LosslessStays(now: System, later: System)
    requires Lossless(now) && Rises(now.nodes, later.nodes)
    ensures forall n: NodeId, q: NodeId, e: Entry | n < |now.nodes| && q < |now.nodes| && Suppressed(BufFor(now.nodes[n].lazy, q), e) ::
              !IsNew(later.nodes[q], e)
  {
    forall n: NodeId, q: NodeId, e: Entry | n < |now.nodes| && q < |now.nodes| && Suppressed(BufFor(now.nodes[n].lazy, q), e)
      ensures !IsNew(later.nodes[q], e)
    {
      assert !IsNew(now.nodes[q], e) && now.nodes[q].seen[e.topic] <= later.nodes[q].seen[e.topic];
    }
  }

  lemma TruthfulIsLossless(c: System, unheard: set<Msg>)
    requires Truthful(c, unheard)
    ensures Lossless(c)
  {
    assert forall n: NodeId | n < |c.nodes| :: c.nodes[n] in c.nodes;
  }

  // ----- Suppression works -----

  /** What `nd` knows of `q` covers the topic up to `s`, so no entry up to there
      is buffered for `q`. */
  ghost predicate Covers(nd: Node, q: NodeId, t: Topic, s: Seq) {
    Known(BufFor(nd.lazy, q).peerSeqs, t) >= s
  }

  lemma CoversSuppresses(nd: Node, q: NodeId, e: Entry, s: Seq, exclude: Label)
    requires Covers(nd, q, e.topic, s) && e.seqno <= s
    ensures BufFor(EnqueueLazy(nd.lazy, nd.lazyPeers, e, exclude), q).entries == BufFor(nd.lazy, q).entries
  {
    EnqueueLazyAt(nd.lazy, nd.lazyPeers, e, exclude, q);
  }

  lemma LearnCovers(nd: Node, from: Label, marks: seq<TopicSeq>, q: NodeId, t: Topic)
    ensures Known(BufFor(nd.lazy, q).peerSeqs, t) <= Known(BufFor(LearnMarks(nd, from, marks).lazy, q).peerSeqs, t)
    ensures from == q && q in nd.lazy ==>
              forall m <- marks :: m.topic == t ==> m.seqno <= Known(BufFor(LearnMarks(nd, from, marks).lazy, q).peerSeqs, t)
  {
    if from == q && q in nd.lazy { LearnIsMaximum(nd.lazy[q].peerSeqs, marks, t); }
  }

  /** A batch from a lazy peer teaches its marks. */
  lemma BatchTeaches(c: System, p: Params, m: Msg, mk: TopicSeq)
    requires Possible(c, Arrival(m)) && m.Lazy? && mk in m.marks
    requires LabelOf(p, m.sender) == m.sender && m.sender in c.nodes[m.to].lazy
    ensures Covers(NextSystem(c, p, Arrival(m)).nodes[m.to], m.sender, mk.topic, mk.seqno)
  {
    var nd := c.nodes[m.to];
    LearnCovers(nd, m.sender, m.marks, m.sender, mk.topic);
    HandleEntriesBeliefs(LearnMarks(nd, m.sender, m.marks), m.to, p.maxGap, m.entries, m.sender);
  }

  lemma MsgCovers(nd: Node, self: NodeId, maxGap: nat, m: Msg, from: Label, q: NodeId, t: Topic, s: Seq)
    requires Covers(nd, q, t, s)
    ensures Covers(HandleMsg(nd, self, maxGap, m, from).node, q, t, s)
  {
    if m.Eager? {
      HandleEntryBeliefs(nd, self, maxGap, m.entry, from);
    } else {
      LearnCovers(nd, from, m.marks, q, t);
      HandleEntriesBeliefs(LearnMarks(nd, from, m.marks), self, maxGap, m.entries, from);
    }
  }

  lemma NextCovers(c: System, p: Params, ev: Cluster.Event, n: NodeId, q: NodeId, t: Topic, s: Seq)
    requires n < |c.nodes| && Covers(c.nodes[n], q, t, s)
    ensures Covers(NextSystem(c, p, ev).nodes[n], q, t, s)
  {
    if Possible(c, ev) {
      match ev
      case Enqueue(k, e) => RelayBeliefs(CacheIt(MarkSeen(c.nodes[k], e), e), k, e, LOCAL);
      case Arrival(m) => if m.to == n { MsgCovers(c.nodes[n], n, p.maxGap, m, LabelOf(p, m.sender), q, t, s); }
      case FlushAll(k, marks) => FlushBeliefs(c.nodes[k], k, marks);
      case _ =>
    }
  }

  /** And it is never forgotten: from then on, in every run, the node buffers no
      entry up to the mark for that peer. */
  lemma {:induction false} CoversForGood(c: System, p: Params, evs: seq<Cluster.Event>, n: NodeId, q: NodeId, t: Topic, s: Seq)
    requires n < |c.nodes| && Covers(c.nodes[n], q, t, s)
    ensures |Exec(c, p, evs).nodes| == |c.nodes| && Covers(Exec(c, p, evs).nodes[n], q, t, s)
  {
    ExecSize(c, p, evs);
    if evs != [] {
      CoversForGood(c, p, evs[..|evs| - 1], n, q, t, s);
      NextCovers(Exec(c, p, evs[..|evs| - 1]), p, evs[|evs| - 1], n, q, t, s);
    }
  }

  /** The whole promise of a flush: every batch it sends, once it arrives at a
      node that keeps a buffer for the sender under the sender's own label, has
      that node know every mark the sender had when it flushed, from then on in
      every run. */
  lemma FlushTeaches(c: System, p: Params, n: NodeId, marks: seq<TopicSeq>, m: Msg,
                     evs: seq<Cluster.Event>, more: seq<Cluster.Event>, t: Topic)
    requires Possible(c, FlushAll(n, marks)) && m in Flush(c.nodes[n], n, marks).sends
    requires Possible(Exec(NextSystem(c, p, FlushAll(n, marks)), p, evs), Arrival(m))
    requires LabelOf(p, n) == n && n in Exec(NextSystem(c, p, FlushAll(n, marks)), p, evs).nodes[m.to].lazy
    ensures var there := Exec(NextSystem(Exec(NextSystem(c, p, FlushAll(n, marks)), p, evs), p, Arrival(m)), p, more);
            m.to < |there.nodes| && Covers(there.nodes[m.to], n, t, c.nodes[n].seen[t])
  {
    var c1 := Exec(NextSystem(c, p, FlushAll(n, marks)), p, evs);
    FlushWhole(c.nodes[n], n, marks, 0);
    var s := c.nodes[n].seen[t];
    if s > 0 {
      assert TopicSeq(t, s) in marks;
      BatchTeaches(c1, p, m, TopicSeq(t, s));
    }
    CoversForGood(NextSystem(c1, p, Arrival(m)), p, more, m.to, n, t, s);
  }

  /** A batch whose sender is not known under a label with a buffer teaches
      nothing: what the receiver knows of every peer stays as it was. */
  lemma StrangerTeachesNothing(c: System, p: Params, m: Msg)
    requires Possible(c, Arrival(m)) && m.Lazy?
    requires LabelOf(p, m.sender) < 0 || LabelOf(p, m.sender) !in c.nodes[m.to].lazy
    ensures SameBeliefs(c.nodes[m.to], NextSystem(c, p, Arrival(m)).nodes[m.to])
  {
    HandleEntriesBeliefs(c.nodes[m.to], m.to, p.maxGap, m.entries, LabelOf(p, m.sender));
  }

  // ----- Rollback -----

  /** Whatever happens next, short of another rollback, suppression is lossless. */
  ghost predicate StaysLossless(c: System, p: Params) {
    forall evs | NoRollbacks(c, p, evs) :: Lossless(Exec(c, p, evs))
  }

  /** No node has recorded a mark of `n` above `s`, and none will from a batch in
      flight. */
  ghost predicate RollbackSafe(c: System, p: Params, n: NodeId, t: Topic, s: Seq) {
    && (forall q: NodeId | q < |c.nodes| :: Known(BufFor(c.nodes[q].lazy, n).peerSeqs, t) <= s)
    && (forall m <- c.net :: HeardFrom(p, m, n, |c.nodes|) ==> forall mk <- m.marks :: mk.topic == t ==> mk.seqno <= s)
  }

  ghost predicate HeardFrom(p: Params, m: Msg, n: NodeId, size: nat) {
    m.Lazy? && m.sender == n && !Unheard(p, m, size)
  }

  lemma SafeIsTruthful(c: System, p: Params, n: NodeId, t: Topic, s: Seq) returns (unheard: set<Msg>)
    requires Truthful(c, {}) && n < |c.nodes| && RollbackSafe(c, p, n, t, s)
    ensures forall m <- unheard :: Unheard(p, m, |c.nodes|)
    ensures Truthful(NextSystem(c, p, Reset(n, t, s)), unheard)
  {
    unheard := set m | m in c.net && Unheard(p, m, |c.nodes|);
    var c' := NextSystem(c, p, Reset(n, t, s));
    forall nd <- c'.nodes ensures BelievesBelow(nd, c'.nodes) {
      var k :| 0 <= k < |c'.nodes| && c'.nodes[k] == nd;
      assert c.nodes[k] in c.nodes && nd.lazy == c.nodes[k].lazy;
      RollbackBelieved(c, n, t, s, k, c');
    }
    forall m <- c'.net ensures m in unheard || MarksBelow(m, c'.nodes) {
      assert MarksBelow(m, c.nodes);
    }
  }

  lemma RollbackBelieved(c: System, n: NodeId, t: Topic, s: Seq, k: NodeId, c': System)
    requires n < |c.nodes| && k < |c.nodes| && BelievesBelow(c.nodes[k], c.nodes)
    requires c' == c.(nodes := c.nodes[n := SetInitialSeq(c.nodes[n], t, s)])
    requires Known(BufFor(c.nodes[k].lazy, n).peerSeqs, t) <= s
    ensures BelievesBelow(c'.nodes[k], c'.nodes)
  {
  }

  lemma {:induction false} RunCons(c: System, p: Params, ev: Cluster.Event, evs: seq<Cluster.Event>)
    ensures Exec(c, p, [ev] + evs) == Exec(NextSystem(c, p, ev), p, evs)
    ensures NoRollbacks(c, p, [ev] + evs) <==> NoRollback(c, ev) && NoRollbacks(NextSystem(c, p, ev), p, evs)
    decreases |evs|
  {
    var all := [ev] + evs;
    if evs == [] {
      assert all == [ev] && all[..0] == [];
      assert Exec(c, p, []) == c && NoRollbacks(c, p, []);
    } else {
      RunCons(c, p, ev, evs[..|evs| - 1]);
      assert all[..|all| - 1] == [ev] + evs[..|evs| - 1];
    }
  }

  lemma LosesLater(c: System, p: Params, ev: Cluster.Event)
    requires NoRollback(c, ev) && !StaysLossless(NextSystem(c, p, ev), p)
    ensures !StaysLossless(c, p)
  {
    var c1 := NextSystem(c, p, ev);
    var evs :| NoRollbacks(c1, p, evs) && !Lossless(Exec(c1, p, evs));
    RunCons(c, p, ev, evs);
    assert NoRollbacks(c, p, [ev] + evs) && !Lossless(Exec(c, p, [ev] + evs));
  }

  /** A node that believes too much of a peer holds back what the peer lacks. */
  lemma OverbeliefLoses(c: System, p: Params, r: NodeId, n: NodeId, t: Topic, s: Seq)
    requires r < |c.nodes| && n < |c.nodes| && Covers(c.nodes[r], n, t, s) && s > c.nodes[n].seen[t]
    ensures !StaysLossless(c, p)
  {
    var e := Entry(t, s, []);
    assert Suppressed(BufFor(c.nodes[r].lazy, n), e) && IsNew(c.nodes[n], e);
    assert NoRollbacks(c, p, []) && !Lossless(Exec(c, p, []));
  }

  /** The receiver of a batch can always come to keep a buffer for its sender:
      the sender becomes a lazy peer, and something is enqueued. */
  lemma BufferCanAppear(c: System, p: Params, r: NodeId, n: NodeId, t: Topic)
    requires r < |c.nodes| && n < |c.nodes| && n != r
    ensures var c1 := NextSystem(c, p, Reclassify(r, [], [n]));
            var c2 := NextSystem(c1, p, Enqueue(r, Entry(t, 0, [])));
            |c1.nodes| == |c2.nodes| == |c.nodes| && c2.nodes[n] == c.nodes[n] && n in c2.nodes[r].lazy && c.net <= c2.net
  {
    var lazy, e := c.nodes[r].lazy, Entry(t, 0, []);
    assert [n][..0] == [];
    assert EnqueueLazy(lazy, [], e, LOCAL) == lazy;
    assert n in EnqueueLazy(lazy, [n], e, LOCAL);
  }

  lemma InFlightLoses(c: System, p: Params, m: Msg, mk: TopicSeq)
    requires Honest(p, |c.nodes|) && m in c.net && m.Lazy? && mk in m.marks && m.sender != m.to
    requires m.sender < |c.nodes| && !Unheard(p, m, |c.nodes|) && mk.seqno > c.nodes[m.sender].seen[mk.topic]
    ensures !StaysLossless(c, p)
  {
    var n, r := m.sender, m.to;
    var enroll, enqueue := Reclassify(r, [], [n]), Enqueue(r, Entry(mk.topic, 0, []));
    BufferCanAppear(c, p, r, n, mk.topic);
    var c1 := NextSystem(c, p, enroll);
    var c2 := NextSystem(c1, p, enqueue);
    BatchTeaches(c2, p, m, mk);
    OverbeliefLoses(NextSystem(c2, p, Arrival(m)), p, r, n, mk.topic, mk.seqno);
    LosesLater(c2, p, Arrival(m));
    LosesLater(c1, p, enqueue);
    LosesLater(c, p, enroll);
  }

  /** A rollback of node `n` to `s` leaves suppression lossless for every
      continuation if and only if no node has recorded a higher mark of `n` for
      the topic and no batch in flight from `n` that its receiver can learn from
      carries one. */
  lemma RollbackLosslessIff(c: System, p: Params, n: NodeId, t: Topic, s: Seq)
    requires Truthful(c, {}) && Honest(p, |c.nodes|) && n < |c.nodes| && !(exists m <- c.net :: m.sender == m.to == n)
    ensures StaysLossless(NextSystem(c, p, Reset(n, t, s)), p) <==> RollbackSafe(c, p, n, t, s)
  {
    var c' := NextSystem(c, p, Reset(n, t, s));
    if RollbackSafe(c, p, n, t, s) {
      var unheard := SafeIsTruthful(c, p, n, t, s);
      forall evs | NoRollbacks(c', p, evs) ensures Lossless(Exec(c', p, evs)) {
        AlwaysTruthful(c', p, evs, unheard);
        TruthfulIsLossless(Exec(c', p, evs), unheard);
      }
    } else if q: NodeId :| q < |c.nodes| && Known(BufFor(c.nodes[q].lazy, n).peerSeqs, t) > s {
      OverbeliefLoses(c', p, q, n, t, Known(BufFor(c.nodes[q].lazy, n).peerSeqs, t));
    } else {
      var m :| m in c.net && HeardFrom(p, m, n, |c.nodes|) && exists mk <- m.marks :: mk.topic == t && mk.seqno > s;
      var mk :| mk in m.marks && mk.topic == t && mk.seqno > s;
      InFlightLoses(c', p, m, mk);
    }
  }

  // ----- Two runs that lose entries -----

  lemma {:induction false} RunTrace(cs: seq<System>, p: Params, evs: seq<Cluster.Event>)
    requires |cs| == |evs| + 1 && forall i | 0 <= i < |evs| :: cs[i + 1] == NextSystem(cs[i], p, evs[i])
    ensures Exec(cs[0], p, evs) == cs[|evs|]
  {
    if evs != [] { RunTrace(cs[..|evs|], p, evs[..|evs| - 1]); }
  }

  /** A cluster of two, each the lazy peer of the other. */
  ghost predicate Pair(c: System, p: Params) {
    && FreshSystem(c) && |c.nodes| == 2 && p.labels == [0, 1]
    && c.nodes[0].eagerPeers == [] && c.nodes[0].lazyPeers == [1]
    && c.nodes[1].eagerPeers == [] && c.nodes[1].lazyPeers == [0]
  }

  lemma PairIsTruthful(c: System, p: Params)
    requires Pair(c, p)
    ensures Truthful(c, {}) && Honest(p, 2)
  {
    forall nd <- c.nodes ensures BelievesBelow(nd, c.nodes) { assert FreshNode(nd); }
  }

  lemma OneLazyPeer(lazy: map<NodeId, Buf>, q: NodeId, e: Entry)
    requires lazy == map[] && e.seqno > 0
    ensures EnqueueLazy(lazy, [q], e, LOCAL) == map[q := Buf([e], map[])]
  {
    assert [q][..0] == [];
    assert EnqueueLazy(lazy, [], e, LOCAL) == lazy;
    assert !Suppressed(EMPTY_BUF, e);
    assert AddTo(EMPTY_BUF, e) == Buf([e], map[]);
  }

  /** An entry enqueued at a fresh node with one lazy peer. */
  lemma EnqueueAtFresh(nd: Node, self: NodeId, e: Entry, q: NodeId)
    requires nd.lazy == map[] && nd.eagerPeers == [] && nd.lazyPeers == [q] && nd.seen[e.topic] == 0 && e.seqno > 0
    ensures var out := HandleLocal(nd, self, e);
            && out.sends == [] && out.node.lazy == map[q := Buf([e], map[])]
            && out.node.seen == nd.seen[e.topic := e.seqno] && out.node.lazyPeers == [q]
  {
    OneLazyPeer(nd.lazy, q, e);
  }

  lemma FlushOnePeer(nd: Node, self: NodeId, q: NodeId, e: Entry, marks: seq<TopicSeq>)
    requires nd.lazy == map[q := Buf([e], map[])] && nd.lazyPeers == [q]
    ensures var out := Flush(nd, self, marks);
            out.sends == [Lazy(self, q, [e], marks)] && out.node == nd.(lazy := map[q := EMPTY_BUF])
  {
    assert [q][..0] == [];
    assert FlushPeers(nd, self, [], marks) == Out(nd, []);
  }

  lemma EnqueueStep(c: System, p: Params, n: NodeId, e: Entry, q: NodeId)
    requires n < |c.nodes| && c.nodes[n].lazy == map[] && c.nodes[n].eagerPeers == [] && c.nodes[n].lazyPeers == [q]
    requires c.nodes[n].seen[e.topic] == 0 && e.seqno > 0
    ensures var c' := NextSystem(c, p, Enqueue(n, e));
            && |c'.nodes| == |c.nodes| && c'.net == c.net
            && (forall k: NodeId | k < |c.nodes| && k != n :: c'.nodes[k] == c.nodes[k])
            && c'.nodes[n].lazy == map[q := Buf([e], map[])] && c'.nodes[n].lazyPeers == [q]
            && c'.nodes[n].seen == c.nodes[n].seen[e.topic := e.seqno]
  {
    EnqueueAtFresh(c.nodes[n], n, e, q);
  }

  lemma FlushStep(c: System, p: Params, n: NodeId, q: NodeId, e: Entry, marks: seq<TopicSeq>)
    requires n < |c.nodes| && c.nodes[n].lazy == map[q := Buf([e], map[])] && c.nodes[n].lazyPeers == [q]
    requires Snapshot(c.nodes[n].seen, marks) && c.net == multiset{}
    ensures var c' := NextSystem(c, p, FlushAll(n, marks));
            && |c'.nodes| == |c.nodes| && c'.net == multiset{Lazy(n, q, [e], marks)}
            && (forall k: NodeId | k < |c.nodes| && k != n :: c'.nodes[k] == c.nodes[k])
            && c'.nodes[n] == c.nodes[n].(lazy := map[q := EMPTY_BUF])
  {
    FlushOnePeer(c.nodes[n], n, q, e, marks);
  }

  /** Both nodes have enqueued their entries. */
  ghost predicate BothEnqueued(c: System, a: Bytes, b: Bytes) {
    && |c.nodes| == 2 && c.net == multiset{} && c.nodes[1].lazyPeers == [0]
    && Snapshot(c.nodes[1].seen, [TopicSeq(7, 5)]) && c.nodes[1].seen[7] == 5
    && c.nodes[0].lazy == map[1 := Buf([Entry(7, 1, b)], map[])] && c.nodes[1].lazy == map[0 := Buf([Entry(7, 5, a)], map[])]
  }

  lemma PairEnqueues(c: System, p: Params, a: Bytes, b: Bytes)
    requires Pair(c, p)
    ensures BothEnqueued(NextSystem(NextSystem(c, p, Enqueue(1, Entry(7, 5, a))), p, Enqueue(0, Entry(7, 1, b))), a, b)
  {
    assert c.nodes[0] in c.nodes && c.nodes[1] in c.nodes;
    EnqueueStep(c, p, 1, Entry(7, 5, a), 0);
    EnqueueStep(NextSystem(c, p, Enqueue(1, Entry(7, 5, a))), p, 0, Entry(7, 1, b), 1);
    OneMark(c.nodes[1].seen);
  }

  lemma PairFlushes(c: System, p: Params, a: Bytes, b: Bytes)
    requires BothEnqueued(c, a, b)
    ensures BatchInFlight(NextSystem(c, p, FlushAll(1, [TopicSeq(7, 5)])), a, b)
  {
    FlushStep(c, p, 1, 0, Entry(7, 5, a), [TopicSeq(7, 5)]);
  }

  lemma ThreeSteps(c: System, p: Params, a: Bytes, b: Bytes)
    ensures Exec(c, p, PairEvents(a, b)) ==
            NextSystem(NextSystem(NextSystem(c, p, Enqueue(1, Entry(7, 5, a))), p, Enqueue(0, Entry(7, 1, b))), p, FlushAll(1, [TopicSeq(7, 5)]))
  {
    var c1 := NextSystem(c, p, Enqueue(1, Entry(7, 5, a)));
    var c2 := NextSystem(c1, p, Enqueue(0, Entry(7, 1, b)));
    RunTrace([c, c1, c2, NextSystem(c2, p, FlushAll(1, [TopicSeq(7, 5)]))], p, PairEvents(a, b));
  }

  /** Node 1 enqueues number 5, node 0 number 1, and node 1 flushes: the batch is in
      flight, and each keeps a buffer for the other. */
  lemma PairInFlight(c: System, p: Params, a: Bytes, b: Bytes) returns (c3: System)
    requires Pair(c, p)
    ensures c3 == Exec(c, p, PairEvents(a, b)) && NoRollbacks(c, p, PairEvents(a, b)) && BatchInFlight(c3, a, b)
  {
    var c2 := NextSystem(NextSystem(c, p, Enqueue(1, Entry(7, 5, a))), p, Enqueue(0, Entry(7, 1, b)));
    PairEnqueues(c, p, a, b);
    PairFlushes(c2, p, a, b);
    ThreeSteps(c, p, a, b);
    NoResets(c, p, PairEvents(a, b));
    c3 := Exec(c, p, PairEvents(a, b));
  }

  lemma OneMark(seen: Marks)
    requires forall t: Topic :: seen[t] == 0
    ensures Snapshot(seen[7 := 5], [TopicSeq(7, 5)])
  {
  }

  ghost predicate BatchInFlight(c: System, a: Bytes, b: Bytes) {
    && |c.nodes| == 2 && c.net == multiset{PairBatch(a)} && c.nodes[1].seen[7] == 5
    && c.nodes[0].lazy == map[1 := Buf([Entry(7, 1, b)], map[])] && c.nodes[1].lazy == map[0 := EMPTY_BUF]
  }

  function PairEvents(a: Bytes, b: Bytes): seq<Cluster.Event> {
    [Enqueue(1, Entry(7, 5, a)), Enqueue(0, Entry(7, 1, b)), FlushAll(1, [TopicSeq(7, 5)])]
  }

  function PairBatch(a: Bytes): Msg {
    Lazy(1, 0, [Entry(7, 5, a)], [TopicSeq(7, 5)])
  }

  lemma {:induction false} NoResets(c: System, p: Params, evs: seq<Cluster.Event>)
    requires forall ev <- evs :: !ev.Reset?
    ensures NoRollbacks(c, p, evs)
  {
    if evs != [] {
      assert evs[|evs| - 1] in evs;
      NoResets(c, p, evs[..|evs| - 1]);
    }
  }

  lemma RollbackStep(c: System, p: Params)
    requires |c.nodes| == 2
    ensures var c' := NextSystem(c, p, Reset(1, 7, 3));
            && |c'.nodes| == 2 && c'.net == c.net && c'.nodes[0] == c.nodes[0]
            && c'.nodes[1].lazy == c.nodes[1].lazy && c'.nodes[1].seen[7] == 3
  {
  }

  lemma ArrivalStep(c: System, p: Params, a: Bytes)
    requires |c.nodes| == 2 && PairBatch(a) in c.net && p.labels == [0, 1] && 1 in c.nodes[0].lazy
    ensures var c' := NextSystem(c, p, Arrival(PairBatch(a)));
            |c'.nodes| == 2 && c'.nodes[1] == c.nodes[1] && Covers(c'.nodes[0], 1, 7, 5)
  {
    BatchTeaches(c, p, PairBatch(a), TopicSeq(7, 5));
  }

  lemma Overbelieved(c: System)
    requires |c.nodes| == 2 && Covers(c.nodes[0], 1, 7, 5) && c.nodes[1].seen[7] == 3
    ensures !Lossless(c)
  {
    var e := Entry(7, 5, []);
    assert Suppressed(BufFor(c.nodes[0].lazy, 1), e) && IsNew(c.nodes[1], e);
  }

  /** A run that loses entries: the batch arrives, node 0 knows that node 1 has seen
      5, node 1 rolls back to 3, and node 0 goes on holding back 4 and 5. */
  lemma RollbackExample(c: System, p: Params, a: Bytes, b: Bytes)
    requires Pair(c, p)
    ensures var c4 := NextSystem(Exec(c, p, PairEvents(a, b)), p, Arrival(PairBatch(a)));
            Lossless(c4) && !Lossless(NextSystem(c4, p, Reset(1, 7, 3)))
  {
    var c3 := PairInFlight(c, p, a, b);
    var c4 := NextSystem(c3, p, Arrival(PairBatch(a)));
    PairIsTruthful(c, p);
    AlwaysTruthful(c, p, PairEvents(a, b), {});
    NextTruthful(c3, p, Arrival(PairBatch(a)), {});
    TruthfulIsLossless(c4, {});
    ArrivalStep(c3, p, a);
    RollbackStep(c4, p);
    Overbelieved(NextSystem(c4, p, Reset(1, 7, 3)));
  }

  lemma KnowingNothingLosesNone(c: System, b: Bytes)
    requires |c.nodes| == 2
    requires c.nodes[0].lazy == map[1 := Buf([Entry(7, 1, b)], map[])] && c.nodes[1].lazy == map[0 := EMPTY_BUF]
    ensures Lossless(c)
  {
    assert forall n: NodeId, q: NodeId, t: Topic | n < 2 :: Known(BufFor(c.nodes[n].lazy, q).peerSeqs, t) == 0;
  }

  /** Another: node 1 rolls back while its batch is in flight. Nothing is held back
      then; once the batch arrives, 4 and 5 are. */
  lemma InFlightExample(c: System, p: Params, a: Bytes, b: Bytes)
    requires Pair(c, p)
    ensures var c4 := NextSystem(Exec(c, p, PairEvents(a, b)), p, Reset(1, 7, 3));
            Lossless(c4) && !Lossless(NextSystem(c4, p, Arrival(PairBatch(a))))
  {
    var c3 := PairInFlight(c, p, a, b);
    var c4 := NextSystem(c3, p, Reset(1, 7, 3));
    RollbackStep(c3, p);
    KnowingNothingLosesNone(c4, b);
    ArrivalStep(c4, p, a);
    Overbelieved(NextSystem(c4, p, Arrival(PairBatch(a))));
  }
}
