/** A node forwards a number to a peer at most once, on each of the two paths, for
    every time it accepted or enqueued it.
 */
module ClusterCopies {
  import opened Types
  import opened LazyBuffer
  import opened GossipNode
  import opened Cluster
  import opened ClusterForward

  // ----- Counting -----

  /** How often a number occurs in a list of entries. */
  function Times(es: seq<Entry>, k: TopicSeq): nat {
    if es == [] then 0 else Times(es[..|es| - 1], k) + if KeyOf(es[|es| - 1]) == k then 1 else 0
  }

  lemma {:induction false} TimesAppend(a: seq<Entry>, b: seq<Entry>, k: TopicSeq)
    ensures Times(a + b, k) == Times(a, k) + Times(b, k)
    decreases |b|
  {
    if b == [] {
      assert a + b == a;
    } else {
      TimesAppend(a, b[..|b| - 1], k);
      assert (a + b)[..|a + b| - 1] == a + b[..|b| - 1];
    }
  }

  datatype Path = Push | Batch

  /** How often a message carries a number from `n` to `q` on a path. */
  function CopiesIn(m: Msg, path: Path, n: NodeId, q: NodeId, k: TopicSeq): nat {
    if m.Lazy? == path.Batch? && m.sender == n && m.to == q then Times(EntriesOf(m), k) else 0
  }

  function Copies(ms: seq<Msg>, path: Path, n: NodeId, q: NodeId, k: TopicSeq): nat {
    if ms == [] then 0 else Copies(ms[..|ms| - 1], path, n, q, k) + CopiesIn(ms[|ms| - 1], path, n, q, k)
  }

  lemma {:induction false} CopiesAppend(a: seq<Msg>, b: seq<Msg>, path: Path, n: NodeId, q: NodeId, k: TopicSeq)
    ensures Copies(a + b, path, n, q, k) == Copies(a, path, n, q, k) + Copies(b, path, n, q, k)
    decreases |b|
  {
    if b == [] {
      assert a + b == a;
    } else {
      CopiesAppend(a, b[..|b| - 1], path, n, q, k);
      assert (a + b)[..|a + b| - 1] == a + b[..|b| - 1];
    }
  }

  /** How often a number waits in the buffer for a peer. */
  function Waiting(lazy: map<NodeId, Buf>, q: NodeId, k: TopicSeq): nat {
    Times(BufFor(lazy, q).entries, k)
  }

  ghost predicate Distinct(peers: seq<NodeId>) {
    forall i, j | 0 <= i < j < |peers| :: peers[i] != peers[j]
  }

  ghost predicate DistinctPeers(nd: Node) {
    Distinct(nd.eagerPeers) && Distinct(nd.lazyPeers)
  }

  // ----- Pieces of the handlers -----

  lemma {:induction false} PushedOnce(self: NodeId, peers: seq<NodeId>, e: Entry, exclude: Label, n: NodeId, q: NodeId, k: TopicSeq)
    requires Distinct(peers)
    ensures Copies(EagerSends(self, peers, e, exclude), Push, n, q, k) <= if n == self && q in peers then Times([e], k) else 0
  {
    if peers != [] {
      var front, p := peers[..|peers| - 1], peers[|peers| - 1];
      PushedOnce(self, front, e, exclude, n, q, k);
      var before := EagerSends(self, front, e, exclude);
      CopiesAppend(before, [Eager(self, p, e)], Push, n, q, k);
      OneCopy(Eager(self, p, e), Push, n, q, k);
    }
  }

  lemma OneCopy(m: Msg, path: Path, n: NodeId, q: NodeId, k: TopicSeq)
    ensures Copies([m], path, n, q, k) == CopiesIn(m, path, n, q, k)
  {
    assert [m][..0] == [];
  }

  lemma {:induction false} NotBatched(ms: seq<Msg>, n: NodeId, q: NodeId, k: TopicSeq)
    requires forall m <- ms :: m.Eager?
    ensures Copies(ms, Batch, n, q, k) == 0
  {
    if ms != [] { NotBatched(ms[..|ms| - 1], n, q, k); }
  }

  lemma {:induction false} NotPushed(ms: seq<Msg>, n: NodeId, q: NodeId, k: TopicSeq)
    requires forall m <- ms :: m.Lazy?
    ensures Copies(ms, Push, n, q, k) == 0
  {
    if ms != [] { NotPushed(ms[..|ms| - 1], n, q, k); }
  }

  lemma {:induction false} BufferedOnce(lazy: map<NodeId, Buf>, peers: seq<NodeId>, e: Entry, exclude: Label, q: NodeId, k: TopicSeq)
    requires Distinct(peers)
    ensures Waiting(EnqueueLazy(lazy, peers, e, exclude), q, k) <= Waiting(lazy, q, k) + if q in peers then Times([e], k) else 0
  {
    if peers != [] {
      var front, p := peers[..|peers| - 1], peers[|peers| - 1];
      BufferedOnce(lazy, front, e, exclude, q, k);
      TimesAppend(BufFor(EnqueueLazy(lazy, front, e, exclude), q).entries, [e], k);
    }
  }

  /** What leaves in batches and what stays buffered is what was buffered. */
  lemma {:induction false} FlushedOnce(nd: Node, self: NodeId, peers: seq<NodeId>, marks: seq<TopicSeq>, q: NodeId, k: TopicSeq)
    ensures var out := FlushPeers(nd, self, peers, marks);
            Copies(out.sends, Batch, self, q, k) + Waiting(out.node.lazy, q, k) == Waiting(nd.lazy, q, k)
  {
    if peers != [] {
      var front, p := peers[..|peers| - 1], peers[|peers| - 1];
      FlushedOnce(nd, self, front, marks, q, k);
      var before := FlushPeers(nd, self, front, marks);
      FlushedOne(before.node.lazy, before.sends, self, p, marks, q, k);
    }
  }

  lemma FlushedOne(lazy: map<NodeId, Buf>, sends: seq<Msg>, self: NodeId, p: NodeId, marks: seq<TopicSeq>, q: NodeId, k: TopicSeq)
    ensures var buf := BufFor(lazy, p);
            Copies(sends + [Lazy(self, p, buf.entries, marks)], Batch, self, q, k) + Waiting(lazy[p := buf.(entries := [])], q, k)
            == Copies(sends, Batch, self, q, k) + Waiting(lazy, q, k)
  {
    var m := Lazy(self, p, BufFor(lazy, p).entries, marks);
    CopiesAppend(sends, [m], Batch, self, q, k);
    OneCopy(m, Batch, self, q, k);
  }

  // ----- Handlers -----

  /** What a handler forwards of the entries it took: on each path at most one
      copy for each. */
  ghost predicate ForwardsOnce(before: Node, out: Out, self: NodeId, took: seq<Entry>, q: NodeId, k: TopicSeq) {
    && Copies(out.sends, Push, self, q, k) <= Times(took, k)
    && Copies(out.sends, Batch, self, q, k) + Waiting(out.node.lazy, q, k) <= Waiting(before.lazy, q, k) + Times(took, k)
  }

  lemma RelaysOnce(nd: Node, self: NodeId, e: Entry, exclude: Label, q: NodeId, k: TopicSeq)
    requires DistinctPeers(nd)
    ensures ForwardsOnce(nd, Relay(nd, self, e, exclude), self, [e], q, k)
  {
    PushedOnce(self, nd.eagerPeers, e, exclude, self, q, k);
    BufferedOnce(nd.lazy, nd.lazyPeers, e, exclude, q, k);
    EagerSendsAt(self, nd.eagerPeers, e, exclude);
    NotBatched(EagerSends(self, nd.eagerPeers, e, exclude), self, q, k);
  }

  lemma EntryForwardsOnce(nd: Node, self: NodeId, maxGap: nat, e: Entry, from: Label, q: NodeId, k: TopicSeq)
    requires DistinctPeers(nd)
    ensures var out := HandleEntry(nd, self, maxGap, e, from);
            ForwardsOnce(nd, out, self, if IsNew(nd, e) then [e] else [], q, k) && DistinctPeers(out.node)
  {
    if IsNew(nd, e) { RelaysOnce(Apply(CacheIt(MarkSeen(nd, e), e), maxGap, e), self, e, from, q, k); }
  }

  lemma ForwardsThen(a: Node, x: Out, y: Out, self: NodeId, took: seq<Entry>, more: seq<Entry>, q: NodeId, k: TopicSeq)
    requires ForwardsOnce(a, x, self, took, q, k) && ForwardsOnce(x.node, y, self, more, q, k)
    ensures ForwardsOnce(a, Out(y.node, x.sends + y.sends), self, took + more, q, k)
  {
    CopiesAppend(x.sends, y.sends, Push, self, q, k);
    CopiesAppend(x.sends, y.sends, Batch, self, q, k);
    TimesAppend(took, more, k);
  }

  lemma {:induction false} EntriesForwardOnce(nd: Node, self: NodeId, maxGap: nat, es: seq<Entry>, from: Label, q: NodeId, k: TopicSeq)
    requires DistinctPeers(nd)
    ensures ForwardsOnce(nd, HandleEntries(nd, self, maxGap, es, from), self, AcceptedOf(nd.seen, es), q, k)
    decreases |es|
  {
    if es != [] {
      var e := es[0];
      var first := HandleEntry(nd, self, maxGap, e, from);
      HandleEntrySeen(nd, self, maxGap, e, from);
      EntryForwardsOnce(nd, self, maxGap, e, from, q, k);
      EntriesForwardOnce(first.node, self, maxGap, es[1..], from, q, k);
      var rest := AcceptedOf(first.node.seen, es[1..]);
      ForwardsThen(nd, first, HandleEntries(first.node, self, maxGap, es[1..], from), self,
                   if IsNew(nd, e) then [e] else [], rest, q, k);
      assert [] + rest == rest;
    }
  }

  lemma {:induction false} SenderIsSelf(nd: Node, self: NodeId, maxGap: nat, es: seq<Entry>, from: Label)
    ensures forall m <- HandleEntries(nd, self, maxGap, es, from).sends :: m.sender == self
    decreases |es|
  {
    if es != [] {
      EagerSendsAt(self, nd.eagerPeers, es[0], from);
      SenderIsSelf(HandleEntry(nd, self, maxGap, es[0], from).node, self, maxGap, es[1..], from);
    }
  }

  // ----- Events -----

  lemma MsgForwardsOnce(nd: Node, self: NodeId, maxGap: nat, m: Msg, from: Label, q: NodeId, k: TopicSeq)
    requires DistinctPeers(nd)
    ensures var out := HandleMsg(nd, self, maxGap, m, from);
            && ForwardsOnce(nd, out, self, AcceptedOf(nd.seen, EntriesOf(m)), q, k)
            && forall x <- out.sends :: x.sender == self
  {
    var nd1 := if m.Lazy? then LearnMarks(nd, from, m.marks) else nd;
    EntriesForwardOnce(nd1, self, maxGap, EntriesOf(m), from, q, k);
    SenderIsSelf(nd1, self, maxGap, EntriesOf(m), from);
    if m.Eager? { OneEntry(nd, self, maxGap, m.entry, from); }
  }

  /** The event's own node, and what it forwards. */
  ghost predicate EventForwardsOnce(c: System, p: Params, ev: Cluster.Event, n: NodeId, q: NodeId, k: TopicSeq)
    requires n < |c.nodes|
  {
    ForwardsOnce(c.nodes[n], Out(NextSystem(c, p, ev).nodes[n], Sends(c, p, ev)), n, Takes(c, ev, n), q, k)
  }

  lemma ElsewhereForwardsNone(c: System, p: Params, ev: Cluster.Event, n: NodeId, q: NodeId, k: TopicSeq)
    requires n < |c.nodes| && NextSystem(c, p, ev).nodes[n].lazy == c.nodes[n].lazy
    requires forall m <- Sends(c, p, ev) :: m.sender != n
    ensures EventForwardsOnce(c, p, ev, n, q, k)
  {
    NoneFrom(Sends(c, p, ev), Push, n, q, k);
    NoneFrom(Sends(c, p, ev), Batch, n, q, k);
  }

  lemma {:induction false} NoneFrom(ms: seq<Msg>, path: Path, n: NodeId, q: NodeId, k: TopicSeq)
    requires forall m <- ms :: m.sender != n
    ensures Copies(ms, path, n, q, k) == 0
  {
    if ms != [] { NoneFrom(ms[..|ms| - 1], path, n, q, k); }
  }

  lemma EnqueueForwardsOnce(c: System, p: Params, e: Entry, at: NodeId, n: NodeId, q: NodeId, k: TopicSeq)
    requires n < |c.nodes| && at < |c.nodes| && DistinctPeers(c.nodes[at])
    ensures EventForwardsOnce(c, p, Enqueue(at, e), n, q, k)
  {
    LocalForwardsOnce(c.nodes[at], at, e, q, k);
    if at == n {
      assert Takes(c, Enqueue(at, e), n) == [e];
    } else {
      ElsewhereForwardsNone(c, p, Enqueue(at, e), n, q, k);
    }
  }

  lemma LocalForwardsOnce(nd: Node, self: NodeId, e: Entry, q: NodeId, k: TopicSeq)
    requires DistinctPeers(nd)
    ensures ForwardsOnce(nd, HandleLocal(nd, self, e), self, [e], q, k)
    ensures forall m <- HandleLocal(nd, self, e).sends :: m.sender == self
  {
    RelaysOnce(CacheIt(MarkSeen(nd, e), e), self, e, LOCAL, q, k);
    EagerSendsAt(self, nd.eagerPeers, e, LOCAL);
  }

  lemma ArrivalForwardsOnce(c: System, p: Params, m: Msg, n: NodeId, q: NodeId, k: TopicSeq)
    requires n < |c.nodes| && Possible(c, Arrival(m)) && DistinctPeers(c.nodes[n]) && DistinctPeers(c.nodes[m.to])
    ensures EventForwardsOnce(c, p, Arrival(m), n, q, k)
  {
    MsgForwardsOnce(c.nodes[m.to], m.to, p.maxGap, m, LabelOf(p, m.sender), q, k);
    if m.to == n {
      assert Takes(c, Arrival(m), n) == AcceptedOf(c.nodes[n].seen, EntriesOf(m));
    } else {
      ElsewhereForwardsNone(c, p, Arrival(m), n, q, k);
    }
  }

  lemma FlushForwardsOnce(c: System, p: Params, at: NodeId, marks: seq<TopicSeq>, n: NodeId, q: NodeId, k: TopicSeq)
    requires n < |c.nodes| && Possible(c, FlushAll(at, marks))
    ensures EventForwardsOnce(c, p, FlushAll(at, marks), n, q, k)
  {
    var nd := c.nodes[at];
    FlushPeersAt(nd, at, nd.lazyPeers, marks, 0);
    if at == n {
      FlushedOnce(nd, n, nd.lazyPeers, marks, q, k);
      NotPushed(Flush(nd, n, marks).sends, n, q, k);
    } else {
      ElsewhereForwardsNone(c, p, FlushAll(at, marks), n, q, k);
    }
  }

  lemma NextForwardsOnce(c: System, p: Params, ev: Cluster.Event, n: NodeId, q: NodeId, k: TopicSeq)
    requires n < |c.nodes| && forall nd <- c.nodes :: DistinctPeers(nd)
    ensures EventForwardsOnce(c, p, ev, n, q, k)
  {
    if !Possible(c, ev) {
      ElsewhereForwardsNone(c, p, ev, n, q, k);
    } else {
      assert forall i: NodeId | i < |c.nodes| :: c.nodes[i] in c.nodes;
      match ev
      case Enqueue(at, e) => EnqueueForwardsOnce(c, p, e, at, n, q, k);
      case Arrival(m) => ArrivalForwardsOnce(c, p, m, n, q, k);
      case FlushAll(at, marks) => FlushForwardsOnce(c, p, at, marks, n, q, k);
      case _ => ElsewhereForwardsNone(c, p, ev, n, q, k);
    }
  }

  // ----- Runs -----

  /** Overlays may change, but a new one lists no peer twice. */
  ghost predicate DistinctOverlays(evs: seq<Cluster.Event>) {
    forall ev <- evs :: ev.Reclassify? ==> Distinct(ev.eager) && Distinct(ev.lazy)
  }

  lemma {:induction false} HandleEntriesPeers(nd: Node, self: NodeId, maxGap: nat, es: seq<Entry>, from: Label)
    ensures var nd' := HandleEntries(nd, self, maxGap, es, from).node;
            nd'.eagerPeers == nd.eagerPeers && nd'.lazyPeers == nd.lazyPeers
    decreases |es|
  {
    if es != [] {
      HandleEntrySeen(nd, self, maxGap, es[0], from);
      HandleEntriesPeers(HandleEntry(nd, self, maxGap, es[0], from).node, self, maxGap, es[1..], from);
    }
  }

  lemma MsgPeers(nd: Node, self: NodeId, maxGap: nat, m: Msg, from: Label)
    ensures var nd' := HandleMsg(nd, self, maxGap, m, from).node;
            nd'.eagerPeers == nd.eagerPeers && nd'.lazyPeers == nd.lazyPeers
  {
    HandleEntriesPeers(if m.Lazy? then LearnMarks(nd, from, m.marks) else nd, self, maxGap, EntriesOf(m), from);
    if m.Eager? { OneEntry(nd, self, maxGap, m.entry, from); }
  }

  lemma NextDistinct(c: System, p: Params, ev: Cluster.Event, n: NodeId)
    requires n < |c.nodes| && DistinctPeers(c.nodes[n])
    requires ev.Reclassify? ==> Distinct(ev.eager) && Distinct(ev.lazy)
    ensures DistinctPeers(NextSystem(c, p, ev).nodes[n])
  {
    if Possible(c, ev) {
      if ev.FlushAll? {
        FlushPeersAt(c.nodes[ev.n], ev.n, c.nodes[ev.n].lazyPeers, ev.marks, 0);
      } else if ev.Arrival? {
        MsgPeers(c.nodes[ev.m.to], ev.m.to, p.maxGap, ev.m, LabelOf(p, ev.m.sender));
      }
    }
  }

  lemma {:induction false} StaysDistinct(c: System, p: Params, evs: seq<Cluster.Event>)
    requires DistinctOverlays(evs) && forall nd <- c.nodes :: DistinctPeers(nd)
    ensures forall nd <- Exec(c, p, evs).nodes :: DistinctPeers(nd)
  {
    if evs != [] {
      var front, ev := evs[..|evs| - 1], evs[|evs| - 1];
      assert ev in evs;
      StaysDistinct(c, p, front);
      forall n: NodeId | n < |Exec(c, p, front).nodes| ensures DistinctPeers(Exec(c, p, evs).nodes[n]) {
        NextDistinct(Exec(c, p, front), p, ev, n);
      }
    }
  }

  lemma TimesTaken(c: System, p: Params, evs: seq<Cluster.Event>, n: NodeId, k: TopicSeq)
    requires evs != []
    ensures var front := evs[..|evs| - 1];
            Times(Taken(c, p, evs, n), k) == Times(Taken(c, p, front, n), k) + Times(Takes(Exec(c, p, front), evs[|evs| - 1], n), k)
  {
    var front, ev := evs[..|evs| - 1], evs[|evs| - 1];
    var a, b := AcceptLog(c, p, front, n), EnqueueLog(c, p, front, n);
    var x, y := Accepts(Exec(c, p, front), ev, n), EnqueuedAt(Exec(c, p, front), ev, n);
    TimesFour(a, b, x, y, k);
  }

  lemma TimesFour(a: seq<Entry>, b: seq<Entry>, x: seq<Entry>, y: seq<Entry>, k: TopicSeq)
    ensures Times((a + x) + (b + y), k) == Times(a + b, k) + Times(x + y, k)
  {
    TimesAppend(a + x, b + y, k);
    TimesAppend(a, x, k);
    TimesAppend(b, y, k);
    TimesAppend(a, b, k);
    TimesAppend(x, y, k);
  }

  /** Over every run, whatever the overlays do as long as they list no peer
      twice, node `n` forwards a number to peer `q` at most once per acceptance
      and local enqueue of that number: on the eager path, and on the lazy path
      counting what still waits in the buffer. */
  lemma {:induction false} ForwardedAtMostOnce(c: System, p: Params, evs: seq<Cluster.Event>, n: NodeId, q: NodeId, k: TopicSeq)
    requires n < |c.nodes| && DistinctOverlays(evs) && forall nd <- c.nodes :: DistinctPeers(nd)
    ensures |Exec(c, p, evs).nodes| == |c.nodes|
    ensures ForwardsOnce(c.nodes[n], Out(Exec(c, p, evs).nodes[n], SentLog(c, p, evs)), n, Taken(c, p, evs, n), q, k)
  {
    ExecSize(c, p, evs);
    if evs != [] {
      var front, ev := evs[..|evs| - 1], evs[|evs| - 1];
      var c1 := Exec(c, p, front);
      ExecSize(c, p, front);
      ForwardedAtMostOnce(c, p, front, n, q, k);
      StaysDistinct(c, p, front);
      NextForwardsOnce(c1, p, ev, n, q, k);
      ForwardsThen(c.nodes[n], Out(c1.nodes[n], SentLog(c, p, front)), Out(Exec(c, p, evs).nodes[n], Sends(c1, p, ev)), n,
                   Taken(c, p, front, n), Takes(c1, ev, n), q, k);
      TimesTaken(c, p, evs, n, k);
      TimesAppend(Taken(c, p, front, n), Takes(c1, ev, n), k);
    }
  }

  lemma {:induction false} ClimbsOnce(log: seq<Entry>, seen: Marks, k: TopicSeq)
    requires Climbs(log, seen)
    ensures Times(log, k) <= 1
  {
    if log != [] {
      var front, last := log[..|log| - 1], log[|log| - 1];
      ClimbsOnce(front, seen, k);
      if KeyOf(last) == k {
        assert forall i | 0 <= i < |front| :: front[i] == log[i] && KeyOf(front[i]) != k;
        TimesZero(front, k);
      }
    }
  }

  lemma {:induction false} TimesZero(es: seq<Entry>, k: TopicSeq)
    requires forall e <- es :: KeyOf(e) != k
    ensures Times(es, k) == 0
  {
    if es != [] { TimesZero(es[..|es| - 1], k); }
  }

  /** A node whose marks are not reset accepts a number at most once. */
  lemma AcceptedOnce(c: System, p: Params, evs: seq<Cluster.Event>, n: NodeId, k: TopicSeq)
    requires n < |c.nodes| && forall ev <- evs :: !(ev.Reset? && ev.n == n)
    ensures Times(AcceptLog(c, p, evs, n), k) <= 1
  {
    AcceptsClimb(c, p, evs, n);
    ClimbsOnce(AcceptLog(c, p, evs, n), Exec(c, p, evs).nodes[n].seen, k);
  }

  /** So a node that is not reset forwards a number it does not produce itself and
      does not have buffered at the start to each peer at most once by push and at
      most once in a batch. */
  lemma RelayedOnce(c: System, p: Params, evs: seq<Cluster.Event>, n: NodeId, q: NodeId, k: TopicSeq)
    requires n < |c.nodes| && Waiting(c.nodes[n].lazy, q, k) == 0 && DistinctOverlays(evs) && forall nd <- c.nodes :: DistinctPeers(nd)
    requires forall ev <- evs :: !(ev.Reset? && ev.n == n)
    requires forall e <- EnqueueLog(c, p, evs, n) :: KeyOf(e) != k
    ensures Copies(SentLog(c, p, evs), Push, n, q, k) <= 1 && Copies(SentLog(c, p, evs), Batch, n, q, k) <= 1
  {
    ForwardedAtMostOnce(c, p, evs, n, q, k);
    AcceptedOnce(c, p, evs, n, k);
    TimesZero(EnqueueLog(c, p, evs, n), k);
    TimesAppend(AcceptLog(c, p, evs, n), EnqueueLog(c, p, evs, n), k);
  }
}
