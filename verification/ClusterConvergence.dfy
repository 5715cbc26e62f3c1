/** The flood reaches everyone: in a run without losses, once nothing is in
    flight or buffered, every node that the overlay links to another has at least
    the other's marks.
 */
module ClusterConvergence {
  import opened Types
  import opened LazyBuffer
  import opened GossipNode
  import opened Cluster
  import opened ClusterSuppression
  import opened ClusterForward
  import opened ClusterMarks
  import ClusterProvenance

  ghost predicate Link(c: System, n: NodeId, q: NodeId) {
    n < |c.nodes| && q < |c.nodes| && (q in c.nodes[n].eagerPeers || q in c.nodes[n].lazyPeers)
  }

  /** Some entry of the topic brings its reader to mark `s` or higher. */
  ghost predicate Carries(es: seq<Entry>, t: Topic, s: Seq) {
    exists e :: e in es && e.topic == t && e.seqno >= s
  }

  ghost predicate InFlight(c: System, q: NodeId, t: Topic, s: Seq) {
    exists m :: m in c.net && m.to == q && Carries(EntriesOf(m), t, s)
  }

  /** Node `q` has what node `n` has seen of the topic, or it is on its way: in
      flight, buffered by `n` for `q`, or in the hands of `q` (node `h` is busy
      with the entries `hand`). */
  ghost predicate Covered(c: System, h: NodeId, hand: seq<Entry>, n: NodeId, q: NodeId, t: Topic)
    requires n < |c.nodes| && q < |c.nodes|
  {
    var s := c.nodes[n].seen[t];
    || s <= c.nodes[q].seen[t]
    || InFlight(c, q, t, s)
    || (q in c.nodes[n].lazyPeers && Carries(BufFor(c.nodes[n].lazy, q).entries, t, s))
    || (q == h && Carries(hand, t, s))
  }

  ghost predicate AllCovered(c: System, h: NodeId, hand: seq<Entry>) {
    forall n: NodeId, q: NodeId, t: Topic | Link(c, n, q) :: Covered(c, h, hand, n, q, t)
  }

  ghost predicate SeenUpTo(es: seq<Entry>, seen: Marks) {
    forall e <- es :: e.seqno <= seen[e.topic]
  }

  /** Whoever sends or buffers an entry has seen it. */
  ghost predicate SendersSaw(c: System) {
    && (forall m <- c.net :: m.sender < |c.nodes| && SeenUpTo(EntriesOf(m), c.nodes[m.sender].seen))
    && (forall n: NodeId, q: NodeId | n < |c.nodes| :: SeenUpTo(BufFor(c.nodes[n].lazy, q).entries, c.nodes[n].seen))
  }

  // ----- What growth keeps -----

  /** Marks, buffers and the network only grow; overlays stay. */
  ghost predicate Grows(c: System, c': System) {
    && Rises(c.nodes, c'.nodes)
    && c.net <= c'.net
    && forall n: NodeId | n < |c.nodes| ::
         && c'.nodes[n].eagerPeers == c.nodes[n].eagerPeers && c'.nodes[n].lazyPeers == c.nodes[n].lazyPeers
         && forall q: NodeId :: BufFor(c.nodes[n].lazy, q).entries <= BufFor(c'.nodes[n].lazy, q).entries
  }

  lemma CarriesMore(es: seq<Entry>, es': seq<Entry>, t: Topic, s: Seq)
    requires Carries(es, t, s) && es <= es'
    ensures Carries(es', t, s)
  {
    var e :| e in es && e.topic == t && e.seqno >= s;
    assert e in es';
  }

  lemma CoveredGrows(c: System, c': System, h: NodeId, hand: seq<Entry>, n: NodeId, q: NodeId, t: Topic)
    requires Grows(c, c') && n < |c.nodes| && q < |c.nodes|
    requires Covered(c, h, hand, n, q, t) && c'.nodes[n].seen[t] == c.nodes[n].seen[t]
    ensures Covered(c', h, hand, n, q, t)
  {
    var s := c.nodes[n].seen[t];
    if InFlight(c, q, t, s) {
      var m :| m in c.net && m.to == q && Carries(EntriesOf(m), t, s);
      assert m in c'.net;
    } else if Carries(BufFor(c.nodes[n].lazy, q).entries, t, s) {
      CarriesMore(BufFor(c.nodes[n].lazy, q).entries, BufFor(c'.nodes[n].lazy, q).entries, t, s);
    }
  }

  /** An entry that has been handled is no longer needed in the hand. */
  lemma HandUsed(c: System, h: NodeId, e: Entry, rest: seq<Entry>, n: NodeId, q: NodeId, t: Topic)
    requires n < |c.nodes| && q < |c.nodes| && Covered(c, h, [e] + rest, n, q, t)
    requires h < |c.nodes| && e.seqno <= c.nodes[h].seen[e.topic]
    ensures Covered(c, h, rest, n, q, t)
  {
    var s := c.nodes[n].seen[t];
    if q == h && Carries([e] + rest, t, s) {
      var x :| x in [e] + rest && x.topic == t && x.seqno >= s;
      if x != e { assert x in rest; }
    }
  }

  /** A freshly relayed entry covers every link of the relaying node. */
  lemma RelayCovers(c: System, h: NodeId, hand: seq<Entry>, n: NodeId, q: NodeId, e: Entry, exclude: Label)
    requires Link(c, n, q) && c.nodes[n].seen[e.topic] == e.seqno
    requires q in c.nodes[n].eagerPeers && q != exclude ==> Eager(n, q, e) in c.net
    requires q in c.nodes[n].lazyPeers && q != exclude ==>
               e in BufFor(c.nodes[n].lazy, q).entries || e.seqno <= c.nodes[q].seen[e.topic]
    requires q == exclude ==> e.seqno <= c.nodes[q].seen[e.topic]
    ensures Covered(c, h, hand, n, q, e.topic)
  {
    if q in c.nodes[n].eagerPeers && q != exclude {
      assert Carries(EntriesOf(Eager(n, q, e)), e.topic, e.seqno) by { assert e in [e]; }
    }
  }

  // ----- Handling one entry -----

  /** A node relays an entry: it marks it if new, buffers it for its lazy peers
      and sends it to its eager peers. */
  ghost predicate Relayed(c: System, c': System, n: NodeId, e: Entry, exclude: Label) {
    && n < |c.nodes| && |c'.nodes| == |c.nodes|
    && (forall k: NodeId | k < |c.nodes| && k != n :: c'.nodes[k] == c.nodes[k])
    && c'.nodes[n].seen == MarkSeen(c.nodes[n], e).seen
    && c'.nodes[n].eagerPeers == c.nodes[n].eagerPeers && c'.nodes[n].lazyPeers == c.nodes[n].lazyPeers
    && c'.nodes[n].lazy == EnqueueLazy(c.nodes[n].lazy, c.nodes[n].lazyPeers, e, exclude)
    && c'.net == c.net + multiset(EagerSends(n, c.nodes[n].eagerPeers, e, exclude))
  }

  lemma RelayedGrows(c: System, c': System, n: NodeId, e: Entry, exclude: Label)
    requires Relayed(c, c', n, e, exclude)
    ensures Grows(c, c')
  {
    forall q: NodeId ensures BufFor(c.nodes[n].lazy, q).entries <= BufFor(c'.nodes[n].lazy, q).entries {
      EnqueueLazyAt(c.nodes[n].lazy, c.nodes[n].lazyPeers, e, exclude, q);
    }
  }

  lemma RelayedMessagesSaw(c: System, c': System, n: NodeId, e: Entry, exclude: Label)
    requires SendersSaw(c) && Relayed(c, c', n, e, exclude)
    ensures forall m <- c'.net :: m.sender < |c'.nodes| && SeenUpTo(EntriesOf(m), c'.nodes[m.sender].seen)
  {
    EagerSendsAt(n, c.nodes[n].eagerPeers, e, exclude);
    forall m <- c'.net ensures m.sender < |c'.nodes| && SeenUpTo(EntriesOf(m), c'.nodes[m.sender].seen) {
      if m in c.net { assert SeenUpTo(EntriesOf(m), c.nodes[m.sender].seen); }
    }
  }

  lemma RelayedSendersSaw(c: System, c': System, n: NodeId, e: Entry, exclude: Label)
    requires SendersSaw(c) && Relayed(c, c', n, e, exclude)
    ensures SendersSaw(c')
  {
    RelayedMessagesSaw(c, c', n, e, exclude);
    forall k: NodeId, q: NodeId | k < |c'.nodes|
      ensures SeenUpTo(BufFor(c'.nodes[k].lazy, q).entries, c'.nodes[k].seen)
    {
      assert SeenUpTo(BufFor(c.nodes[k].lazy, q).entries, c.nodes[k].seen);
      if k == n { EnqueueLazyAt(c.nodes[n].lazy, c.nodes[n].lazyPeers, e, exclude, q); }
    }
  }

  lemma RelayedTruthful(c: System, c': System, n: NodeId, e: Entry, exclude: Label)
    requires Truthful(c, {}) && Relayed(c, c', n, e, exclude)
    ensures Truthful(c', {})
  {
    RelayedGrows(c, c', n, e, exclude);
    EagerSendsAt(n, c.nodes[n].eagerPeers, e, exclude);
    forall nd <- c'.nodes ensures BelievesBelow(nd, c.nodes) {
      if nd !in c.nodes {
        assert nd == c'.nodes[n] && c.nodes[n] in c.nodes;
        forall q: NodeId ensures BufFor(nd.lazy, q).peerSeqs == BufFor(c.nodes[n].lazy, q).peerSeqs {
          EnqueueLazyAt(c.nodes[n].lazy, c.nodes[n].lazyPeers, e, exclude, q);
        }
        SameBeliefsBelow(c.nodes[n], nd, c.nodes);
      }
    }
    RisesKeeps(c, c', {});
  }

  /** Relaying keeps every link covered, the relaying node's own included. */
  lemma RelayedCovers(c: System, c': System, h: NodeId, hand: seq<Entry>, n: NodeId, e: Entry, exclude: Label, a: NodeId, q: NodeId, t: Topic)
    requires Truthful(c, {}) && AllCovered(c, h, hand) && Relayed(c, c', n, e, exclude)
    requires 0 <= exclude < |c.nodes| ==> e.seqno <= c.nodes[exclude].seen[e.topic]
    requires Link(c', a, q)
    ensures Covered(c', h, hand, a, q, t)
  {
    RelayedGrows(c, c', n, e, exclude);
    assert Link(c, a, q) && Covered(c, h, hand, a, q, t);
    if a == n && t == e.topic && IsNew(c.nodes[n], e) {
      EagerSendsAt(n, c.nodes[n].eagerPeers, e, exclude);
      EnqueueLazyAt(c.nodes[n].lazy, c.nodes[n].lazyPeers, e, exclude, q);
      assert c.nodes[n] in c.nodes;
      assert Known(BufFor(c.nodes[n].lazy, q).peerSeqs, t) <= c.nodes[q].seen[t] <= c'.nodes[q].seen[t];
      RelayCovers(c', h, hand, n, q, e, exclude);
    } else {
      CoveredGrows(c, c', h, hand, a, q, t);
    }
  }

  /** The invariant of loss-free runs, with node `h` busy with `hand`. */
  ghost predicate Spreading(c: System, h: NodeId, hand: seq<Entry>) {
    Truthful(c, {}) && SendersSaw(c) && AllCovered(c, h, hand)
  }

  lemma RelayedSpreads(c: System, c': System, h: NodeId, hand: seq<Entry>, n: NodeId, e: Entry, exclude: Label)
    requires Spreading(c, h, hand) && Relayed(c, c', n, e, exclude)
    requires 0 <= exclude < |c.nodes| ==> e.seqno <= c.nodes[exclude].seen[e.topic]
    ensures Spreading(c', h, hand) && Grows(c, c')
  {
    RelayedGrows(c, c', n, e, exclude);
    RelayedTruthful(c, c', n, e, exclude);
    RelayedSendersSaw(c, c', n, e, exclude);
    forall a: NodeId, q: NodeId, t: Topic | Link(c', a, q) ensures Covered(c', h, hand, a, q, t) {
      RelayedCovers(c, c', h, hand, n, e, exclude, a, q, t);
    }
  }

  lemma HandUsedAll(c: System, h: NodeId, e: Entry, rest: seq<Entry>)
    requires Spreading(c, h, [e] + rest) && h < |c.nodes| && e.seqno <= c.nodes[h].seen[e.topic]
    ensures Spreading(c, h, rest)
  {
    forall n: NodeId, q: NodeId, t: Topic | Link(c, n, q) ensures Covered(c, h, rest, n, q, t) {
      HandUsed(c, h, e, rest, n, q, t);
    }
  }

  /** Everything in the hand was seen by the node it came from. */
  ghost predicate CameFrom(c: System, from: Label, hand: seq<Entry>) {
    0 <= from < |c.nodes| ==> SeenUpTo(hand, c.nodes[from].seen)
  }

  lemma HandleOneSpreads(c: System, h: NodeId, maxGap: nat, e: Entry, rest: seq<Entry>, from: Label)
    requires h < |c.nodes| && Spreading(c, h, [e] + rest) && CameFrom(c, from, [e] + rest)
    ensures var c' := Install(c, h, HandleEntry(c.nodes[h], h, maxGap, e, from));
            Spreading(c', h, rest) && Rises(c.nodes, c'.nodes) && CameFrom(c', from, rest)
  {
    var c' := Install(c, h, HandleEntry(c.nodes[h], h, maxGap, e, from));
    assert e in [e] + rest;
    HandleEntrySeen(c.nodes[h], h, maxGap, e, from);
    if IsNew(c.nodes[h], e) {
      assert Relayed(c, c', h, e, from);
      RelayedSpreads(c, c', h, [e] + rest, h, e, from);
    } else {
      assert c' == c by { assert c.nodes[h := c.nodes[h]] == c.nodes && multiset(HandleEntry(c.nodes[h], h, maxGap, e, from).sends) == multiset{}; }
    }
    HandUsedAll(c', h, e, rest);
    CameFromRises(c, c', from, e, rest);
  }

  lemma CameFromRises(c: System, c': System, from: Label, e: Entry, rest: seq<Entry>)
    requires Rises(c.nodes, c'.nodes) && CameFrom(c, from, [e] + rest)
    ensures CameFrom(c', from, rest)
  {
    if 0 <= from < |c.nodes| {
      forall x <- rest ensures x.seqno <= c'.nodes[from].seen[x.topic] { assert x in [e] + rest; }
    }
  }

  lemma InstallTwice(c: System, h: NodeId, maxGap: nat, es: seq<Entry>, from: Label)
    requires h < |c.nodes| && es != []
    ensures var c1 := Install(c, h, HandleEntry(c.nodes[h], h, maxGap, es[0], from));
            && c1.nodes[h] == HandleEntry(c.nodes[h], h, maxGap, es[0], from).node
            && Install(c, h, HandleEntries(c.nodes[h], h, maxGap, es, from))
               == Install(c1, h, HandleEntries(c1.nodes[h], h, maxGap, es[1..], from))
  {
    var first := HandleEntry(c.nodes[h], h, maxGap, es[0], from);
    var rest := HandleEntries(first.node, h, maxGap, es[1..], from);
    assert multiset(first.sends + rest.sends) == multiset(first.sends) + multiset(rest.sends);
    assert c.nodes[h := first.node][h := rest.node] == c.nodes[h := rest.node];
  }

  lemma {:induction false} HandleAllSpreads(c: System, h: NodeId, maxGap: nat, es: seq<Entry>, from: Label)
    requires h < |c.nodes| && Spreading(c, h, es) && CameFrom(c, from, es)
    ensures Spreading(Install(c, h, HandleEntries(c.nodes[h], h, maxGap, es, from)), h, [])
    decreases |es|
  {
    if es == [] {
      assert c.nodes[h := c.nodes[h]] == c.nodes;
      assert Install(c, h, HandleEntries(c.nodes[h], h, maxGap, es, from)) == c;
    } else {
      assert es == [es[0]] + es[1..];
      HandleOneSpreads(c, h, maxGap, es[0], es[1..], from);
      InstallTwice(c, h, maxGap, es, from);
      HandleAllSpreads(Install(c, h, HandleEntry(c.nodes[h], h, maxGap, es[0], from)), h, maxGap, es[1..], from);
    }
  }

  // ----- Steps -----

  /** Taking a message from the network puts its entries into the hands of its
      receiver, which also learns the sender's marks. */
  lemma TakeSpreads(c: System, m: Msg, from: Label)
    requires Spreading(c, 0, []) && m in c.net && m.to < |c.nodes|
    requires 0 <= from < |c.nodes| ==> from == m.sender
    ensures var nd := if m.Lazy? then LearnMarks(c.nodes[m.to], from, m.marks) else c.nodes[m.to];
            var c1 := System(c.nodes[m.to := nd], c.net - multiset{m});
            Spreading(c1, m.to, EntriesOf(m)) && CameFrom(c1, from, EntriesOf(m))
  {
    var prior := c.nodes[m.to];
    assert prior in c.nodes;
    var nd := if m.Lazy? then LearnMarks(prior, from, m.marks) else prior;
    var c1 := System(c.nodes[m.to := nd], c.net - multiset{m});
    if m.Lazy? { LearnBelow(prior, from, m, c.nodes); }
    TakeTruthful(c, c1, m, nd);
    TakeCovers(c, c1, m, nd);
    TakeSendersSaw(c, c1, m, nd);
  }

  /** The receiver took the message off the network and learnt its marks. */
  ghost predicate Took(c: System, c1: System, m: Msg, nd: Node) {
    && m in c.net && m.to < |c.nodes| && nd == c.nodes[m.to].(lazy := nd.lazy)
    && (forall q: NodeId :: BufFor(nd.lazy, q).entries == BufFor(c.nodes[m.to].lazy, q).entries)
    && c1 == System(c.nodes[m.to := nd], c.net - multiset{m})
  }

  lemma TakeTruthful(c: System, c1: System, m: Msg, nd: Node)
    requires Truthful(c, {}) && Took(c, c1, m, nd) && BelievesBelow(nd, c.nodes)
    ensures Truthful(c1, {})
  {
    RisesKeeps(c, c1, {});
  }

  lemma TakeSendersSaw(c: System, c1: System, m: Msg, nd: Node)
    requires SendersSaw(c) && Took(c, c1, m, nd)
    ensures SendersSaw(c1)
  {
    forall k: NodeId, q: NodeId | k < |c1.nodes| ensures SeenUpTo(BufFor(c1.nodes[k].lazy, q).entries, c1.nodes[k].seen) {
      assert SeenUpTo(BufFor(c.nodes[k].lazy, q).entries, c.nodes[k].seen);
    }
  }

  lemma TakeCovers(c: System, c1: System, m: Msg, nd: Node)
    requires AllCovered(c, 0, []) && Took(c, c1, m, nd)
    ensures AllCovered(c1, m.to, EntriesOf(m))
  {
    forall n: NodeId, q: NodeId, t: Topic | Link(c1, n, q) ensures Covered(c1, m.to, EntriesOf(m), n, q, t) {
      assert Link(c, n, q) && Covered(c, 0, [], n, q, t);
      var s := c.nodes[n].seen[t];
      if InFlight(c, q, t, s) {
        var x :| x in c.net && x.to == q && Carries(EntriesOf(x), t, s);
        if x != m { assert x in c1.net; }
      }
    }
  }

  /** A received message, told in two halves: taking it, and handling its
      entries. */
  lemma ArrivalInHalves(c: System, p: Params, m: Msg)
    requires Possible(c, Arrival(m))
    ensures var from := LabelOf(p, m.sender);
            var nd := if m.Lazy? then LearnMarks(c.nodes[m.to], from, m.marks) else c.nodes[m.to];
            var c1 := System(c.nodes[m.to := nd], c.net - multiset{m});
            NextSystem(c, p, Arrival(m)) == Install(c1, m.to, HandleEntries(nd, m.to, p.maxGap, EntriesOf(m), from))
  {
    var h, from := m.to, LabelOf(p, m.sender);
    var nd := if m.Lazy? then LearnMarks(c.nodes[h], from, m.marks) else c.nodes[h];
    if m.Eager? { OneEntry(nd, h, p.maxGap, m.entry, from); }
    var out := HandleEntries(nd, h, p.maxGap, EntriesOf(m), from);
    assert c.nodes[h := nd][h := out.node] == c.nodes[h := out.node];
  }

  lemma ArrivalSpreads(c: System, p: Params, m: Msg)
    requires Spreading(c, 0, []) && Honest(p, |c.nodes|) && Possible(c, Arrival(m))
    ensures Spreading(NextSystem(c, p, Arrival(m)), 0, [])
  {
    var h, from := m.to, LabelOf(p, m.sender);
    TakeSpreads(c, m, from);
    ArrivalInHalves(c, p, m);
    var nd := if m.Lazy? then LearnMarks(c.nodes[h], from, m.marks) else c.nodes[h];
    HandleAllSpreads(System(c.nodes[h := nd], c.net - multiset{m}), h, p.maxGap, EntriesOf(m), from);
    EmptyHand(NextSystem(c, p, Arrival(m)), h);
  }

  lemma EmptyHand(c: System, h: NodeId)
    requires Spreading(c, h, [])
    ensures Spreading(c, 0, [])
  {
    forall n: NodeId, q: NodeId, t: Topic | Link(c, n, q) ensures Covered(c, 0, [], n, q, t) {
      assert Covered(c, h, [], n, q, t);
    }
  }

  lemma EnqueueSpreads(c: System, p: Params, n: NodeId, e: Entry)
    requires Spreading(c, 0, []) && Possible(c, Enqueue(n, e))
    ensures Spreading(NextSystem(c, p, Enqueue(n, e)), 0, [])
  {
    assert Relayed(c, NextSystem(c, p, Enqueue(n, e)), n, e, LOCAL);
    RelayedSpreads(c, NextSystem(c, p, Enqueue(n, e)), 0, [], n, e, LOCAL);
  }

  lemma FlushCovers(c: System, n: NodeId, marks: seq<TopicSeq>, a: NodeId, q: NodeId, t: Topic)
    requires n < |c.nodes| && AllCovered(c, 0, [])
    requires Link(Install(c, n, Flush(c.nodes[n], n, marks)), a, q)
    ensures Covered(Install(c, n, Flush(c.nodes[n], n, marks)), 0, [], a, q, t)
  {
    var nd, out := c.nodes[n], Flush(c.nodes[n], n, marks);
    var c' := Install(c, n, out);
    FlushPeersAt(nd, n, nd.lazyPeers, marks, q);
    assert Link(c, a, q) && Covered(c, 0, [], a, q, t);
    var s := c.nodes[a].seen[t];
    if InFlight(c, q, t, s) {
      var x :| x in c.net && x.to == q && Carries(EntriesOf(x), t, s);
      assert x in c'.net;
    } else if a == n && Carries(BufFor(nd.lazy, q).entries, t, s) && BufFor(out.node.lazy, q).entries != BufFor(nd.lazy, q).entries {
      var batch := Lazy(n, q, BufFor(nd.lazy, q).entries, marks);
      assert batch in c'.net && Carries(EntriesOf(batch), t, s);
    }
  }

  lemma FlushSpreads(c: System, p: Params, n: NodeId, marks: seq<TopicSeq>)
    requires Spreading(c, 0, []) && Honest(p, |c.nodes|) && Possible(c, FlushAll(n, marks))
    ensures Spreading(NextSystem(c, p, FlushAll(n, marks)), 0, [])
  {
    var nd, c' := c.nodes[n], NextSystem(c, p, FlushAll(n, marks));
    NextTruthful(c, p, FlushAll(n, marks), {});
    FlushPeersAt(nd, n, nd.lazyPeers, marks, 0);
    forall a: NodeId, q: NodeId, t: Topic | Link(c', a, q) ensures Covered(c', 0, [], a, q, t) {
      FlushCovers(c, n, marks, a, q, t);
    }
    FlushSendersSaw(c, n, marks);
  }

  lemma FlushSendersSaw(c: System, n: NodeId, marks: seq<TopicSeq>)
    requires SendersSaw(c) && n < |c.nodes|
    ensures SendersSaw(Install(c, n, Flush(c.nodes[n], n, marks)))
  {
    var nd, c' := c.nodes[n], Install(c, n, Flush(c.nodes[n], n, marks));
    FlushPeersAt(nd, n, nd.lazyPeers, marks, 0);
    forall m <- c'.net ensures m.sender < |c'.nodes| && SeenUpTo(EntriesOf(m), c'.nodes[m.sender].seen) {
      if m !in c.net { assert SeenUpTo(BufFor(nd.lazy, m.to).entries, nd.seen); }
    }
    forall k: NodeId, q: NodeId | k < |c'.nodes| ensures SeenUpTo(BufFor(c'.nodes[k].lazy, q).entries, c'.nodes[k].seen) {
      assert SeenUpTo(BufFor(c.nodes[k].lazy, q).entries, c.nodes[k].seen);
      if k == n { FlushPeersAt(nd, n, nd.lazyPeers, marks, q); }
    }
  }

  /** Marks, buffers, overlays and the network are the same. */
  ghost predicate SameGossip(c: System, c': System) {
    && |c'.nodes| == |c.nodes| && c'.net == c.net
    && forall n: NodeId | n < |c.nodes| ::
         && c'.nodes[n].seen == c.nodes[n].seen && c'.nodes[n].lazy == c.nodes[n].lazy
         && c'.nodes[n].eagerPeers == c.nodes[n].eagerPeers && c'.nodes[n].lazyPeers == c.nodes[n].lazyPeers
  }

  lemma SameSpreads(c: System, c': System)
    requires Spreading(c, 0, []) && SameGossip(c, c')
    ensures Spreading(c', 0, [])
  {
    forall nd <- c'.nodes ensures BelievesBelow(nd, c.nodes) {
      var n :| 0 <= n < |c'.nodes| && c'.nodes[n] == nd;
      assert c.nodes[n] in c.nodes;
      SameBeliefsBelow(c.nodes[n], nd, c.nodes);
    }
    RisesKeeps(c, c', {});
    forall a: NodeId, q: NodeId, t: Topic | Link(c', a, q) ensures Covered(c', 0, [], a, q, t) {
      assert Link(c, a, q) && Covered(c, 0, [], a, q, t);
      CoveredGrows(c, c', 0, [], a, q, t);
    }
  }

  /** Timers and repairs leave all that alone. */
  lemma QuietIsSame(c: System, p: Params, ev: Cluster.Event)
    requires ev.TimerWakes? || ev.RepairHit? || ev.RepairMiss?
    ensures SameGossip(c, NextSystem(c, p, ev))
  {
  }

  // ----- Runs -----

  /** Nothing is lost, rolled back or reconfigured. */
  ghost predicate LossFree(evs: seq<Cluster.Event>) {
    forall ev <- evs :: !ev.Drop? && !ev.Reset? && !ev.Reclassify?
  }

  lemma {:induction false} AlwaysSpreading(c: System, p: Params, evs: seq<Cluster.Event>)
    requires Spreading(c, 0, []) && Honest(p, |c.nodes|) && LossFree(evs)
    ensures Spreading(Exec(c, p, evs), 0, [])
  {
    if evs != [] {
      var front, ev := evs[..|evs| - 1], evs[|evs| - 1];
      AlwaysSpreading(c, p, front);
      ExecSize(c, p, front);
      assert ev in evs;
      var c1 := Exec(c, p, front);
      if Possible(c1, ev) {
        match ev
        case Enqueue(n, e) => EnqueueSpreads(c1, p, n, e);
        case Arrival(m) => ArrivalSpreads(c1, p, m);
        case FlushAll(n, marks) => FlushSpreads(c1, p, n, marks);
        case _ =>
          QuietIsSame(c1, p, ev);
          SameSpreads(c1, NextSystem(c1, p, ev));
      }
    }
  }

  /** A way through the overlay from the first node to the last. */
  ghost predicate Path(c: System, path: seq<NodeId>) {
    path != [] && path[0] < |c.nodes| && forall i | 0 <= i < |path| - 1 :: Link(c, path[i], path[i + 1])
  }

  lemma {:induction false} MarksFollowPath(c: System, path: seq<NodeId>, t: Topic)
    requires AllCovered(c, 0, []) && Quiescent(c) && Path(c, path)
    ensures path[|path| - 1] < |c.nodes| && c.nodes[path[0]].seen[t] <= c.nodes[path[|path| - 1]].seen[t]
    decreases |path|
  {
    if |path| > 1 {
      var k := |path| - 2;
      assert Link(c, path[k], path[k + 1]);
      assert Path(c, path[..k + 1]);
      MarksFollowPath(c, path[..k + 1], t);
      assert Covered(c, 0, [], path[k], path[k + 1], t);
    }
  }

  /** An enqueued number is below the producer's mark from then on. */
  lemma {:induction false} ProducerMarked(c: System, p: Params, evs: seq<Cluster.Event>, n: NodeId, e: Entry)
    requires n < |c.nodes| && Cluster.Event.Enqueue(n, e) in evs && LossFree(evs)
    ensures |Exec(c, p, evs).nodes| == |c.nodes| && e.seqno <= Exec(c, p, evs).nodes[n].seen[e.topic]
  {
    var front, ev := evs[..|evs| - 1], evs[|evs| - 1];
    ExecSize(c, p, front);
    ExecSize(c, p, evs);
    assert ev in evs;
    if ev != Cluster.Event.Enqueue(n, e) {
      ProducerMarked(c, p, front, n, e);
      NextRises(Exec(c, p, front), p, ev, n);
    }
  }

  /** The broadcast theorem. In a run without losses, when the cluster has come
      to rest, every node that the overlay connects to a producer has a mark at
      or above every number that producer enqueued. */
  lemma Broadcast(c: System, p: Params, evs: seq<Cluster.Event>, e: Entry, path: seq<NodeId>)
    requires Spreading(c, 0, []) && Honest(p, |c.nodes|) && LossFree(evs)
    requires Quiescent(Exec(c, p, evs)) && Path(Exec(c, p, evs), path)
    requires Cluster.Event.Enqueue(path[0], e) in evs
    ensures path[|path| - 1] < |Exec(c, p, evs).nodes|
    ensures Exec(c, p, evs).nodes[path[|path| - 1]].seen[e.topic] >= e.seqno
  {
    ExecSize(c, p, evs);
    AlwaysSpreading(c, p, evs);
    ProducerMarked(c, p, evs, path[0], e);
    MarksFollowPath(Exec(c, p, evs), path, e.topic);
  }

  // ----- The common mark -----

  ghost predicate MarkEnqueued(s: Seq, start: Seq, t: Topic, all: set<Entry>) {
    s == start || exists e :: e in all && e.topic == t && e.seqno == s
  }

  lemma NextMark(c: System, p: Params, ev: Cluster.Event, n: NodeId, start: Seq, t: Topic, all: set<Entry>)
    requires n < |c.nodes| && ClusterProvenance.SystemFrom(c, all) && !ev.Reset? && (ev.Enqueue? && ev.n < |c.nodes| ==> ev.e in all)
    requires MarkEnqueued(c.nodes[n].seen[t], start, t, all)
    ensures MarkEnqueued(NextSystem(c, p, ev).nodes[n].seen[t], start, t, all)
  {
    if Possible(c, ev) && ev.Arrival? && ev.m.to == n {
      ArrivalMark(c, p, ev.m, t);
      AcceptedOffered(c.nodes[n].seen, EntriesOf(ev.m));
      assert ClusterProvenance.MsgFrom(ev.m, all);
    } else {
      OtherMark(c, p, ev, n, t);
    }
  }

  /** Every mark is where it started or the number of an entry that was enqueued. */
  lemma {:induction false} MarksAreEnqueued(c: System, p: Params, evs: seq<Cluster.Event>, n: NodeId, t: Topic)
    requires ClusterProvenance.HoldsNone(c) && n < |c.nodes| && LossFree(evs)
    ensures |Exec(c, p, evs).nodes| == |c.nodes|
    ensures MarkEnqueued(Exec(c, p, evs).nodes[n].seen[t], c.nodes[n].seen[t], t, ClusterProvenance.Enqueued(evs, |c.nodes|))
  {
    ExecSize(c, p, evs);
    if evs != [] {
      var front, ev := evs[..|evs| - 1], evs[|evs| - 1];
      assert ev in evs;
      MarksAreEnqueued(c, p, front, n, t);
      ExecSize(c, p, front);
      ClusterProvenance.Provenance(c, p, front);
      var all := ClusterProvenance.Enqueued(evs, |c.nodes|);
      assert ClusterProvenance.Enqueued(front, |c.nodes|) <= all;
      ClusterProvenance.SystemFromMore(Exec(c, p, front), ClusterProvenance.Enqueued(front, |c.nodes|), all);
      NextMark(Exec(c, p, front), p, ev, n, c.nodes[n].seen[t], t, all);
    }
  }

  /** In a cluster at rest, a node that every node has a path to has as its mark
      the larger of where it started and the largest number enqueued for the topic
      anywhere. */
  lemma MarkIsLargest(c: System, p: Params, evs: seq<Cluster.Event>, n: NodeId, t: Topic, paths: map<NodeId, seq<NodeId>>)
    requires Spreading(c, 0, []) && ClusterProvenance.HoldsNone(c)
    requires Honest(p, |c.nodes|) && LossFree(evs) && n < |c.nodes| && Quiescent(Exec(c, p, evs))
    requires forall k: NodeId | k < |c.nodes| ::
               k in paths && Path(Exec(c, p, evs), paths[k]) && paths[k][0] == k && paths[k][|paths[k]| - 1] == n
    ensures |Exec(c, p, evs).nodes| == |c.nodes|
    ensures var mark := Exec(c, p, evs).nodes[n].seen[t];
            && (forall ev <- evs :: ev.Enqueue? && ev.n < |c.nodes| && ev.e.topic == t ==> ev.e.seqno <= mark)
            && c.nodes[n].seen[t] <= mark && MarkEnqueued(mark, c.nodes[n].seen[t], t, ClusterProvenance.Enqueued(evs, |c.nodes|))
  {
    MarkIsMaximum(c, p, evs, n, t);
    MarksAreEnqueued(c, p, evs, n, t);
    forall ev <- evs | ev.Enqueue? && ev.n < |c.nodes| && ev.e.topic == t
      ensures ev.e.seqno <= Exec(c, p, evs).nodes[n].seen[t]
    {
      Broadcast(c, p, evs, ev.e, paths[ev.n]);
    }
  }
}
