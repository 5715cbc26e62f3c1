/** What a cluster can repair: caches stay within their bound, a node that took
    few enough entries still has them all, and a repair pulled from it delivers
    the missing entry.
 */
module ClusterRepair {
  import opened Types
  import opened GossipNode
  import opened Cluster
  import opened ClusterForward
  import opened ClusterMarks
  import opened ClusterProvenance
  import OrderedSlot

  ghost predicate Holds(cache: map<TopicSeq, Bytes>, es: seq<Entry>) {
    forall e <- es :: KeyOf(e) in cache
  }

  ghost function KeysOf(es: seq<Entry>): set<TopicSeq> {
    set e | e in es :: KeyOf(e)
  }

  // ----- One insertion -----

  /** How a cache changes when it takes an entry: the entry is cached, at most
      one other leaves, and only a full cache loses any. */
  ghost predicate TakesOne(a: set<TopicSeq>, b: set<TopicSeq>, e: Entry) {
    && KeyOf(e) in b && b <= a + {KeyOf(e)} && |b| <= |a| + 1
    && (|a| <= MAX_REPAIR_CACHE ==> |b| <= MAX_REPAIR_CACHE)
    && (|a| < MAX_REPAIR_CACHE ==> a <= b)
  }

  lemma CacheItFacts(nd: Node, e: Entry)
    ensures TakesOne(nd.cache.Keys, CacheIt(nd, e).cache.Keys, e)
  {
    var kept, cache := Kept(nd), CacheIt(nd, e).cache;
    assert cache.Keys == kept.Keys + {KeyOf(e)};
    if CacheFull(nd) { assert kept.Keys == nd.cache.Keys - {Victim(nd)}; }
  }

  lemma EntryIsCached(nd: Node, self: NodeId, maxGap: nat, e: Entry, from: Label)
    requires IsNew(nd, e)
    ensures TakesOne(nd.cache.Keys, HandleEntry(nd, self, maxGap, e, from).node.cache.Keys, e)
  {
    CacheItFacts(MarkSeen(nd, e), e);
  }

  /** A full cache may lose an entry even when it takes none that is new. */
  lemma RepeatEvicts(nd: Node, self: NodeId, e: Entry)
    requires CacheFull(nd) && KeyOf(e) in nd.cache
    requires nd.victims != [] && nd.victims[0] in nd.cache && nd.victims[0] != KeyOf(e)
    ensures nd.victims[0] !in HandleLocal(nd, self, e).node.cache
  {
  }

  // ----- Batches and events -----

  /** Few enough entries to come: counted with repeats they fit, or counted
      without they leave room. */
  ghost predicate Room(keys: set<TopicSeq>, es: seq<Entry>) {
    |keys| + |es| <= MAX_REPAIR_CACHE || |keys + KeysOf(es)| < MAX_REPAIR_CACHE
  }

  lemma KeysOfCons(e: Entry, es: seq<Entry>)
    ensures KeysOf([e] + es) == {KeyOf(e)} + KeysOf(es)
  {
    assert ([e] + es)[0] == e && forall x <- es :: x in [e] + es;
  }

  lemma RoomForOne(a: set<TopicSeq>, b: set<TopicSeq>, e: Entry, es: seq<Entry>)
    requires Room(a, [e] + es) && b <= a + {KeyOf(e)} && |b| <= |a| + 1
    ensures |a| < MAX_REPAIR_CACHE && Room(b, es)
  {
    var all := a + KeysOf([e] + es);
    KeysOfCons(e, es);
    SubsetSize(a, all);
    SubsetSize(b + KeysOf(es), all);
  }

  /** What a node keeps while it has room: everything. */
  ghost predicate KeepsAll(a: set<TopicSeq>, b: set<TopicSeq>, es: seq<Entry>) {
    b == a + KeysOf(es) && |b| <= |a| + |es|
  }

  lemma KeepsNone(keys: set<TopicSeq>)
    ensures KeepsAll(keys, keys, [])
  {
    assert keys + KeysOf([]) == keys;
  }

  lemma KeepsMore(a: set<TopicSeq>, b: set<TopicSeq>, d: set<TopicSeq>, e: Entry, es: seq<Entry>)
    requires Room(a, [e] + es) && TakesOne(a, b, e) && (Room(b, es) ==> KeepsAll(b, d, es))
    ensures KeepsAll(a, d, [e] + es)
  {
    RoomForOne(a, b, e, es);
    KeysOfCons(e, es);
    assert d == a + ({KeyOf(e)} + KeysOf(es));
  }

  lemma {:induction false} HandledStaysBounded(nd: Node, self: NodeId, maxGap: nat, es: seq<Entry>, from: Label)
    requires |nd.cache.Keys| <= MAX_REPAIR_CACHE
    ensures |HandleEntries(nd, self, maxGap, es, from).node.cache.Keys| <= MAX_REPAIR_CACHE
    decreases |es|
  {
    if es != [] {
      if IsNew(nd, es[0]) { EntryIsCached(nd, self, maxGap, es[0], from); }
      HandledStaysBounded(HandleEntry(nd, self, maxGap, es[0], from).node, self, maxGap, es[1..], from);
    }
  }

  lemma {:induction false} HandledAreCached(nd: Node, self: NodeId, maxGap: nat, es: seq<Entry>, from: Label)
    requires Room(nd.cache.Keys, AcceptedOf(nd.seen, es))
    ensures KeepsAll(nd.cache.Keys, HandleEntries(nd, self, maxGap, es, from).node.cache.Keys, AcceptedOf(nd.seen, es))
    decreases |es|
  {
    if es == [] {
      KeepsNone(nd.cache.Keys);
    } else {
      var e := es[0];
      var nd1 := HandleEntry(nd, self, maxGap, e, from).node;
      HandleEntrySeen(nd, self, maxGap, e, from);
      var rest := AcceptedOf(nd1.seen, es[1..]);
      if IsNew(nd, e) {
        EntryIsCached(nd, self, maxGap, e, from);
        RoomForOne(nd.cache.Keys, nd1.cache.Keys, e, rest);
        HandledAreCached(nd1, self, maxGap, es[1..], from);
        KeepsMore(nd.cache.Keys, nd1.cache.Keys, HandleEntries(nd1, self, maxGap, es[1..], from).node.cache.Keys, e, rest);
      } else {
        HandledAreCached(nd1, self, maxGap, es[1..], from);
      }
    }
  }

  /** How a cache changes with the entries its node takes. */
  ghost predicate CacheStep(a: set<TopicSeq>, b: set<TopicSeq>, took: seq<Entry>) {
    && (|a| <= MAX_REPAIR_CACHE ==> |b| <= MAX_REPAIR_CACHE)
    && (Room(a, took) ==> KeepsAll(a, b, took))
  }

  lemma MsgIsCached(nd: Node, self: NodeId, maxGap: nat, m: Msg, from: Label)
    ensures CacheStep(nd.cache.Keys, HandleMsg(nd, self, maxGap, m, from).node.cache.Keys, AcceptedOf(nd.seen, EntriesOf(m)))
  {
    var nd1 := if m.Lazy? then LearnMarks(nd, from, m.marks) else nd;
    if |nd.cache.Keys| <= MAX_REPAIR_CACHE { HandledStaysBounded(nd1, self, maxGap, EntriesOf(m), from); }
    if Room(nd.cache.Keys, AcceptedOf(nd.seen, EntriesOf(m))) { HandledAreCached(nd1, self, maxGap, EntriesOf(m), from); }
    if m.Eager? { OneEntry(nd, self, maxGap, m.entry, from); }
  }

  lemma LocalIsCached(nd: Node, self: NodeId, e: Entry)
    ensures CacheStep(nd.cache.Keys, HandleLocal(nd, self, e).node.cache.Keys, [e])
  {
    var cache := HandleLocal(nd, self, e).node.cache.Keys;
    CacheItFacts(MarkSeen(nd, e), e);
    assert [e] + [] == [e];
    KeepsNone(cache);
    if Room(nd.cache.Keys, [e]) { KeepsMore(nd.cache.Keys, cache, cache, e, []); }
  }

  lemma OtherIsCached(c: System, p: Params, ev: Cluster.Event, n: NodeId)
    requires n < |c.nodes| && !(Possible(c, ev) && ((ev.Arrival? && ev.m.to == n) || (ev.Enqueue? && ev.n == n)))
    ensures NextSystem(c, p, ev).nodes[n].cache == c.nodes[n].cache
  {
    if Possible(c, ev) {
      if ev.FlushAll? {
        FlushPeersAt(c.nodes[ev.n], ev.n, c.nodes[ev.n].lazyPeers, ev.marks, 0);
      } else if ev.Arrival? || ev.Enqueue? {
        ElsewhereIsCached(c, p, ev, n);
      }
    }
  }

  lemma ElsewhereIsCached(c: System, p: Params, ev: Cluster.Event, n: NodeId)
    requires n < |c.nodes| && Possible(c, ev) && ((ev.Arrival? && ev.m.to != n) || (ev.Enqueue? && ev.n != n))
    ensures NextSystem(c, p, ev).nodes[n] == c.nodes[n]
  {
  }

  lemma NextHolds(c: System, p: Params, ev: Cluster.Event, n: NodeId)
    requires n < |c.nodes|
    ensures CacheStep(c.nodes[n].cache.Keys, NextSystem(c, p, ev).nodes[n].cache.Keys, Takes(c, ev, n))
  {
    if Possible(c, ev) && ev.Arrival? && ev.m.to == n {
      MsgIsCached(c.nodes[n], n, p.maxGap, ev.m, LabelOf(p, ev.m.sender));
      assert Takes(c, ev, n) == Accepts(c, ev, n);
    } else if Possible(c, ev) && ev.Enqueue? && ev.n == n {
      LocalIsCached(c.nodes[n], n, ev.e);
      assert Takes(c, ev, n) == [ev.e];
    } else {
      OtherIsCached(c, p, ev, n);
      assert Takes(c, ev, n) == [];
      KeepsNone(c.nodes[n].cache.Keys);
    }
  }

  // ----- Runs -----

  /** No cache ever exceeds its bound. */
  lemma {:induction false} CacheBounded(c: System, p: Params, evs: seq<Cluster.Event>, n: NodeId)
    requires n < |c.nodes| && |c.nodes[n].cache| <= MAX_REPAIR_CACHE
    ensures |Exec(c, p, evs).nodes| == |c.nodes|
    ensures |Exec(c, p, evs).nodes[n].cache| <= MAX_REPAIR_CACHE
  {
    ExecSize(c, p, evs);
    if evs != [] {
      CacheBounded(c, p, evs[..|evs| - 1], n);
      NextHolds(Exec(c, p, evs[..|evs| - 1]), p, evs[|evs| - 1], n);
    }
  }

  /** Few enough entries for a cache never to give one up: at most
      MAX_REPAIR_CACHE, or fewer than that many different ones. */
  ghost predicate Few(es: seq<Entry>) {
    |es| <= MAX_REPAIR_CACHE || |KeysOf(es)| < MAX_REPAIR_CACHE
  }

  lemma FewLeavesRoom(keys: set<TopicSeq>, before: seq<Entry>, added: seq<Entry>, after: seq<Entry>)
    requires keys == KeysOf(before) && |keys| <= |before|
    requires |after| == |before| + |added| && (forall e :: e in after <==> e in before || e in added) && Few(after)
    ensures Room(keys, added) && KeysOf(after) == keys + KeysOf(added)
  {
    assert KeysOf(after) == keys + KeysOf(added);
  }

  lemma {:induction false} CacheIsTaken(c: System, p: Params, evs: seq<Cluster.Event>, n: NodeId)
    requires n < |c.nodes| && c.nodes[n].cache == map[] && Few(Taken(c, p, evs, n))
    ensures |Exec(c, p, evs).nodes| == |c.nodes|
    ensures var keys := Exec(c, p, evs).nodes[n].cache.Keys;
            keys == KeysOf(Taken(c, p, evs, n)) && |keys| <= |Taken(c, p, evs, n)|
  {
    ExecSize(c, p, evs);
    if evs != [] {
      var front, ev := evs[..|evs| - 1], evs[|evs| - 1];
      var c1 := Exec(c, p, front);
      ExecSize(c, p, front);
      TakenGrows(c, p, evs, n);
      FewBefore(Taken(c, p, front, n), Takes(c1, ev, n), Taken(c, p, evs, n));
      CacheIsTaken(c, p, front, n);
      FewLeavesRoom(c1.nodes[n].cache.Keys, Taken(c, p, front, n), Takes(c1, ev, n), Taken(c, p, evs, n));
      NextHolds(c1, p, ev, n);
    }
  }

  lemma FewBefore(before: seq<Entry>, added: seq<Entry>, after: seq<Entry>)
    requires |after| == |before| + |added| && (forall e :: e in after <==> e in before || e in added) && Few(after)
    ensures Few(before)
  {
    SubsetSize(KeysOf(before), KeysOf(after));
  }

  /** A node that took few enough entries has every one of them in its cache. */
  lemma CacheHolds(c: System, p: Params, evs: seq<Cluster.Event>, n: NodeId)
    requires n < |c.nodes| && c.nodes[n].cache == map[] && Few(Taken(c, p, evs, n))
    ensures |Exec(c, p, evs).nodes| == |c.nodes|
    ensures Holds(Exec(c, p, evs).nodes[n].cache, Taken(c, p, evs, n))
  {
    CacheIsTaken(c, p, evs, n);
  }

  // ----- Repairs -----

  /** Whatever a node took was enqueued in the run. */
  lemma {:induction false} TakenEnqueued(c: System, p: Params, evs: seq<Cluster.Event>, n: NodeId)
    requires HoldsNone(c)
    ensures forall e <- Taken(c, p, evs, n) :: e in Enqueued(evs, |c.nodes|)
  {
    if evs != [] {
      var front, ev := evs[..|evs| - 1], evs[|evs| - 1];
      TakenEnqueued(c, p, front, n);
      ExecSize(c, p, front);
      Provenance(c, p, front);
      TakenGrows(c, p, evs, n);
      assert Enqueued(front, |c.nodes|) <= Enqueued(evs, |c.nodes|);
      TakesEnqueued(Exec(c, p, front), ev, n, Enqueued(front, |c.nodes|));
    }
  }

  lemma TakesEnqueued(c: System, ev: Cluster.Event, n: NodeId, all: set<Entry>)
    requires SystemFrom(c, all)
    ensures forall e <- Takes(c, ev, n) :: e in all || (ev.Enqueue? && ev.n < |c.nodes| && ev.e == e)
  {
    if Possible(c, ev) && ev.Arrival? && ev.m.to == n {
      AcceptedOffered(c.nodes[n].seen, EntriesOf(ev.m));
      assert MsgFrom(ev.m, all);
    }
  }

  /** A hit at the number the slot waits for is delivered at once. */
  lemma HitDelivers(nd: Node, maxGap: nat, t: Topic, x: Seq, payload: Bytes)
    requires x in nd.slots[t].repairing && nd.slots[t].next == x
    ensures var nd' := StepSlot(nd, maxGap, t, OrderedSlot.RepairHit(x, payload));
            && |nd'.delivered| > |nd.delivered| && nd.delivered <= nd'.delivered
            && nd'.delivered[|nd.delivered|] == Entry(t, x, payload)
  {
  }

  /** A timer of the node asked for the entry's number, and the number is still
      the next one. */
  ghost predicate WaitsFor(c: System, n: NodeId, e: Entry) {
    && n < |c.nodes|
    && e.seqno in c.nodes[n].slots[e.topic].repairing && c.nodes[n].slots[e.topic].next == e.seqno
  }

  /** The first thing the node delivers with the step is the entry. */
  ghost predicate DeliveredNext(c: System, c': System, n: NodeId, e: Entry) {
    && n < |c.nodes| == |c'.nodes|
    && var before, after := c.nodes[n].delivered, c'.nodes[n].delivered;
       |after| > |before| && before <= after && after[|before|] == e
  }

  /** A node that waits for a number, and has delivered nothing in between, gets
      the missing entry delivered next by a repair from any node that took that
      entry among few enough. */
  lemma Repairable(c: System, p: Params, evs: seq<Cluster.Event>, n: NodeId, e: Entry, waiting: NodeId)
    requires HoldsNone(c) && n < |c.nodes| && e in Taken(c, p, evs, n) && Few(Taken(c, p, evs, n))
    requires OnePayloadEach(Enqueued(evs, |c.nodes|))
    requires WaitsFor(Exec(c, p, evs), waiting, e)
    ensures DeliveredNext(Exec(c, p, evs), NextSystem(Exec(c, p, evs), p, Cluster.Event.RepairHit(waiting, e.topic, e.seqno, n)), waiting, e)
  {
    var c1, all := Exec(c, p, evs), Enqueued(evs, |c.nodes|);
    EmptyCache(c, n);
    CacheHolds(c, p, evs, n);
    TakenEnqueued(c, p, evs, n);
    Provenance(c, p, evs);
    CachedPayload(c1, n, e, all);
    RepairDelivers(c1, p, n, e, waiting);
  }

  lemma EmptyCache(c: System, n: NodeId)
    requires HoldsNone(c) && n < |c.nodes|
    ensures c.nodes[n].cache == map[]
  {
    assert c.nodes[n] in c.nodes;
  }

  lemma CachedPayload(c: System, n: NodeId, e: Entry, all: set<Entry>)
    requires SystemFrom(c, all) && OnePayloadEach(all) && n < |c.nodes| && e in all && KeyOf(e) in c.nodes[n].cache
    ensures c.nodes[n].cache[KeyOf(e)] == e.payload
  {
    assert c.nodes[n] in c.nodes;
    assert Entry(e.topic, e.seqno, c.nodes[n].cache[KeyOf(e)]) in all;
  }

  lemma RepairDelivers(c: System, p: Params, n: NodeId, e: Entry, waiting: NodeId)
    requires n < |c.nodes| && WaitsFor(c, waiting, e) && KeyOf(e) in c.nodes[n].cache && c.nodes[n].cache[KeyOf(e)] == e.payload
    ensures DeliveredNext(c, NextSystem(c, p, Cluster.Event.RepairHit(waiting, e.topic, e.seqno, n)), waiting, e)
  {
    HitDelivers(c.nodes[waiting], p.maxGap, e.topic, e.seqno, e.payload);
  }
}
