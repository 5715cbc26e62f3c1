/** What becomes of what a node accepts: without repairs all of it is delivered or
    still buffered, arrivals release nothing but themselves, and when entries are
    left stranded.
 */
module ClusterDelivery {
  import opened Types
  import opened GossipNode
  import opened Cluster
  import opened ClusterForward
  import opened ClusterMarks
  import opened ClusterApplier
  import opened OrderedFeed
  import opened OrderedLedger
  import S = OrderedSlot
  import R = OrderedRuns
  import G = GapResolution
  import Limits = OrderedLimits

  // ----- Everything accepted is delivered or buffered -----

  /** The deliveries of the topic and the entries still buffered. */
  ghost function Held(nd: Node, t: Topic): multiset<S.Item> {
    multiset(ItemsOf(nd.delivered, t)) + Buffered(nd.slots[t].pending)
  }

  /** Nothing the node expects or buffers lies beyond its mark. */
  ghost predicate WithinMark(nd: Node, t: Topic) {
    Within(nd.slots[t], nd.seen[t])
  }

  /** From one node state to the next, exactly the entries of the topic in the list
      are added to what is held. */
  ghost predicate Gains(nd: Node, nd': Node, t: Topic, es: seq<Entry>) {
    WithinMark(nd', t) && Held(nd', t) == Held(nd, t) + multiset(ItemsOf(es, t))
  }

  lemma AddUp(l: multiset<S.Item>, b: multiset<S.Item>, o: multiset<S.Item>, b': multiset<S.Item>, a: multiset<S.Item>)
    requires o + b' == b + a
    ensures (l + o) + b' == (l + b) + a
  {
    assert (l + o) + b' == l + (o + b');
    assert l + (b + a) == (l + b) + a;
  }

  /** A step of the topic that hands on `out`. */
  lemma HeldAfter(nd: Node, nd': Node, t: Topic, out: seq<S.Item>, added: multiset<S.Item>)
    requires ItemsOf(nd'.delivered, t) == ItemsOf(nd.delivered, t) + out
    requires multiset(out) + Buffered(nd'.slots[t].pending) == Buffered(nd.slots[t].pending) + added
    ensures Held(nd', t) == Held(nd, t) + added
  {
    var l := ItemsOf(nd.delivered, t);
    assert multiset(l + out) == multiset(l) + multiset(out);
    AddUp(multiset(l), Buffered(nd.slots[t].pending), multiset(out), Buffered(nd'.slots[t].pending), added);
  }

  lemma GainsThen(a: Node, b: Node, d: Node, t: Topic, es: seq<Entry>, more: seq<Entry>)
    requires Gains(a, b, t, es) && Gains(b, d, t, more)
    ensures Gains(a, d, t, es + more)
  {
    var x, y := ItemsOf(es, t), ItemsOf(more, t);
    ItemsAppend(es, more, t);
    assert multiset(x + y) == multiset(x) + multiset(y);
    assert (Held(a, t) + multiset(x)) + multiset(y) == Held(a, t) + (multiset(x) + multiset(y));
  }

  lemma GainsNothingThen(a: Node, b: Node, d: Node, t: Topic)
    requires Gains(a, b, t, []) && Gains(b, d, t, [])
    ensures Gains(a, d, t, [])
  {
    GainsThen(a, b, d, t, [], []);
    var none: seq<Entry> := [];
    assert none + none == none;
  }

  lemma GainsNone(nd: Node, nd': Node, t: Topic)
    requires WithinMark(nd, t) && nd'.slots[t] == nd.slots[t] && nd'.delivered == nd.delivered && nd.seen[t] <= nd'.seen[t]
    ensures Gains(nd, nd', t, [])
  {
    HigherMark(nd.slots[t], nd.seen[t], nd'.seen[t]);
    assert multiset(ItemsOf([], t)) == multiset{};
  }

  lemma ItemsOfOne(e: Entry, t: Topic)
    ensures ItemsOf([e], t) == if e.topic == t then [S.Item(e.seqno, e.payload)] else []
  {
    assert [e][..0] == [];
  }

  lemma EntryGains(nd: Node, self: NodeId, maxGap: nat, e: Entry, from: Label, t: Topic)
    requires WithinMark(nd, t) && IsNew(nd, e) && e.seqno < MAX_SEQ
    ensures Gains(nd, HandleEntry(nd, self, maxGap, e, from).node, t, [e])
  {
    var nd' := HandleEntry(nd, self, maxGap, e, from).node;
    ApplyProjects(CacheIt(MarkSeen(nd, e), e), maxGap, e, t);
    ItemsOfOne(e, t);
    if e.topic == t {
      var it := S.Item(e.seqno, e.payload);
      FeedArrival(nd.slots[t], maxGap, it, nd.seen[t]);
      HeldAfter(nd, nd', t, S.Receive(nd.slots[t], maxGap, e.seqno, e.payload).out, multiset{it});
    } else {
      HeldSame(nd, nd', t);
    }
  }

  lemma HeldSame(nd: Node, nd': Node, t: Topic)
    requires ItemsOf(nd'.delivered, t) == ItemsOf(nd.delivered, t) && nd'.slots[t] == nd.slots[t]
    ensures Held(nd', t) == Held(nd, t) + multiset([])
  {
  }

  lemma {:induction false} EntriesGain(nd: Node, self: NodeId, maxGap: nat, es: seq<Entry>, from: Label, t: Topic)
    requires WithinMark(nd, t) && forall e <- AcceptedOf(nd.seen, es) :: e.seqno < MAX_SEQ
    ensures Gains(nd, HandleEntries(nd, self, maxGap, es, from).node, t, AcceptedOf(nd.seen, es))
    decreases |es|
  {
    if es == [] {
      GainsNone(nd, nd, t);
    } else {
      var e := es[0];
      var nd1 := HandleEntry(nd, self, maxGap, e, from).node;
      HandleEntrySeen(nd, self, maxGap, e, from);
      if IsNew(nd, e) {
        var rest := AcceptedOf(nd1.seen, es[1..]);
        assert forall x <- rest :: x in AcceptedOf(nd.seen, es);
        EntryGains(nd, self, maxGap, e, from, t);
        EntriesGain(nd1, self, maxGap, es[1..], from, t);
        GainsThen(nd, nd1, HandleEntries(nd1, self, maxGap, es[1..], from).node, t, [e], rest);
      } else {
        EntriesGain(nd1, self, maxGap, es[1..], from, t);
      }
    }
  }

  lemma MsgGains(nd: Node, self: NodeId, maxGap: nat, m: Msg, from: Label, t: Topic)
    requires WithinMark(nd, t) && forall e <- AcceptedOf(nd.seen, EntriesOf(m)) :: e.seqno < MAX_SEQ
    ensures Gains(nd, HandleMsg(nd, self, maxGap, m, from).node, t, AcceptedOf(nd.seen, EntriesOf(m)))
  {
    var nd1 := if m.Lazy? then LearnMarks(nd, from, m.marks) else nd;
    EntriesGain(nd1, self, maxGap, EntriesOf(m), from, t);
    if m.Eager? { OneEntry(nd, self, maxGap, m.entry, from); }
  }

  lemma StepGains(nd: Node, maxGap: nat, u: Topic, ev: S.Event, t: Topic)
    requires WithinMark(nd, t) && (ev.TimerWakes? || ev.RepairMiss?)
    ensures Gains(nd, StepSlot(nd, maxGap, u, ev), t, [])
  {
    var nd' := StepSlot(nd, maxGap, u, ev);
    StepProjects(nd, maxGap, u, ev, t);
    assert multiset(ItemsOf([], t)) == multiset{};
    if u == t {
      FeedTimer(nd.slots[t], maxGap, ev, nd.seen[t]);
      HeldAfter(nd, nd', t, S.Step(nd.slots[t], maxGap, ev).out, multiset{});
    }
  }

  lemma OtherGains(c: System, p: Params, ev: Cluster.Event, n: NodeId, t: Topic)
    requires n < |c.nodes| && Untouched(ev, n) && WithinMark(c.nodes[n], t) && !(Possible(c, ev) && ev.Arrival? && ev.m.to == n)
    ensures Gains(c.nodes[n], NextSystem(c, p, ev).nodes[n], t, [])
  {
    if Possible(c, ev) && ev.TimerWakes? && ev.n == n {
      StepGains(c.nodes[n], p.maxGap, ev.t, S.TimerWakes(ev.expected), t);
    } else if Possible(c, ev) && ev.RepairMiss? && ev.n == n {
      StepGains(c.nodes[n], p.maxGap, ev.t, S.RepairMiss(ev.expected), t);
    } else {
      if Possible(c, ev) && ev.FlushAll? { FlushPeersAt(c.nodes[ev.n], ev.n, c.nodes[ev.n].lazyPeers, ev.marks, 0); }
      OtherMark(c, p, ev, n, t);
      GainsNone(c.nodes[n], NextSystem(c, p, ev).nodes[n], t);
    }
  }

  /** In every run in which a node is neither reset nor repaired, from any state in
      which it expects and buffers nothing beyond its mark: its deliveries of a
      topic and its buffer gain exactly the entries it accepts, each once. Nothing
      is dropped, overwritten or lost. */
  lemma {:induction false} AcceptedEndsUp(c: System, p: Params, evs: seq<Cluster.Event>, n: NodeId, t: Topic)
    requires n < |c.nodes| && WithinMark(c.nodes[n], t) && (forall ev <- evs :: Untouched(ev, n))
    requires forall e <- AcceptLog(c, p, evs, n) :: e.seqno < MAX_SEQ
    ensures |Exec(c, p, evs).nodes| == |c.nodes|
    ensures Gains(c.nodes[n], Exec(c, p, evs).nodes[n], t, AcceptLog(c, p, evs, n))
  {
    ExecSize(c, p, evs);
    if evs == [] {
      GainsNone(c.nodes[n], c.nodes[n], t);
    } else {
      var front, ev := evs[..|evs| - 1], evs[|evs| - 1];
      assert ev in evs;
      var c1 := Exec(c, p, front);
      ExecSize(c, p, front);
      AcceptedEndsUp(c, p, front, n, t);
      if Possible(c1, ev) && ev.Arrival? && ev.m.to == n {
        MsgGains(c1.nodes[n], n, p.maxGap, ev.m, LabelOf(p, ev.m.sender), t);
      } else {
        OtherGains(c1, p, ev, n, t);
      }
      GainsThen(c.nodes[n], c1.nodes[n], Exec(c, p, evs).nodes[n], t, AcceptLog(c, p, front, n), Accepts(c1, ev, n));
    }
  }

  // ----- Arrivals release nothing else -----

  /** Without repairs, an arrival delivers itself or nothing: the reorder buffer
      never puts network arrivals back in order. */
  lemma ArrivalReleasesItself(c: System, p: Params, evs: seq<Cluster.Event>, n: NodeId, e: Entry)
    requires n < |c.nodes| == |Exec(c, p, evs).nodes| && WithinMark(c.nodes[n], e.topic) && (forall ev <- evs :: Untouched(ev, n))
    requires forall x <- AcceptLog(c, p, evs, n) :: x.seqno < MAX_SEQ
    requires IsNew(Exec(c, p, evs).nodes[n], e) && e.seqno < MAX_SEQ
    ensures var out := S.Receive(Exec(c, p, evs).nodes[n].slots[e.topic], p.maxGap, e.seqno, e.payload).out;
            out == [] || out == [S.Item(e.seqno, e.payload)]
  {
    AcceptedEndsUp(c, p, evs, n, e.topic);
    var nd := Exec(c, p, evs).nodes[n];
    FeedArrival(nd.slots[e.topic], p.maxGap, S.Item(e.seqno, e.payload), nd.seen[e.topic]);
  }

  /** With repairs, an arrival may release repaired entries behind it, but never
      an entry that the node accepted or enqueued: so only a repair hit, or the
      skip after a missed one, ever delivers a buffered entry that was accepted.
      This holds from any state, for numbers below the last one. */
  lemma ArrivalReleasesNoneTaken(c: System, p: Params, evs: seq<Cluster.Event>, n: NodeId, e: Entry)
    requires n < |c.nodes| == |Exec(c, p, evs).nodes| && (forall ev <- evs :: !(ev.Reset? && ev.n == n))
    requires S.NoWrap(c.nodes[n].slots[e.topic].pending)
    requires Limits.AllBelowLast(View(c.nodes[n], e.topic), p.maxGap, TopicRun(c, p, evs, n, e.topic))
    requires IsNew(Exec(c, p, evs).nodes[n], e) && e.seqno < MAX_SEQ
    ensures forall it <- S.Receive(Exec(c, p, evs).nodes[n].slots[e.topic], p.maxGap, e.seqno, e.payload).out ::
              it == S.Item(e.seqno, e.payload) || forall x <- Taken(c, p, evs, n) :: KeyOf(x) != TopicSeq(e.topic, it.seqno)
  {
    MarkIsMaximum(c, p, evs, n, e.topic);
    Projection(c, p, evs, n, e.topic);
    Limits.RunNoWrap(View(c.nodes[n], e.topic), p.maxGap, TopicRun(c, p, evs, n, e.topic));
    ReleasesAbove(Exec(c, p, evs).nodes[n].slots[e.topic], p.maxGap, e.seqno, e.payload);
  }

  // ----- Missed repairs deliver everything -----

  /** The gap timer of a topic fires and its repair misses. */
  ghost function FireMissed(nd: Node, maxGap: nat, t: Topic): Node {
    var x := nd.slots[t].next;
    StepSlot(StepSlot(nd, maxGap, t, S.TimerWakes(x)), maxGap, t, S.RepairMiss(x))
  }

  lemma FireMissedGains(nd: Node, maxGap: nat, t: Topic)
    requires WithinMark(nd, t)
    ensures Gains(nd, FireMissed(nd, maxGap, t), t, [])
  {
    var x := nd.slots[t].next;
    var woken := StepSlot(nd, maxGap, t, S.TimerWakes(x));
    StepGains(nd, maxGap, t, S.TimerWakes(x), t);
    StepGains(woken, maxGap, t, S.RepairMiss(x), t);
    GainsNothingThen(nd, woken, FireMissed(nd, maxGap, t), t);
  }

  /** One such fire after the other. */
  ghost predicate MissTrace(nds: seq<Node>, maxGap: nat, t: Topic) {
    nds != [] && forall i | 0 <= i < |nds| - 1 :: nds[i + 1] == FireMissed(nds[i], maxGap, t)
  }

  /** The node after `k` missed fires: it holds the same, and its slot is that of the
      one-topic machine. */
  ghost predicate FiredTo(nd: Node, nd': Node, maxGap: nat, t: Topic, k: nat) {
    Gains(nd, nd', t, []) && nd'.slots[t] == G.AfterMisses(nd.slots[t], maxGap, k)
  }

  lemma OneMoreFire(nd: Node, before: Node, after: Node, maxGap: nat, t: Topic, k: nat)
    requires FiredTo(nd, before, maxGap, t, k) && after == FireMissed(before, maxGap, t)
    ensures FiredTo(nd, after, maxGap, t, k + 1)
  {
    FireMissedGains(before, maxGap, t);
    GainsNothingThen(nd, before, after, t);
    G.OneMoreMiss(nd.slots[t], maxGap, k);
  }

  lemma {:induction false} MissTraceGains(nds: seq<Node>, maxGap: nat, t: Topic, k: nat)
    requires MissTrace(nds, maxGap, t) && WithinMark(nds[0], t) && k < |nds|
    ensures FiredTo(nds[0], nds[k], maxGap, t, k)
    decreases k
  {
    if k == 0 {
      GainsNone(nds[0], nds[0], t);
    } else {
      MissTraceGains(nds, maxGap, t, k - 1);
      OneMoreFire(nds[0], nds[k - 1], nds[k], maxGap, t, k - 1);
    }
  }

  /** So once a node that was neither reset nor repaired is left with a timer asleep
      at `next` and everything buffered above it, as many fires as there are runs
      of consecutive buffered numbers, all missed, deliver everything the node ever
      accepted: nothing stays buffered. */
  lemma MissedFiresDeliverAll(c: System, p: Params, evs: seq<Cluster.Event>, n: NodeId, t: Topic, nds: seq<Node>)
    requires n < |c.nodes| == |Exec(c, p, evs).nodes| && WithinMark(c.nodes[n], t) && (forall ev <- evs :: Untouched(ev, n))
    requires forall e <- AcceptLog(c, p, evs, n) :: e.seqno < MAX_SEQ
    requires MissTrace(nds, p.maxGap, t) && nds[0] == Exec(c, p, evs).nodes[n]
    requires G.Poised(nds[0].slots[t]) && nds[0].slots[t].pending != map[]
    requires |nds| - 1 >= |G.RunStarts(nds[0].slots[t].pending.Keys)|
    ensures var nd := nds[|nds| - 1];
            && nd.slots[t].pending == map[]
            && multiset(ItemsOf(nd.delivered, t)) == Held(c.nodes[n], t) + multiset(ItemsOf(AcceptLog(c, p, evs, n), t))
  {
    var nd := nds[|nds| - 1];
    AcceptedEndsUp(c, p, evs, n, t);
    MissTraceGains(nds, p.maxGap, t, |nds| - 1);
    G.MissesCountRuns(nds[0].slots[t], p.maxGap, |nds| - 1);
    GainsThen(c.nodes[n], nds[0], nd, t, AcceptLog(c, p, evs, n), []);
    assert AcceptLog(c, p, evs, n) + [] == AcceptLog(c, p, evs, n);
    assert Buffered(map[]) == multiset{};
  }

  // ----- Stranded entries -----

  /** In a cluster: a node's entries of a topic are stranded if and only if some
      event of its topic run stranded them and no later one rescued them. */
  lemma StrandedAtNode(c: System, p: Params, evs: seq<Cluster.Event>, n: NodeId, t: Topic)
    requires n < |c.nodes| && R.OneTimer(c.nodes[n].slots[t]) && S.NoWrap(c.nodes[n].slots[t].pending)
    requires !Limits.Stranded(c.nodes[n].slots[t])
    requires Limits.AllBelowLast(View(c.nodes[n], t), p.maxGap, TopicRun(c, p, evs, n, t))
    ensures |Exec(c, p, evs).nodes| == |c.nodes|
    ensures Limits.Stranded(Exec(c, p, evs).nodes[n].slots[t]) <==>
            Limits.StrandedAtSome(View(c.nodes[n], t), p.maxGap, TopicRun(c, p, evs, n, t))
  {
    Projection(c, p, evs, n, t);
    Limits.StrandedIff(View(c.nodes[n], t), p.maxGap, TopicRun(c, p, evs, n, t));
  }

  /** A node gets there: it accepts entry 3, then entry 100, and the timer that
      entry 3 started wakes up. */
  lemma StrandedExample(nd: Node, self: NodeId, a: Bytes, b: Bytes, from: Label)
    requires nd.slots[7] == S.FRESH_SLOT
    ensures var nd0 := SetInitialSeq(nd, 7, 0);
            var nd1 := HandleEntry(nd0, self, 64, Entry(7, 3, a), from).node;
            var nd2 := HandleEntry(nd1, self, 64, Entry(7, 100, b), from).node;
            var nd3 := StepSlot(nd2, 64, 7, S.TimerWakes(1));
            nd2.delivered == nd.delivered + [Entry(7, 100, b)] && Limits.Stranded(nd3.slots[7]) && nd3.slots[7].pending == map[3 := a]
  {
    var low := map[3 as Seq := a];
    assert 3 in low;
    var slot0 := S.SetNext(S.FRESH_SLOT, 1);
    var slot1 := S.Slot(1, low, true, multiset{1 as Seq}, multiset{});
    assert S.Receive(slot0, 64, 3, a) == S.Effect(slot1, []);
    Limits.DrainStops(101, low);
    assert S.Receive(slot1, 64, 100, b) == S.Effect(slot1.(next := 101), [S.Item(100, b)]);
    assert S.Tag(7, []) == [] && S.Tag(7, [S.Item(100, b)]) == [Entry(7, 100, b)];
    assert multiset{1 as Seq} - multiset{1 as Seq} == multiset{};
  }
}
