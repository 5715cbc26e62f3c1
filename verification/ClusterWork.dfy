/** Timers and repairs in a cluster come to an end too: for every topic of every node
    there is a bound on how many can happen, whatever the network does.
 */
module ClusterWork {
  import opened Types
  import opened GossipNode
  import opened Cluster
  import opened ClusterForward
  import opened ClusterMarks
  import opened ClusterApplier
  import opened ClusterProvenance
  import ClusterRepair
  import S = OrderedSlot
  import R = OrderedRuns
  import W = OrderedWork

  /** A timer of the topic wakes up at the node, or a repair ends. */
  ghost predicate Works(c: System, ev: Cluster.Event, n: NodeId, t: Topic) {
    Possible(c, ev) && (ev.TimerWakes? || ev.RepairHit? || ev.RepairMiss?) && ev.n == n && ev.t == t
  }

  /** How often that happens over a run. */
  ghost function NodeWork(c: System, p: Params, evs: seq<Cluster.Event>, n: NodeId, t: Topic): nat {
    if evs == [] then 0
    else
      var front := evs[..|evs| - 1];
      NodeWork(c, p, front, n, t) + if Works(Exec(c, p, front), evs[|evs| - 1], n, t) then 1 else 0
  }

  // ----- The work of the one-topic machine -----

  lemma WorkLast(c: R.Config, maxGap: nat, evs: seq<S.Event>, ev: S.Event)
    ensures W.Work(c, maxGap, evs + [ev]) ==
            W.Work(c, maxGap, evs) + if !ev.Arrive? && S.Enabled(R.Exec(c, maxGap, evs).slot, ev) then 1 else 0
  {
    assert (evs + [ev])[..|evs|] == evs;
  }

  lemma {:induction false} WorkAppend(c: R.Config, maxGap: nat, a: seq<S.Event>, b: seq<S.Event>)
    ensures W.Work(c, maxGap, a + b) == W.Work(c, maxGap, a) + W.Work(R.Exec(c, maxGap, a), maxGap, b)
    decreases |b|
  {
    if b == [] {
      assert a + b == a;
    } else {
      var front, last := b[..|b| - 1], b[|b| - 1];
      WorkAppend(c, maxGap, a, front);
      R.ExecAppend(c, maxGap, a, front);
      WorkOneMore(c, R.Exec(c, maxGap, a), maxGap, a, front, last);
      LastApart(a, b);
    }
  }

  lemma LastApart(a: seq<S.Event>, b: seq<S.Event>)
    requires b != []
    ensures b == b[..|b| - 1] + [b[|b| - 1]] && a + b == (a + b[..|b| - 1]) + [b[|b| - 1]]
  {
  }

  lemma WorkOneMore(c: R.Config, c1: R.Config, maxGap: nat, a: seq<S.Event>, front: seq<S.Event>, last: S.Event)
    requires R.Exec(c, maxGap, a + front) == R.Exec(c1, maxGap, front)
    requires W.Work(c, maxGap, a + front) == W.Work(c, maxGap, a) + W.Work(c1, maxGap, front)
    ensures W.Work(c, maxGap, (a + front) + [last]) == W.Work(c, maxGap, a) + W.Work(c1, maxGap, front + [last])
  {
    WorkLast(c, maxGap, a + front, last);
    WorkLast(c1, maxGap, front, last);
  }

  lemma {:induction false} ArrivalsAppend(a: seq<S.Event>, b: seq<S.Event>)
    ensures W.Arrivals(a + b) == W.Arrivals(a) + W.Arrivals(b)
    decreases |b|
  {
    if b == [] {
      assert a + b == a;
    } else {
      ArrivalsAppend(a, b[..|b| - 1]);
      assert (a + b)[..|a + b| - 1] == a + b[..|b| - 1];
    }
  }

  lemma {:induction false} NoWorkInArrivals(c: R.Config, maxGap: nat, evs: seq<S.Event>)
    requires forall ev <- evs :: ev.Arrive?
    ensures W.Work(c, maxGap, evs) == 0
  {
    if evs != [] {
      assert evs[|evs| - 1] in evs;
      NoWorkInArrivals(c, maxGap, evs[..|evs| - 1]);
    }
  }

  lemma OneEvent(c: R.Config, maxGap: nat, ev: S.Event)
    ensures W.Work(c, maxGap, [ev]) == if !ev.Arrive? && S.Enabled(c.slot, ev) then 1 else 0
    ensures W.Arrivals([ev]) == if ev.Arrive? then 1 else 0
  {
    assert [ev][..0] == [];
  }

  lemma {:induction false} ArrivalsCounted(es: seq<Entry>, t: Topic)
    ensures W.Arrivals(ArrivalsOf(es, t)) == |ItemsOf(es, t)|
    decreases |es|
  {
    if es != [] {
      var first := if es[0].topic == t then [S.Arrive(es[0].seqno, es[0].payload)] else [];
      ArrivalsCounted(es[1..], t);
      ArrivalsAppend(first, ArrivalsOf(es[1..], t));
      if es[0].topic == t { OneEvent(R.Config(S.FRESH_SLOT, []), 0, first[0]); }
      assert [es[0]] + es[1..] == es && [es[0]][..0] == [];
      ItemsAppend([es[0]], es[1..], t);
    }
  }

  // ----- One event of the cluster -----

  lemma EventWorks(c: System, p: Params, ev: Cluster.Event, n: NodeId, t: Topic)
    requires n < |c.nodes| && !(ev.Reset? && ev.n == n)
    ensures W.Work(View(c.nodes[n], t), p.maxGap, TopicEvents(c, ev, n, t)) == if Works(c, ev, n, t) then 1 else 0
    ensures W.Arrivals(TopicEvents(c, ev, n, t)) == |ItemsOf(Accepts(c, ev, n), t)|
  {
    var now, v := TopicEvents(c, ev, n, t), View(c.nodes[n], t);
    if Possible(c, ev) && ev.Arrival? {
      ArrivalsListed(Accepts(c, ev, n), t);
      NoWorkInArrivals(v, p.maxGap, now);
      ArrivalsCounted(Accepts(c, ev, n), t);
    } else if Works(c, ev, n, t) {
      OneEvent(v, p.maxGap, now[0]);
    }
  }

  // ----- Runs -----

  lemma {:induction false} RunWorks(c: System, p: Params, evs: seq<Cluster.Event>, n: NodeId, t: Topic)
    requires n < |c.nodes| && forall ev <- evs :: !(ev.Reset? && ev.n == n)
    ensures W.Work(View(c.nodes[n], t), p.maxGap, TopicRun(c, p, evs, n, t)) == NodeWork(c, p, evs, n, t)
    ensures W.Arrivals(TopicRun(c, p, evs, n, t)) == |ItemsOf(AcceptLog(c, p, evs, n), t)|
  {
    if evs != [] {
      var front, ev := evs[..|evs| - 1], evs[|evs| - 1];
      assert ev in evs;
      var run, now := TopicRun(c, p, front, n, t), TopicEvents(Exec(c, p, front), ev, n, t);
      RunWorks(c, p, front, n, t);
      Projection(c, p, front, n, t);
      EventWorks(Exec(c, p, front), p, ev, n, t);
      WorkAppend(View(c.nodes[n], t), p.maxGap, run, now);
      ArrivalsAppend(run, now);
      ItemsAppend(AcceptLog(c, p, front, n), Accepts(Exec(c, p, front), ev, n), t);
    }
  }

  /** Every number of the topic is below `top`. */
  ghost predicate NumbersBelow(es: set<Entry>, t: Topic, top: nat) {
    forall e <- es :: e.topic == t ==> e.seqno < top
  }

  lemma EventBounded(c: System, ev: Cluster.Event, n: NodeId, t: Topic, all: set<Entry>, top: nat)
    requires n < |c.nodes| && !(ev.Reset? && ev.n == n) && SystemFrom(c, all) && NumbersBelow(all, t, top)
    ensures forall x <- TopicEvents(c, ev, n, t) :: W.Bounded(x, top)
  {
    if Possible(c, ev) && ev.Arrival? && ev.m.to == n {
      ArrivalsListed(Accepts(c, ev, n), t);
      AcceptedOffered(c.nodes[n].seen, EntriesOf(ev.m));
      assert MsgFrom(ev.m, all);
    } else if Possible(c, ev) && ev.RepairHit? && ev.n == n && ev.t == t {
      assert c.nodes[ev.peer] in c.nodes;
      assert Entry(t, ev.expected, c.nodes[ev.peer].cache[TopicSeq(t, ev.expected)]) in all;
    }
  }

  lemma {:induction false} RunBounded(c: System, p: Params, evs: seq<Cluster.Event>, n: NodeId, t: Topic, top: nat)
    requires HoldsNone(c) && n < |c.nodes| && forall ev <- evs :: !(ev.Reset? && ev.n == n)
    requires NumbersBelow(Enqueued(evs, |c.nodes|), t, top)
    ensures forall x <- TopicRun(c, p, evs, n, t) :: W.Bounded(x, top)
  {
    if evs != [] {
      var front, ev := evs[..|evs| - 1], evs[|evs| - 1];
      assert ev in evs;
      assert Enqueued(front, |c.nodes|) <= Enqueued(evs, |c.nodes|);
      RunBounded(c, p, front, n, t, top);
      Provenance(c, p, front);
      ExecSize(c, p, front);
      EventBounded(Exec(c, p, front), ev, n, t, Enqueued(front, |c.nodes|), top);
    }
  }

  lemma {:induction false} ClimbsAreFew(log: seq<Entry>, seen: Marks, t: Topic, top: nat)
    requires Climbs(log, seen) && forall e <- log :: e.topic == t ==> e.seqno < top
    ensures |ItemsOf(log, t)| <= top
    decreases |log|
  {
    if log != [] {
      var front, last := log[..|log| - 1], log[|log| - 1];
      assert last in log;
      ClimbsAreFew(front, seen, t, if last.topic == t then last.seqno else top);
    }
  }

  lemma AcceptedAreFew(c: System, p: Params, evs: seq<Cluster.Event>, n: NodeId, t: Topic, top: nat)
    requires HoldsNone(c) && n < |c.nodes| && forall ev <- evs :: !(ev.Reset? && ev.n == n)
    requires NumbersBelow(Enqueued(evs, |c.nodes|), t, top)
    ensures |ItemsOf(AcceptLog(c, p, evs, n), t)| <= top
  {
    AcceptsClimb(c, p, evs, n);
    ClusterRepair.TakenEnqueued(c, p, evs, n);
    assert forall e <- AcceptLog(c, p, evs, n) :: e in Taken(c, p, evs, n);
    ClimbsAreFew(AcceptLog(c, p, evs, n), Exec(c, p, evs).nodes[n].seen, t, top);
  }

  lemma Polynomial(top: nat, floor: nat)
    requires floor <= top
    ensures (top - floor) * (4 * top + 2) + 2 * (top - floor) + 2 * top <= 4 * top * top + 6 * top
  {
    assert (top - floor) * (4 * top + 2) <= top * (4 * top + 2);
    assert top * (4 * top + 2) == 4 * top * top + 2 * top;
  }

  lemma QuietAccount(slot: S.Slot, top: nat)
    requires slot.pending == map[] && slot.sleeping == multiset{} && slot.repairing == multiset{} && slot.next <= top <= MAX_SEQ
    ensures W.Below(slot, top) && W.Tokens(slot) == 0
    ensures W.Account(slot, top, top) + 2 * top <= 4 * top * top + 6 * top
  {
    W.AboveNone(slot.next, top);
    assert W.Floor(slot) == slot.next;
    Polynomial(top, slot.next);
  }

  /** In every run from a cluster without entries, with new entries, losses and
      overlay changes at will, at a node that is not reset and has no timer to
      begin with: if the numbers of a topic are below `top`, at most 4 top^2 + 6 top
      timers of that topic ever wake up or repairs end. */
  lemma TopicWorkBounded(c: System, p: Params, evs: seq<Cluster.Event>, n: NodeId, t: Topic, top: nat)
    requires HoldsNone(c) && n < |c.nodes| && forall ev <- evs :: !(ev.Reset? && ev.n == n)
    requires NumbersBelow(Enqueued(evs, |c.nodes|), t, top) && c.nodes[n].slots[t].next <= top <= MAX_SEQ
    requires c.nodes[n].slots[t].sleeping == multiset{} && c.nodes[n].slots[t].repairing == multiset{}
    requires !c.nodes[n].slots[t].armed
    ensures NodeWork(c, p, evs, n, t) <= 4 * top * top + 6 * top
  {
    var v, run := View(c.nodes[n], t), TopicRun(c, p, evs, n, t);
    assert c.nodes[n] in c.nodes;
    assert SlotFrom(c.nodes[n].slots[t], t, {});
    assert v.slot.pending == map[];
    RunWorks(c, p, evs, n, t);
    RunBounded(c, p, evs, n, t, top);
    AcceptedAreFew(c, p, evs, n, t, top);
    QuietAccount(v.slot, top);
    W.WorkBounded(v, p.maxGap, run, top, top);
  }
}
