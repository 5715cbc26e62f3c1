/** The appliers of a cluster: what each of them is fed over a whole run, and what
    that means for what its node delivers.
 */
module ClusterApplier {
  import opened Types
  import opened GossipNode
  import opened Cluster
  import opened ClusterForward
  import opened ClusterMarks
  import S = OrderedSlot
  import R = OrderedRuns
  import L = OrderedLedger

  /** The entries of one topic, in order. */
  function ItemsOf(es: seq<Entry>, t: Topic): seq<S.Item> {
    if es == [] then []
    else
      var front, e := ItemsOf(es[..|es| - 1], t), es[|es| - 1];
      if e.topic == t then front + [S.Item(e.seqno, e.payload)] else front
  }

  lemma {:induction false} ItemsAppend(a: seq<Entry>, b: seq<Entry>, t: Topic)
    ensures ItemsOf(a + b, t) == ItemsOf(a, t) + ItemsOf(b, t)
    decreases |b|
  {
    if b == [] {
      assert a + b == a;
    } else {
      ItemsAppend(a, b[..|b| - 1], t);
      assert (a + b)[..|a + b| - 1] == a + b[..|b| - 1];
    }
  }

  lemma {:induction false} ItemsOfTag(u: Topic, out: seq<S.Item>, t: Topic)
    ensures ItemsOf(S.Tag(u, out), t) == if u == t then out else []
    decreases |out|
  {
    if out != [] {
      var front := out[..|out| - 1];
      ItemsOfTag(u, front, t);
      assert S.Tag(u, out)[..|out| - 1] == S.Tag(u, front);
      assert front + [out[|out| - 1]] == out;
    }
  }

  lemma {:induction false} ItemsAreListed(es: seq<Entry>, t: Topic, e: Entry)
    requires e in es && e.topic == t
    ensures S.Item(e.seqno, e.payload) in ItemsOf(es, t)
  {
    if es[|es| - 1] != e { ItemsAreListed(es[..|es| - 1], t, e); }
  }

  /** A topic of a node as a configuration of the one-topic machine. */
  ghost function View(nd: Node, t: Topic): R.Config {
    R.Config(nd.slots[t], ItemsOf(nd.delivered, t))
  }

  // ----- What a cluster event is to one topic of one node -----

  function ArrivalsOf(es: seq<Entry>, t: Topic): seq<S.Event>
    decreases |es|
  {
    if es == [] then []
    else (if es[0].topic == t then [S.Arrive(es[0].seqno, es[0].payload)] else []) + ArrivalsOf(es[1..], t)
  }

  ghost function TopicEvents(c: System, ev: Cluster.Event, n: NodeId, t: Topic): seq<S.Event> {
    if !Possible(c, ev) then [] else
    match ev
    case Arrival(m) => ArrivalsOf(Accepts(c, ev, n), t)
    case TimerWakes(k, u, x) => if k == n && u == t then [S.TimerWakes(x)] else []
    case RepairHit(k, u, x, peer) => if k == n && u == t then [S.RepairHit(x, c.nodes[peer].cache[TopicSeq(u, x)])] else []
    case RepairMiss(k, u, x) => if k == n && u == t then [S.RepairMiss(x)] else []
    case Reset(k, u, s) => if k == n && u == t then [S.Reset(Inc(s))] else []
    case _ => []
  }

  ghost function TopicRun(c: System, p: Params, evs: seq<Cluster.Event>, n: NodeId, t: Topic): seq<S.Event> {
    if evs == [] then []
    else
      var front := evs[..|evs| - 1];
      TopicRun(c, p, front, n, t) + TopicEvents(Exec(c, p, front), evs[|evs| - 1], n, t)
  }

  // ----- The projection -----

  lemma ApplyProjects(nd: Node, maxGap: nat, e: Entry, t: Topic)
    ensures View(Apply(nd, maxGap, e), t) ==
            if e.topic == t then R.Next(View(nd, t), maxGap, S.Arrive(e.seqno, e.payload)) else View(nd, t)
  {
    var out := S.Receive(nd.slots[e.topic], maxGap, e.seqno, e.payload).out;
    ItemsAppend(nd.delivered, S.Tag(e.topic, out), t);
    ItemsOfTag(e.topic, out, t);
  }

  lemma {:induction false} EntriesProject(nd: Node, self: NodeId, maxGap: nat, es: seq<Entry>, from: Label, t: Topic)
    ensures View(HandleEntries(nd, self, maxGap, es, from).node, t) ==
            R.Exec(View(nd, t), maxGap, ArrivalsOf(AcceptedOf(nd.seen, es), t))
    decreases |es|
  {
    if es != [] {
      var e := es[0];
      var nd1 := HandleEntry(nd, self, maxGap, e, from).node;
      HandleEntrySeen(nd, self, maxGap, e, from);
      EntriesProject(nd1, self, maxGap, es[1..], from, t);
      if IsNew(nd, e) {
        ApplyProjects(CacheIt(MarkSeen(nd, e), e), maxGap, e, t);
        FirstArrival(View(nd, t), maxGap, e, AcceptedOf(nd1.seen, es[1..]), t);
      }
    }
  }

  lemma FirstArrival(c: R.Config, maxGap: nat, e: Entry, es: seq<Entry>, t: Topic)
    ensures R.Exec(c, maxGap, ArrivalsOf([e] + es, t)) ==
            R.Exec(if e.topic == t then R.Next(c, maxGap, S.Arrive(e.seqno, e.payload)) else c, maxGap, ArrivalsOf(es, t))
  {
    assert ([e] + es)[1..] == es;
    if e.topic == t {
      R.ExecCons(c, maxGap, S.Arrive(e.seqno, e.payload), ArrivalsOf(es, t));
    } else {
      assert [] + ArrivalsOf(es, t) == ArrivalsOf(es, t);
    }
  }

  lemma MsgProjects(nd: Node, self: NodeId, maxGap: nat, m: Msg, from: Label, t: Topic)
    ensures View(HandleMsg(nd, self, maxGap, m, from).node, t) ==
            R.Exec(View(nd, t), maxGap, ArrivalsOf(AcceptedOf(nd.seen, EntriesOf(m)), t))
  {
    var nd1 := if m.Lazy? then LearnMarks(nd, from, m.marks) else nd;
    EntriesProject(nd1, self, maxGap, EntriesOf(m), from, t);
    if m.Eager? { OneEntry(nd, self, maxGap, m.entry, from); }
  }

  lemma StepProjects(nd: Node, maxGap: nat, u: Topic, ev: S.Event, t: Topic)
    ensures View(StepSlot(nd, maxGap, u, ev), t) == if u == t then R.Next(View(nd, t), maxGap, ev) else View(nd, t)
  {
    var out := S.Step(nd.slots[u], maxGap, ev).out;
    ItemsAppend(nd.delivered, S.Tag(u, out), t);
    ItemsOfTag(u, out, t);
  }

  lemma ExecOne(c: R.Config, maxGap: nat, ev: S.Event)
    ensures R.Exec(c, maxGap, [ev]) == R.Next(c, maxGap, ev)
  {
    assert [ev][..0] == [];
  }

  /** Events of the node's own timers, repairs and resets. */
  lemma OwnEventProjects(c: System, p: Params, ev: Cluster.Event, n: NodeId, t: Topic)
    requires Possible(c, ev) && (ev.TimerWakes? || ev.RepairHit? || ev.RepairMiss? || ev.Reset?) && ev.n == n
    ensures View(NextSystem(c, p, ev).nodes[n], t) == R.Exec(View(c.nodes[n], t), p.maxGap, TopicEvents(c, ev, n, t))
  {
    var nd, v := c.nodes[n], View(c.nodes[n], t);
    match ev
    case TimerWakes(_, u, x) =>
      StepProjects(nd, p.maxGap, u, S.TimerWakes(x), t);
      ExecOne(v, p.maxGap, S.TimerWakes(x));
    case RepairHit(_, u, x, peer) =>
      var hit := S.RepairHit(x, c.nodes[peer].cache[TopicSeq(u, x)]);
      StepProjects(nd, p.maxGap, u, hit, t);
      ExecOne(v, p.maxGap, hit);
    case RepairMiss(_, u, x) =>
      StepProjects(nd, p.maxGap, u, S.RepairMiss(x), t);
      ExecOne(v, p.maxGap, S.RepairMiss(x));
    case Reset(_, u, s) =>
      ExecOne(v, p.maxGap, S.Reset(Inc(s)));
      assert v.log + [] == v.log;
  }

  lemma NextProjects(c: System, p: Params, ev: Cluster.Event, n: NodeId, t: Topic)
    requires n < |c.nodes|
    ensures View(NextSystem(c, p, ev).nodes[n], t) == R.Exec(View(c.nodes[n], t), p.maxGap, TopicEvents(c, ev, n, t))
  {
    if Possible(c, ev) {
      match ev
      case Arrival(m) =>
        if m.to == n { MsgProjects(c.nodes[n], n, p.maxGap, m, LabelOf(p, m.sender), t); }
      case FlushAll(k, marks) => FlushPeersAt(c.nodes[k], k, c.nodes[k].lazyPeers, marks, 0);
      case Enqueue(_, _) =>
      case Drop(_) =>
      case Reclassify(_, _, _) =>
      case _ => if ev.n == n { OwnEventProjects(c, p, ev, n, t); }
    }
  }

  /** In every run of the cluster, every topic of every node is a run of the
      one-topic machine, fed with exactly the entries the node accepted, its
      timers, its repairs and its resets. */
  lemma {:induction false} Projection(c: System, p: Params, evs: seq<Cluster.Event>, n: NodeId, t: Topic)
    requires n < |c.nodes|
    ensures |Exec(c, p, evs).nodes| == |c.nodes|
    ensures View(Exec(c, p, evs).nodes[n], t) == R.Exec(View(c.nodes[n], t), p.maxGap, TopicRun(c, p, evs, n, t))
  {
    ExecSize(c, p, evs);
    if evs != [] {
      var front, ev := evs[..|evs| - 1], evs[|evs| - 1];
      ExecSize(c, p, front);
      Projection(c, p, front, n, t);
      NextProjects(Exec(c, p, front), p, ev, n, t);
      R.ExecAppend(View(c.nodes[n], t), p.maxGap, TopicRun(c, p, front, n, t), TopicEvents(Exec(c, p, front), ev, n, t));
    }
  }

  // ----- What follows for what a node delivers -----

  /** The machine's conservation law, for a node in a cluster: everything its
      applier was given for a topic is delivered, buffered, dropped as old,
      overwritten or cleared, each exactly once. */
  lemma NodeConservation(c: System, p: Params, evs: seq<Cluster.Event>, n: NodeId, t: Topic)
    requires n < |c.nodes|
    ensures |Exec(c, p, evs).nodes| == |c.nodes|
    ensures var nd := Exec(c, p, evs).nodes[n];
            var b := L.Audit(View(c.nodes[n], t), p.maxGap, TopicRun(c, p, evs, n, t));
            b.received == multiset(ItemsOf(nd.delivered, t)) + b.dropped + b.overwritten + b.cleared + L.Buffered(nd.slots[t].pending)
  {
    Projection(c, p, evs, n, t);
    L.Conservation(View(c.nodes[n], t), p.maxGap, TopicRun(c, p, evs, n, t));
  }

  /** Ordered delivery in a cluster: while no accepted entry jumps over buffered
      ones and the topic is not reset, a node that starts in order goes on
      delivering the numbers of a topic in strictly increasing order. */
  lemma OrderedAtNode(c: System, p: Params, evs: seq<Cluster.Event>, n: NodeId, t: Topic, lo: nat)
    requires n < |c.nodes| && StartsOrdered(c.nodes[n], p.maxGap, t, lo)
    requires R.SafeRun(View(c.nodes[n], t), p.maxGap, TopicRun(c, p, evs, n, t))
    ensures |Exec(c, p, evs).nodes| == |c.nodes|
    ensures var nd := Exec(c, p, evs).nodes[n];
            StartsOrdered(nd, p.maxGap, t, lo) && c.nodes[n].slots[t].next <= nd.slots[t].next
  {
    Projection(c, p, evs, n, t);
    R.OrderedDelivery(View(c.nodes[n], t), p.maxGap, TopicRun(c, p, evs, n, t), lo);
  }

  /** The buffer lies in the window, and the deliveries of the topic so far strictly
      increase, from `lo` on and below `next`. */
  ghost predicate StartsOrdered(nd: Node, maxGap: nat, t: Topic, lo: nat) {
    && R.InWindow(nd.slots[t], maxGap) && lo <= nd.slots[t].next
    && R.Increasing(ItemsOf(nd.delivered, t), lo, nd.slots[t].next)
  }

  // ----- Late entries -----

  /** The event neither resets the node nor brings it a repaired entry. */
  ghost predicate Untouched(ev: Cluster.Event, n: NodeId) {
    !(ev.Reset? && ev.n == n) && !(ev.RepairHit? && ev.n == n)
  }

  ghost predicate SlotWithin(slot: S.Slot, all: set<S.Item>) {
    forall k <- slot.pending :: S.Item(k, slot.pending[k]) in all
  }

  /** The events bring no repaired entry, and no arrival that is not listed. */
  ghost predicate FedBy(evs: seq<S.Event>, all: set<S.Item>) {
    forall ev <- evs :: !ev.RepairHit? && (ev.Arrive? ==> S.Item(ev.seqno, ev.payload) in all)
  }

  /** A run of the machine without repair hits delivers only what arrived. */
  lemma {:induction false} DeliversArrivals(c: R.Config, maxGap: nat, evs: seq<S.Event>, all: set<S.Item>)
    requires (forall it <- c.log :: it in all) && SlotWithin(c.slot, all)
    requires FedBy(evs, all)
    ensures (forall it <- R.Exec(c, maxGap, evs).log :: it in all) && SlotWithin(R.Exec(c, maxGap, evs).slot, all)
  {
    if evs != [] {
      var front, ev := evs[..|evs| - 1], evs[|evs| - 1];
      assert ev in evs;
      DeliversArrivals(c, maxGap, front, all);
      S.StepProvenance(R.Exec(c, maxGap, front).slot, maxGap, ev);
    }
  }

  ghost function ItemSet(es: seq<Entry>, t: Topic): set<S.Item> {
    set e | e in es && e.topic == t :: S.Item(e.seqno, e.payload)
  }

  lemma {:induction false} ArrivalsListed(es: seq<Entry>, t: Topic)
    ensures forall ev <- ArrivalsOf(es, t) :: ev.Arrive? && S.Item(ev.seqno, ev.payload) in ItemSet(es, t)
    decreases |es|
  {
    if es != [] {
      ArrivalsListed(es[1..], t);
      assert ItemSet(es[1..], t) <= ItemSet(es, t);
    }
  }

  lemma ItemSetAppend(a: seq<Entry>, b: seq<Entry>, t: Topic)
    ensures ItemSet(a, t) <= ItemSet(a + b, t) && ItemSet(b, t) <= ItemSet(a + b, t)
  {
  }

  lemma FedTogether(a: seq<S.Event>, b: seq<S.Event>, x: set<S.Item>, y: set<S.Item>, all: set<S.Item>)
    requires FedBy(a, x) && FedBy(b, y) && x <= all && y <= all
    ensures FedBy(a + b, all)
  {
  }

  lemma EventIsFed(c: System, ev: Cluster.Event, n: NodeId, t: Topic)
    requires Untouched(ev, n)
    ensures FedBy(TopicEvents(c, ev, n, t), ItemSet(Accepts(c, ev, n), t))
  {
    ArrivalsListed(Accepts(c, ev, n), t);
  }

  lemma {:induction false} RunIsFed(c: System, p: Params, evs: seq<Cluster.Event>, n: NodeId, t: Topic)
    requires forall ev <- evs :: Untouched(ev, n)
    ensures FedBy(TopicRun(c, p, evs, n, t), ItemSet(AcceptLog(c, p, evs, n), t))
  {
    if evs != [] {
      var front, ev := evs[..|evs| - 1], evs[|evs| - 1];
      assert ev in evs;
      var c1, log := Exec(c, p, front), AcceptLog(c, p, front, n);
      RunIsFed(c, p, front, n, t);
      EventIsFed(c1, ev, n, t);
      ItemSetAppend(log, Accepts(c1, ev, n), t);
      FedTogether(TopicRun(c, p, front, n, t), TopicEvents(c1, ev, n, t),
                  ItemSet(log, t), ItemSet(Accepts(c1, ev, n), t), ItemSet(AcceptLog(c, p, evs, n), t));
    }
  }

  /** The node has delivered the number or holds it in its reorder buffer. */
  ghost predicate Had(nd: Node, k: TopicSeq) {
    (exists e :: e in nd.delivered && KeyOf(e) == k) || k.seqno in nd.slots[k.topic].pending
  }

  ghost function HeldItems(c: R.Config): set<S.Item> {
    (set it | it in c.log) + (set k | k in c.slot.pending :: S.Item(k, c.slot.pending[k]))
  }

  lemma {:induction false} ItemsComeFrom(es: seq<Entry>, t: Topic, it: S.Item)
    requires it in ItemsOf(es, t)
    ensures Entry(t, it.seqno, it.payload) in es
  {
    if es[|es| - 1] != Entry(t, it.seqno, it.payload) { ItemsComeFrom(es[..|es| - 1], t, it); }
  }

  /** From any state, without repairs a node delivers only entries it accepted and
      numbers it had before. */
  lemma DeliveredWasAccepted(c: System, p: Params, evs: seq<Cluster.Event>, n: NodeId, e: Entry)
    requires n < |c.nodes| && forall ev <- evs :: Untouched(ev, n)
    requires |Exec(c, p, evs).nodes| == |c.nodes| && e in Exec(c, p, evs).nodes[n].delivered
    ensures e in AcceptLog(c, p, evs, n) || Had(c.nodes[n], KeyOf(e))
  {
    var t, v, fed := e.topic, View(c.nodes[n], e.topic), ItemSet(AcceptLog(c, p, evs, n), e.topic);
    Projection(c, p, evs, n, t);
    RunIsFed(c, p, evs, n, t);
    DeliversArrivals(v, p.maxGap, TopicRun(c, p, evs, n, t), fed + HeldItems(v));
    ItemsAreListed(Exec(c, p, evs).nodes[n].delivered, t, e);
    if S.Item(e.seqno, e.payload) in fed {
      FedIsAccepted(AcceptLog(c, p, evs, n), e);
    } else {
      HeldWasHad(c.nodes[n], e);
    }
  }

  lemma FedIsAccepted(log: seq<Entry>, e: Entry)
    requires S.Item(e.seqno, e.payload) in ItemSet(log, e.topic)
    ensures e in log
  {
  }

  lemma HeldWasHad(nd: Node, e: Entry)
    requires S.Item(e.seqno, e.payload) in HeldItems(View(nd, e.topic))
    ensures Had(nd, KeyOf(e))
  {
    if S.Item(e.seqno, e.payload) in ItemsOf(nd.delivered, e.topic) {
      ItemsComeFrom(nd.delivered, e.topic, S.Item(e.seqno, e.payload));
      assert e in nd.delivered;
    }
  }

  lemma {:induction false} AcceptedAbove(seen: Marks, es: seq<Entry>)
    ensures forall e <- AcceptedOf(seen, es) :: e.seqno > seen[e.topic]
    decreases |es|
  {
    if es != [] {
      var e := es[0];
      AcceptedAbove(if e.seqno > seen[e.topic] then seen[e.topic := e.seqno] else seen, es[1..]);
    }
  }

  lemma AcceptsAbove(c: System, ev: Cluster.Event, n: NodeId)
    requires n < |c.nodes|
    ensures forall e <- Accepts(c, ev, n) :: e.seqno > c.nodes[n].seen[e.topic]
  {
    if Possible(c, ev) && ev.Arrival? && ev.m.to == n { AcceptedAbove(c.nodes[n].seen, EntriesOf(ev.m)); }
  }

  /** Every entry is listed or lies above the marks. */
  ghost predicate ListedOrAbove(log: seq<Entry>, listed: seq<Entry>, marks: Marks) {
    forall e <- log :: e in listed || e.seqno > marks[e.topic]
  }

  lemma AppendAbove(log: seq<Entry>, added: seq<Entry>, listed: seq<Entry>, marks: Marks, now: Marks)
    requires ListedOrAbove(log, listed, marks) && forall t: Topic :: marks[t] <= now[t]
    requires forall e <- added :: e.seqno > now[e.topic]
    ensures ListedOrAbove(log + added, listed, marks)
  {
  }

  /** From any point of a run on, a node accepts only what lies above its marks
      at that point. */
  lemma {:induction false} LaterAbove(c: System, p: Params, evs: seq<Cluster.Event>, k: nat, n: NodeId)
    requires n < |c.nodes| && k <= |evs| && forall ev <- evs :: Untouched(ev, n)
    ensures |Exec(c, p, evs[..k]).nodes| == |Exec(c, p, evs).nodes| == |c.nodes|
    ensures var marks := Exec(c, p, evs[..k]).nodes[n].seen;
            && (forall t: Topic :: marks[t] <= Exec(c, p, evs).nodes[n].seen[t])
            && ListedOrAbove(AcceptLog(c, p, evs, n), AcceptLog(c, p, evs[..k], n), marks)
  {
    ExecSize(c, p, evs[..k]);
    ExecSize(c, p, evs);
    if k == |evs| {
      assert evs[..k] == evs;
    } else {
      var front, ev := evs[..|evs| - 1], evs[|evs| - 1];
      assert ev in evs;
      assert front[..k] == evs[..k];
      LaterAbove(c, p, front, k, n);
      var c1 := Exec(c, p, front);
      NextRises(c1, p, ev, n);
      AcceptsAbove(c1, ev, n);
      AppendAbove(AcceptLog(c, p, front, n), Accepts(c1, ev, n), AcceptLog(c, p, evs[..k], n),
                  Exec(c, p, evs[..k]).nodes[n].seen, c1.nodes[n].seen);
    }
  }

  /** A late entry is lost without repair. Once a node's mark has passed a number
      that the node did not accept and did not have at the start, a run without
      repairs and resets of the node never delivers that number, however often it
      still arrives. */
  lemma LateNeverDelivered(c: System, p: Params, evs: seq<Cluster.Event>, k: nat, n: NodeId, late: TopicSeq)
    requires n < |c.nodes| && !Had(c.nodes[n], late) && k <= |evs| && forall ev <- evs :: Untouched(ev, n)
    requires |Exec(c, p, evs[..k]).nodes| == |c.nodes| && late.seqno <= Exec(c, p, evs[..k]).nodes[n].seen[late.topic]
    requires forall e <- AcceptLog(c, p, evs[..k], n) :: KeyOf(e) != late
    ensures |Exec(c, p, evs).nodes| == |c.nodes|
    ensures forall e <- Exec(c, p, evs).nodes[n].delivered :: KeyOf(e) != late
  {
    LaterAbove(c, p, evs, k, n);
    forall e <- Exec(c, p, evs).nodes[n].delivered ensures KeyOf(e) != late {
      DeliveredWasAccepted(c, p, evs, n, e);
    }
  }

  // ----- Which arrivals reach the applier -----

  lemma AboveMark(mark: Seq, start: Seq, log: seq<Entry>, t: Topic, s: Seq)
    requires MarkOf(mark, start, log, t)
    ensures s > mark <==> s > start && forall e <- log :: e.topic == t ==> e.seqno < s
  {
  }

  /** The entry's number is above the mark its topic started with and above every
      number of its topic in the log. */
  ghost predicate AboveAll(e: Entry, start: Marks, log: seq<Entry>) {
    e.seqno > start[e.topic] && forall x <- log :: x.topic == e.topic ==> x.seqno < e.seqno
  }

  /** The entries of a list that are, each in its turn, above everything before:
      where the marks started, in the log, and in the list itself. */
  ghost function Records(start: Marks, log: seq<Entry>, es: seq<Entry>): seq<Entry>
    decreases |es|
  {
    if es == [] then []
    else (if AboveAll(es[0], start, log) then [es[0]] else []) + Records(start, log + [es[0]], es[1..])
  }

  ghost predicate MarksOf(seen: Marks, start: Marks, log: seq<Entry>) {
    forall t: Topic :: MarkOf(seen[t], start[t], log, t)
  }

  lemma MarksMove(seen: Marks, start: Marks, log: seq<Entry>, e: Entry)
    requires MarksOf(seen, start, log)
    ensures e.seqno > seen[e.topic] <==> AboveAll(e, start, log)
    ensures MarksOf(if e.seqno > seen[e.topic] then seen[e.topic := e.seqno] else seen, start, log + [e])
  {
    AboveMark(seen[e.topic], start[e.topic], log, e.topic, e.seqno);
    var seen' := if e.seqno > seen[e.topic] then seen[e.topic := e.seqno] else seen;
    forall t: Topic ensures MarkOf(seen'[t], start[t], log + [e], t) {
      MarkGrows(seen[t], seen'[t], start[t], log, log + [e], [e], t);
    }
  }

  lemma {:induction false} AcceptedAreRecords(seen: Marks, start: Marks, log: seq<Entry>, es: seq<Entry>)
    requires MarksOf(seen, start, log)
    ensures AcceptedOf(seen, es) == Records(start, log, es)
    decreases |es|
  {
    if es != [] {
      var e := es[0];
      MarksMove(seen, start, log, e);
      AcceptedAreRecords(if e.seqno > seen[e.topic] then seen[e.topic := e.seqno] else seen, start, log + [e], es[1..]);
      assert [] + Records(start, log + [e], es[1..]) == Records(start, log + [e], es[1..]);
    }
  }

  /** Exactly the arrivals in increasing order reach the applier. Of a message,
      eager or lazy, those entries are handed on, each in its turn, whose number
      is above the mark the node started with, above every number of the topic
      that it accepted or enqueued since, and above every earlier one of the
      message. */
  lemma HandedOnIff(c: System, p: Params, evs: seq<Cluster.Event>, m: Msg, t: Topic)
    requires m.to < |c.nodes| && forall ev <- evs :: !(ev.Reset? && ev.n == m.to)
    requires m in Exec(c, p, evs).net
    ensures TopicEvents(Exec(c, p, evs), Arrival(m), m.to, t) ==
            ArrivalsOf(Records(c.nodes[m.to].seen, Taken(c, p, evs, m.to), EntriesOf(m)), t)
  {
    ExecSize(c, p, evs);
    var seen := Exec(c, p, evs).nodes[m.to].seen;
    forall u: Topic ensures MarkOf(seen[u], c.nodes[m.to].seen[u], Taken(c, p, evs, m.to), u) {
      MarkIsMaximum(c, p, evs, m.to, u);
    }
    AcceptedAreRecords(seen, c.nodes[m.to].seen, Taken(c, p, evs, m.to), EntriesOf(m));
  }
}
