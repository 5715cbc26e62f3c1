/** Duplicate detection under concurrency: any number of threads, each load,
    compare-and-swap and index update a step of its own, in any interleaving.
 */
module SeenRace {
  import opened Types

  /** Where a thread is inside a call. */
  datatype PC =
    | Idle
    | Loading(op: TopicSeq)
    | Swapping(op: TopicSeq, seen: Seq)
    | Checking(topic: Topic)
    | Inserting(topic: Topic)

  /** A call that has taken effect: an offer with its answer, or an assignment
      of a mark. */
  datatype Call = Offer(op: TopicSeq, ok: bool) | Assign(op: TopicSeq)

  datatype Machine = Machine(
    marks: Marks,
    active: set<Topic>,
    pcs: seq<PC>,
    offered: seq<TopicSeq>,
    calls: seq<Call>)

  datatype Event = Begin(i: nat, op: TopicSeq) | Store(i: nat, op: TopicSeq) | Advance(i: nat)

  function Marking(t: Topic, first: bool): PC {
    if first then Checking(t) else Idle
  }

  /** One step of thread `i` inside its call. */
  function Move(m: Machine, i: nat): Machine
    requires i < |m.pcs|
  {
    match m.pcs[i]
    case Idle => m
    case Loading(op) =>
      var seen := m.marks[op.topic];
      if op.seqno <= seen then m.(pcs := m.pcs[i := Idle], calls := m.calls + [Offer(op, false)])
      else m.(pcs := m.pcs[i := Swapping(op, seen)])
    case Swapping(op, seen) =>
      if m.marks[op.topic] != seen then m.(pcs := m.pcs[i := Loading(op)])
      else m.(marks := m.marks[op.topic := op.seqno],
           pcs := m.pcs[i := Marking(op.topic, seen == 0)],
           calls := m.calls + [Offer(op, true)])
    case Checking(t) => m.(pcs := m.pcs[i := if t in m.active then Idle else Inserting(t)])
    case Inserting(t) => m.(pcs := m.pcs[i := Idle], active := m.active + {t})
  }

  /** An event of a thread that cannot take it is ignored. */
  function Step(m: Machine, ev: Event): Machine {
    if ev.i >= |m.pcs| then m else
    match ev
    case Advance(i) => Move(m, i)
    case Begin(i, op) =>
      if m.pcs[i] != Idle then m
      else m.(pcs := m.pcs[i := Loading(op)], offered := m.offered + [op])
    case Store(i, op) =>
      if m.pcs[i] != Idle then m
      else m.(marks := m.marks[op.topic := op.seqno],
           pcs := m.pcs[i := Marking(op.topic, op.seqno > 0)],
           calls := m.calls + [Assign(op)])
  }

  function Exec(m: Machine, evs: seq<Event>): Machine {
    if evs == [] then m else Step(Exec(m, evs[..|evs| - 1]), evs[|evs| - 1])
  }

  ghost predicate Initial(m: Machine) {
    m.offered == [] && m.calls == [] && forall pc <- m.pcs :: pc == Idle
  }

  // ----- Linearizability -----

  /** The marks after running the calls one at a time. */
  function Replay(marks: Marks, calls: seq<Call>): Marks {
    if calls == [] then marks
    else
      var before, last := Replay(marks, calls[..|calls| - 1]), calls[|calls| - 1];
      if last.Assign? || last.op.seqno > before[last.op.topic] then before[last.op.topic := last.op.seqno] else before
  }

  /** Every answer is the one the call gets when run in its turn. */
  ghost predicate AnswersRight(marks: Marks, calls: seq<Call>) {
    calls == [] ||
    var front, last := calls[..|calls| - 1], calls[|calls| - 1];
    AnswersRight(marks, front) && (last.Offer? ==> (last.ok <==> last.op.seqno > Replay(marks, front)[last.op.topic]))
  }

  /** A thread about to swap read a mark below its number. */
  ghost predicate SwapsUp(m: Machine) {
    forall pc <- m.pcs :: pc.Swapping? ==> pc.op.seqno > pc.seen
  }

  lemma StepSwapsUp(m: Machine, ev: Event)
    requires SwapsUp(m)
    ensures SwapsUp(Step(m, ev))
  {
  }

  lemma StepLinear(m0: Machine, m: Machine, ev: Event)
    requires SwapsUp(m)
    requires Replay(m0.marks, m.calls) == m.marks && AnswersRight(m0.marks, m.calls)
    ensures var m' := Step(m, ev);
            Replay(m0.marks, m'.calls) == m'.marks && AnswersRight(m0.marks, m'.calls)
  {
    var m' := Step(m, ev);
    if m'.calls != m.calls {
      assert m'.calls[..|m'.calls| - 1] == m.calls;
    }
  }

  /** Every interleaving of offers and assignments is explained by running the
      calls one at a time in the order of their decisive steps: same answers,
      same marks. */
  lemma {:induction false} Linearizable(m: Machine, evs: seq<Event>)
    requires Initial(m)
    ensures var m' := Exec(m, evs);
            && SwapsUp(m')
            && Replay(m.marks, m'.calls) == m'.marks
            && AnswersRight(m.marks, m'.calls)
  {
    if evs != [] {
      Linearizable(m, evs[..|evs| - 1]);
      StepSwapsUp(Exec(m, evs[..|evs| - 1]), evs[|evs| - 1]);
      StepLinear(m, Exec(m, evs[..|evs| - 1]), evs[|evs| - 1]);
    }
  }

  // ----- Without assignments: at most one winner, and the final mark -----

  ghost predicate NoStores(evs: seq<Event>) {
    forall ev <- evs :: !ev.Store?
  }

  ghost predicate OnlyOffers(calls: seq<Call>) {
    forall c <- calls :: c.Offer?
  }

  lemma {:induction false} OffersOnly(m: Machine, evs: seq<Event>)
    requires Initial(m) && NoStores(evs)
    ensures OnlyOffers(Exec(m, evs).calls)
  {
    if evs != [] {
      OffersOnly(m, evs[..|evs| - 1]);
      assert evs[|evs| - 1] in evs;
    }
  }

  /** The mark of a topic is at least every number offered for it so far. */
  lemma {:induction false} ReplayCovers(marks: Marks, calls: seq<Call>, k: nat)
    requires OnlyOffers(calls) && k < |calls|
    ensures Replay(marks, calls)[calls[k].op.topic] >= calls[k].op.seqno
    decreases |calls|
  {
    if k < |calls| - 1 {
      ReplayCovers(marks, calls[..|calls| - 1], k);
      assert calls[|calls| - 1] in calls;
    }
  }

  /** In the order of their swaps, the accepted numbers of a topic strictly
      increase; in particular no number is accepted twice. */
  lemma {:induction false} AcceptedIncrease(marks: Marks, calls: seq<Call>, i: nat, j: nat)
    requires OnlyOffers(calls) && AnswersRight(marks, calls)
    requires i < j < |calls| && calls[i].ok && calls[j].ok && calls[i].op.topic == calls[j].op.topic
    ensures calls[i].op.seqno < calls[j].op.seqno
    decreases |calls|
  {
    var front := calls[..|calls| - 1];
    assert OnlyOffers(front);
    if j == |calls| - 1 {
      ReplayCovers(marks, front, i);
    } else {
      AcceptedIncrease(marks, front, i, j);
    }
  }

  lemma AcceptedAtMostOnce(m: Machine, evs: seq<Event>, i: nat, j: nat)
    requires Initial(m) && NoStores(evs)
    requires var calls := Exec(m, evs).calls; i < j < |calls| && calls[i].Offer? && calls[j].Offer?
    ensures var calls := Exec(m, evs).calls;
            calls[i].ok && calls[j].ok && calls[i].op.topic == calls[j].op.topic ==> calls[i].op.seqno < calls[j].op.seqno
  {
    Linearizable(m, evs);
    OffersOnly(m, evs);
    var calls := Exec(m, evs).calls;
    if calls[i].ok && calls[j].ok && calls[i].op.topic == calls[j].op.topic {
      AcceptedIncrease(m.marks, calls, i, j);
    }
  }

  /** Whether the thread is busy with an offer of `op` that is not decided yet. */
  function Undecided(pc: PC, op: TopicSeq): nat {
    if (pc.Loading? || pc.Swapping?) && pc.op == op then 1 else 0
  }

  /** How many threads are. */
  function InFlight(pcs: seq<PC>, op: TopicSeq): nat {
    if pcs == [] then 0 else InFlight(pcs[..|pcs| - 1], op) + Undecided(pcs[|pcs| - 1], op)
  }

  /** How many offers of `op` have been answered. */
  function Answered(calls: seq<Call>, op: TopicSeq): nat {
    if calls == [] then 0
    else
      var last := calls[|calls| - 1];
      Answered(calls[..|calls| - 1], op) + if last.Offer? && last.op == op then 1 else 0
  }

  lemma {:induction false} InFlightUpdate(pcs: seq<PC>, i: nat, pc: PC, op: TopicSeq)
    requires i < |pcs|
    ensures InFlight(pcs[i := pc], op) + Undecided(pcs[i], op) == InFlight(pcs, op) + Undecided(pc, op)
  {
    var n := |pcs| - 1;
    if i < n {
      InFlightUpdate(pcs[..n], i, pc, op);
      assert pcs[i := pc][..n] == pcs[..n][i := pc];
    } else {
      assert pcs[i := pc][..n] == pcs[..n];
    }
  }

  lemma AnsweredAppend(calls: seq<Call>, c: Call, op: TopicSeq)
    ensures Answered(calls + [c], op) == Answered(calls, op) + if c.Offer? && c.op == op then 1 else 0
  {
    assert (calls + [c])[..|calls|] == calls;
  }

  /** Every offer of `op` is answered or still in flight, and none twice. */
  ghost predicate OffersBalance(m: Machine, op: TopicSeq) {
    Answered(m.calls, op) + InFlight(m.pcs, op) == multiset(m.offered)[op]
  }

  lemma AdvanceBalances(m: Machine, i: nat, op: TopicSeq)
    requires OffersBalance(m, op) && i < |m.pcs|
    ensures OffersBalance(Move(m, i), op)
  {
    var m' := Move(m, i);
    InFlightUpdate(m.pcs, i, m'.pcs[i], op);
    assert m'.pcs == m.pcs[i := m'.pcs[i]];
    if m'.calls != m.calls { AnsweredAppend(m.calls, m'.calls[|m.calls|], op); }
  }

  lemma BeginBalances(m: Machine, m': Machine, i: nat, x: TopicSeq, op: TopicSeq)
    requires OffersBalance(m, op) && i < |m.pcs| && m.pcs[i] == Idle
    requires m'.pcs == m.pcs[i := Loading(x)] && m'.offered == m.offered + [x] && m'.calls == m.calls
    ensures OffersBalance(m', op)
  {
    InFlightUpdate(m.pcs, i, Loading(x), op);
    assert multiset(m.offered + [x])[op] == multiset(m.offered)[op] + if x == op then 1 else 0;
  }

  lemma StoreBalances(m: Machine, m': Machine, i: nat, x: TopicSeq, op: TopicSeq)
    requires OffersBalance(m, op) && i < |m.pcs| && m.pcs[i] == Idle
    requires m'.pcs == m.pcs[i := Marking(x.topic, x.seqno > 0)] && m'.offered == m.offered && m'.calls == m.calls + [Assign(x)]
    ensures OffersBalance(m', op)
  {
    InFlightUpdate(m.pcs, i, Marking(x.topic, x.seqno > 0), op);
    AnsweredAppend(m.calls, Assign(x), op);
  }

  lemma StepBalances(m: Machine, ev: Event, op: TopicSeq)
    requires OffersBalance(m, op)
    ensures OffersBalance(Step(m, ev), op)
  {
    if ev.i < |m.pcs| {
      if ev.Advance? {
        AdvanceBalances(m, ev.i, op);
      } else if m.pcs[ev.i] == Idle {
        if ev.Begin? { BeginBalances(m, Step(m, ev), ev.i, ev.op, op); } else { StoreBalances(m, Step(m, ev), ev.i, ev.op, op); }
      }
    }
  }

  lemma {:induction false} IdleThreads(pcs: seq<PC>, op: TopicSeq)
    requires forall pc <- pcs :: !pc.Loading? && !pc.Swapping?
    ensures InFlight(pcs, op) == 0
  {
    if pcs != [] { IdleThreads(pcs[..|pcs| - 1], op); }
  }

  /** In every interleaving, each offer is answered once or still in flight:
      answers to `op` and threads busy with it are together as many as the offers
      of it that were made. */
  lemma {:induction false} OneAnswerEach(m: Machine, evs: seq<Event>, op: TopicSeq)
    requires Initial(m)
    ensures OffersBalance(Exec(m, evs), op)
  {
    if evs == [] {
      IdleThreads(m.pcs, op);
    } else {
      OneAnswerEach(m, evs[..|evs| - 1], op);
      StepBalances(Exec(m, evs[..|evs| - 1]), evs[|evs| - 1], op);
    }
  }

  lemma {:induction false} AnsweredIsCall(calls: seq<Call>, op: TopicSeq) returns (k: nat)
    requires Answered(calls, op) > 0
    ensures k < |calls| && calls[k].Offer? && calls[k].op == op
  {
    if calls[|calls| - 1].Offer? && calls[|calls| - 1].op == op {
      k := |calls| - 1;
    } else {
      k := AnsweredIsCall(calls[..|calls| - 1], op);
    }
  }

  lemma {:induction false} CallIsAnswered(calls: seq<Call>, k: nat)
    requires k < |calls| && calls[k].Offer?
    ensures Answered(calls, calls[k].op) > 0
  {
    if k < |calls| - 1 { CallIsAnswered(calls[..|calls| - 1], k); }
  }

  lemma {:induction false} ReplayFromCalls(marks: Marks, calls: seq<Call>, t: Topic)
    ensures var mark := Replay(marks, calls)[t];
            mark == marks[t] || exists k :: 0 <= k < |calls| && calls[k].op == TopicSeq(t, mark)
    ensures OnlyOffers(calls) ==> marks[t] <= Replay(marks, calls)[t]
  {
    if calls != [] {
      var front, last := calls[..|calls| - 1], calls[|calls| - 1];
      ReplayFromCalls(marks, front, t);
      var mark := Replay(marks, calls)[t];
      if mark == Replay(marks, front)[t] {
        if mark != marks[t] {
          var k :| 0 <= k < |front| && front[k].op == TopicSeq(t, mark);
          assert calls[k].op == TopicSeq(t, mark);
        }
      } else {
        assert last.op == TopicSeq(t, mark);
      }
      if OnlyOffers(calls) { assert last in calls; assert OnlyOffers(front); }
    }
  }

  /** Once all calls are over, each mark is the largest of its initial value and
      everything offered for its topic. */
  lemma FinalMarkIsMaximum(m: Machine, evs: seq<Event>, t: Topic)
    requires Initial(m) && NoStores(evs)
    requires forall pc <- Exec(m, evs).pcs :: !pc.Loading? && !pc.Swapping?
    ensures var m' := Exec(m, evs);
            && m.marks[t] <= m'.marks[t]
            && (forall op <- m'.offered :: op.topic == t ==> op.seqno <= m'.marks[t])
            && (m'.marks[t] == m.marks[t] || TopicSeq(t, m'.marks[t]) in m'.offered)
  {
    Linearizable(m, evs);
    OffersOnly(m, evs);
    var m' := Exec(m, evs);
    ReplayFromCalls(m.marks, m'.calls, t);
    forall op <- m'.offered | op.topic == t
      ensures op.seqno <= m'.marks[t]
    {
      OneAnswerEach(m, evs, op);
      IdleThreads(m'.pcs, op);
      assert op in multiset(m'.offered);
      var k := AnsweredIsCall(m'.calls, op);
      ReplayCovers(m.marks, m'.calls, k);
    }
    if m'.marks[t] != m.marks[t] {
      var k :| 0 <= k < |m'.calls| && m'.calls[k].op == TopicSeq(t, m'.marks[t]);
      assert m'.calls[k] in m'.calls;
      CallIsAnswered(m'.calls, k);
      OneAnswerEach(m, evs, m'.calls[k].op);
      assert TopicSeq(t, m'.marks[t]) in multiset(m'.offered);
    }
  }

  // ----- The index of active topics -----

  ghost predicate MarksTopic(pc: PC, t: Topic) {
    (pc.Checking? || pc.Inserting?) && pc.topic == t
  }

  /** Every topic with a mark is in the index, or some thread is between
      writing the mark and entering it. */
  ghost predicate Indexed(m: Machine) {
    forall t: Topic :: m.marks[t] > 0 ==>
      t in m.active || exists i :: 0 <= i < |m.pcs| && MarksTopic(m.pcs[i], t)
  }

  lemma StepIndexed(m: Machine, ev: Event)
    requires Indexed(m) && SwapsUp(m)
    ensures Indexed(Step(m, ev))
  {
    var m' := Step(m, ev);
    forall t: Topic | m'.marks[t] > 0
      ensures t in m'.active || exists i :: 0 <= i < |m'.pcs| && MarksTopic(m'.pcs[i], t)
    {
      if m.marks[t] > 0 {
        if t !in m.active {
          var i :| 0 <= i < |m.pcs| && MarksTopic(m.pcs[i], t);
          assert MarksTopic(m'.pcs[i], t) || t in m'.active;
        }
      } else {
        assert MarksTopic(m'.pcs[ev.i], t);
      }
    }
  }

  /** The index stays complete under every interleaving, assignments of marks
      (also back to zero) included. */
  lemma {:induction false} IndexComplete(m: Machine, evs: seq<Event>)
    requires Initial(m) && Indexed(m)
    ensures Indexed(Exec(m, evs))
  {
    if evs != [] {
      IndexComplete(m, evs[..|evs| - 1]);
      Linearizable(m, evs[..|evs| - 1]);
      StepIndexed(Exec(m, evs[..|evs| - 1]), evs[|evs| - 1]);
    }
  }
}
