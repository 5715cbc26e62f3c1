/** Racing threads that all offer 1, 2, ..., n in order for one topic. */
module SeenInOrder {
  import opened Types
  import opened SeenRace

  /** The machine, and how many offers each thread has begun. */
  datatype Race = Race(m: Machine, begun: seq<nat>)

  /** Thread `i` is scheduled: it goes on with its call, or begins the next. */
  function Turn(r: Race, t: Topic, n: nat, i: nat): Race
    requires |r.begun| == |r.m.pcs| && n <= MAX_SEQ
  {
    if i < |r.begun| && r.m.pcs[i].Idle? && r.begun[i] < n then
      Race(Step(r.m, Begin(i, TopicSeq(t, r.begun[i] + 1))), r.begun[i := r.begun[i] + 1])
    else
      Race(Step(r.m, Advance(i)), r.begun)
  }

  function Play(r: Race, t: Topic, n: nat, schedule: seq<nat>): (r': Race)
    requires |r.begun| == |r.m.pcs| && n <= MAX_SEQ
    ensures |r'.begun| == |r'.m.pcs| == |r.m.pcs|
  {
    if schedule == [] then r
    else Turn(Play(r, t, n, schedule[..|schedule| - 1]), t, n, schedule[|schedule| - 1])
  }

  /** The accepted numbers, in the order of their swaps. */
  function Accepted(calls: seq<Call>): seq<Seq> {
    if calls == [] then []
    else
      var front, last := calls[..|calls| - 1], calls[|calls| - 1];
      if last.Offer? && last.ok then Accepted(front) + [last.op.seqno] else Accepted(front)
  }

  function UpTo(n: nat): seq<Seq>
    requires n <= MAX_SEQ
  {
    seq(n, i requires 0 <= i < n => i + 1)
  }

  ghost predicate AtStart(r: Race, t: Topic) {
    && Initial(r.m) && r.m.marks[t] == 0
    && |r.begun| == |r.m.pcs| && forall b <- r.begun :: b == 0
  }

  /** A thread's current offer is at most one above the mark; its earlier ones
      are covered by the mark. */
  ghost predicate ThreadOK(pc: PC, begun: nat, mark: Seq, t: Topic) {
    match pc
    case Loading(op) => op.topic == t && op.seqno == begun && begun <= mark + 1
    case Swapping(op, seen) => op.topic == t && op.seqno == begun && begun == seen + 1 && seen <= mark
    case _ => begun <= mark
  }

  ghost predicate RaceInv(r: Race, t: Topic, n: nat)
    requires |r.begun| == |r.m.pcs| && n <= MAX_SEQ
  {
    && r.m.marks[t] <= n
    && CountedUp(r.m, t)
    && forall i | 0 <= i < |r.begun| :: r.begun[i] <= n && ThreadOK(r.m.pcs[i], r.begun[i], r.m.marks[t], t)
  }

  lemma AcceptedAppend(calls: seq<Call>, c: Call)
    ensures Accepted(calls + [c]) == if c.Offer? && c.ok then Accepted(calls) + [c.op.seqno] else Accepted(calls)
  {
    assert (calls + [c])[..|calls|] == calls;
  }

  lemma TurnKeepsThreads(r: Race, t: Topic, n: nat, i: nat)
    requires |r.begun| == |r.m.pcs| && n <= MAX_SEQ && RaceInv(r, t, n)
    ensures var r' := Turn(r, t, n, i);
            && r.m.marks[t] <= r'.m.marks[t] <= n
            && forall j | 0 <= j < |r'.begun| :: r'.begun[j] <= n && ThreadOK(r'.m.pcs[j], r'.begun[j], r'.m.marks[t], t)
  {
    var r' := Turn(r, t, n, i);
    if i < |r.begun| {
      assert ThreadOK(r.m.pcs[i], r.begun[i], r.m.marks[t], t);
      assert r.m.marks[t] <= r'.m.marks[t] <= n;
      assert ThreadOK(r'.m.pcs[i], r'.begun[i], r'.m.marks[t], t);
    }
    forall j | 0 <= j < |r'.begun| && j != i
      ensures r'.begun[j] <= n && ThreadOK(r'.m.pcs[j], r'.begun[j], r'.m.marks[t], t)
    {
      assert ThreadOK(r.m.pcs[j], r.begun[j], r.m.marks[t], t);
      assert r'.m.pcs[j] == r.m.pcs[j] && r'.begun[j] == r.begun[j];
    }
  }

  /** The accepted numbers are 1 up to the mark. */
  ghost predicate CountedUp(m: Machine, t: Topic) {
    Accepted(m.calls) == UpTo(m.marks[t])
  }

  lemma RejectCounts(m: Machine, m': Machine, t: Topic, op: TopicSeq)
    requires CountedUp(m, t) && m'.marks == m.marks && m'.calls == m.calls + [Offer(op, false)]
    ensures CountedUp(m', t)
  {
    AcceptedAppend(m.calls, Offer(op, false));
  }

  lemma AcceptCounts(m: Machine, m': Machine, t: Topic, s: Seq)
    requires CountedUp(m, t) && s > 0 && m.marks[t] == s - 1
    requires m'.marks == m.marks[t := s] && m'.calls == m.calls + [Offer(TopicSeq(t, s), true)]
    ensures CountedUp(m', t)
  {
    AcceptedAppend(m.calls, Offer(TopicSeq(t, s), true));
    assert UpTo(s) == UpTo(s - 1) + [s];
  }

  lemma MoveCounts(m: Machine, t: Topic, begun: nat, i: nat)
    requires i < |m.pcs| && CountedUp(m, t) && ThreadOK(m.pcs[i], begun, m.marks[t], t)
    ensures CountedUp(Move(m, i), t)
  {
    var pc, m' := m.pcs[i], Move(m, i);
    if pc.Loading? {
      if pc.op.seqno <= m.marks[t] { RejectCounts(m, m', t, pc.op); }
    } else if pc.Swapping? {
      if m.marks[t] == pc.seen { AcceptCounts(m, m', t, pc.op.seqno); }
    }
  }

  lemma TurnKeepsAccepted(r: Race, t: Topic, n: nat, i: nat)
    requires |r.begun| == |r.m.pcs| && n <= MAX_SEQ && RaceInv(r, t, n)
    ensures CountedUp(Turn(r, t, n, i).m, t)
  {
    if i < |r.begun| && !(r.m.pcs[i].Idle? && r.begun[i] < n) { MoveCounts(r.m, t, r.begun[i], i); }
  }

  /** Under every schedule the accepted numbers are exactly 1, 2, ..., up to the
      mark: each is the mark before it plus one, and none is skipped. */
  lemma {:induction false} NothingSkipped(r: Race, t: Topic, n: nat, schedule: seq<nat>)
    requires n <= MAX_SEQ && AtStart(r, t)
    ensures RaceInv(Play(r, t, n, schedule), t, n)
  {
    if schedule == [] {
      assert UpTo(0) == [];
      assert forall i | 0 <= i < |r.begun| :: r.begun[i] in r.begun && r.m.pcs[i] in r.m.pcs;
    } else {
      NothingSkipped(r, t, n, schedule[..|schedule| - 1]);
      TurnKeepsThreads(Play(r, t, n, schedule[..|schedule| - 1]), t, n, schedule[|schedule| - 1]);
      TurnKeepsAccepted(Play(r, t, n, schedule[..|schedule| - 1]), t, n, schedule[|schedule| - 1]);
    }
  }

  /** When every thread has finished its n offers, exactly n were accepted
      among all of them, one per number. */
  lemma ExactlyNAccepted(r: Race, t: Topic, n: nat, schedule: seq<nat>)
    requires n <= MAX_SEQ && AtStart(r, t) && |r.begun| > 0
    requires var r' := Play(r, t, n, schedule); forall i | 0 <= i < |r'.begun| :: r'.begun[i] == n && r'.m.pcs[i].Idle?
    ensures var r' := Play(r, t, n, schedule);
            Accepted(r'.m.calls) == UpTo(n) && |Accepted(r'.m.calls)| == n && r'.m.marks[t] == n
  {
    NothingSkipped(r, t, n, schedule);
    var r' := Play(r, t, n, schedule);
    assert ThreadOK(r'.m.pcs[0], r'.begun[0], r'.m.marks[t], t);
  }
}
