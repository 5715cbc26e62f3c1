/** The histories of the racing threads: when calls begin, are decided and return.
 */
module SeenHistory {
  import opened Types
  import opened SeenRace

  datatype Mark = Begun(i: nat, op: TopicSeq) | Decided(i: nat, call: Call) | Returned(i: nat)

  /** What an event adds to the history: its thread begins a call, takes the
      decisive step of one, or returns. */
  function Happens(m: Machine, ev: Event): seq<Mark> {
    if ev.i >= |m.pcs| then []
    else if ev.Advance? then HappensInside(m, ev.i)
    else if m.pcs[ev.i] != Idle then []
    else if ev.Begin? then [Begun(ev.i, ev.op)]
    else [Begun(ev.i, ev.op), Decided(ev.i, Assign(ev.op))] + if ev.op.seqno > 0 then [] else [Returned(ev.i)]
  }

  function HappensInside(m: Machine, i: nat): seq<Mark>
    requires i < |m.pcs|
  {
    match m.pcs[i]
    case Idle => []
    case Loading(op) => if op.seqno <= m.marks[op.topic] then [Decided(i, Offer(op, false)), Returned(i)] else []
    case Swapping(op, seen) =>
      if m.marks[op.topic] != seen then []
      else [Decided(i, Offer(op, true))] + if seen == 0 then [] else [Returned(i)]
    case Checking(t) => if t in m.active then [Returned(i)] else []
    case Inserting(t) => [Returned(i)]
  }

  function History(m: Machine, evs: seq<Event>): seq<Mark> {
    if evs == [] then [] else History(m, evs[..|evs| - 1]) + Happens(Exec(m, evs[..|evs| - 1]), evs[|evs| - 1])
  }

  /** The decisive steps, in order. */
  function Decisions(h: seq<Mark>): seq<Call> {
    if h == [] then []
    else
      var front, last := Decisions(h[..|h| - 1]), h[|h| - 1];
      if last.Decided? then front + [last.call] else front
  }

  /** Where a thread is: outside a call, in one not decided yet, or in one that
      is. */
  datatype Phase = Outside | Asked(op: TopicSeq) | Done

  function PhaseOf(h: seq<Mark>, i: nat): Phase {
    if h == [] then Outside
    else
      var last := h[|h| - 1];
      if last.i != i then PhaseOf(h[..|h| - 1], i)
      else match last
        case Begun(_, op) => Asked(op)
        case Decided(_, _) => Done
        case Returned(_) => Outside
  }

  /** Every thread makes one call after the other, and each call is decided once,
      for its own number, between its beginning and its return. */
  ghost predicate Proper(h: seq<Mark>) {
    h == [] || (Proper(h[..|h| - 1]) && Fits(h[..|h| - 1], h[|h| - 1]))
  }

  /** The mark can come next. */
  ghost predicate Fits(h: seq<Mark>, k: Mark) {
    PhaseOf(h, k.i) == match k
                       case Begun(_, _) => Outside
                       case Decided(_, call) => Asked(call.op)
                       case Returned(_) => Done
  }

  function PhaseOfPC(pc: PC): Phase {
    match pc
    case Idle => Outside
    case Loading(op) => Asked(op)
    case Swapping(op, _) => Asked(op)
    case Checking(_) => Done
    case Inserting(_) => Done
  }

  ghost predicate Agrees(h: seq<Mark>, m: Machine) {
    && Proper(h) && Decisions(h) == m.calls
    && forall i | 0 <= i < |m.pcs| :: PhaseOf(h, i) == PhaseOfPC(m.pcs[i])
  }

  /** One more mark of a thread. */
  lemma OneMark(h: seq<Mark>, k: Mark)
    requires Proper(h) && Fits(h, k)
    ensures Proper(h + [k])
    ensures Decisions(h + [k]) == Decisions(h) + if k.Decided? then [k.call] else []
    ensures forall j: nat :: j != k.i ==> PhaseOf(h + [k], j) == PhaseOf(h, j)
    ensures PhaseOf(h + [k], k.i) == if k.Begun? then Asked(k.op) else if k.Decided? then Done else Outside
  {
    assert (h + [k])[..|h|] == h;
  }

  /** A thread moves to a new place, and the history says so. */
  ghost predicate Moves(h: seq<Mark>, h': seq<Mark>, i: nat, phase: Phase, calls: seq<Call>) {
    && Proper(h') && Decisions(h') == Decisions(h) + calls
    && PhaseOf(h', i) == phase && forall j: nat :: j != i ==> PhaseOf(h', j) == PhaseOf(h, j)
  }

  lemma BeginMoves(h: seq<Mark>, i: nat, op: TopicSeq)
    requires Proper(h) && PhaseOf(h, i) == Outside
    ensures Moves(h, h + [Begun(i, op)], i, Asked(op), [])
  {
    OneMark(h, Begun(i, op));
    assert Decisions(h) + [] == Decisions(h);
  }

  lemma ReturnMoves(h: seq<Mark>, i: nat)
    requires Proper(h) && PhaseOf(h, i) == Done
    ensures Moves(h, h + [Returned(i)], i, Outside, [])
  {
    OneMark(h, Returned(i));
    assert Decisions(h) + [] == Decisions(h);
  }

  /** The decisive step, and the return if it comes at once. */
  lemma DecideMoves(h: seq<Mark>, i: nat, call: Call, back: bool)
    requires Proper(h) && PhaseOf(h, i) == Asked(call.op)
    ensures Moves(h, h + ([Decided(i, call)] + if back then [Returned(i)] else []), i, if back then Outside else Done, [call])
  {
    OneMark(h, Decided(i, call));
    if back {
      OneMark(h + [Decided(i, call)], Returned(i));
      assert h + ([Decided(i, call)] + [Returned(i)]) == (h + [Decided(i, call)]) + [Returned(i)];
      assert Decisions(h) + [call] + [] == Decisions(h) + [call];
    } else {
      assert [Decided(i, call)] + [] == [Decided(i, call)];
    }
  }

  lemma StoreMoves(h: seq<Mark>, i: nat, op: TopicSeq, back: bool)
    requires Proper(h) && PhaseOf(h, i) == Outside
    ensures Moves(h, h + ([Begun(i, op), Decided(i, Assign(op))] + if back then [Returned(i)] else []), i,
                  if back then Outside else Done, [Assign(op)])
  {
    var h1, rest := h + [Begun(i, op)], if back then [Returned(i)] else [];
    BeginMoves(h, i, op);
    DecideMoves(h1, i, Assign(op), back);
    assert h + ([Begun(i, op), Decided(i, Assign(op))] + rest) == h1 + ([Decided(i, Assign(op))] + rest);
    assert Decisions(h) + [] == Decisions(h);
  }

  lemma MovesAgree(h: seq<Mark>, h': seq<Mark>, m: Machine, m': Machine, i: nat, pc: PC, calls: seq<Call>)
    requires Agrees(h, m) && i < |m.pcs| && m'.pcs == m.pcs[i := pc] && m'.calls == m.calls + calls
    requires Moves(h, h', i, PhaseOfPC(pc), calls)
    ensures Agrees(h', m')
  {
  }

  lemma StaysAgree(h: seq<Mark>, m: Machine, m': Machine, i: nat, pc: PC)
    requires Agrees(h, m) && i < |m.pcs| && m'.pcs == m.pcs[i := pc] && m'.calls == m.calls && PhaseOfPC(pc) == PhaseOfPC(m.pcs[i])
    ensures Agrees(h + [], m')
  {
    assert h + [] == h;
  }

  lemma AdvanceAgrees(h: seq<Mark>, m: Machine, i: nat)
    requires Agrees(h, m) && i < |m.pcs|
    ensures Agrees(h + Happens(m, Advance(i)), Move(m, i))
  {
    var m', h' := Move(m, i), h + Happens(m, Advance(i));
    assert m.calls + [] == m.calls;
    match m.pcs[i]
    case Idle => assert h' == h;
    case Loading(op) =>
      if op.seqno <= m.marks[op.topic] {
        DecideMoves(h, i, Offer(op, false), true);
        assert [Decided(i, Offer(op, false))] + [Returned(i)] == [Decided(i, Offer(op, false)), Returned(i)];
        MovesAgree(h, h', m, m', i, Idle, [Offer(op, false)]);
      } else {
        StaysAgree(h, m, m', i, Swapping(op, m.marks[op.topic]));
      }
    case Swapping(op, seen) =>
      if m.marks[op.topic] != seen {
        StaysAgree(h, m, m', i, Loading(op));
      } else {
        DecideMoves(h, i, Offer(op, true), seen != 0);
        MovesAgree(h, h', m, m', i, Marking(op.topic, seen == 0), [Offer(op, true)]);
      }
    case Checking(t) =>
      if t in m.active {
        ReturnMoves(h, i);
        MovesAgree(h, h', m, m', i, Idle, []);
      } else {
        StaysAgree(h, m, m', i, Inserting(t));
      }
    case Inserting(t) =>
      ReturnMoves(h, i);
      MovesAgree(h, h', m, m', i, Idle, []);
  }

  lemma StepAgrees(h: seq<Mark>, m: Machine, ev: Event)
    requires Agrees(h, m)
    ensures Agrees(h + Happens(m, ev), Step(m, ev))
  {
    if ev.i < |m.pcs| && (ev.Advance? || m.pcs[ev.i] == Idle) {
      var m', h' := Step(m, ev), h + Happens(m, ev);
      match ev
      case Advance(i) => AdvanceAgrees(h, m, i);
      case Begin(i, op) =>
        BeginMoves(h, i, op);
        assert m.calls + [] == m.calls;
        MovesAgree(h, h', m, m', i, Loading(op), []);
      case Store(i, op) =>
        StoreMoves(h, i, op, op.seqno == 0);
        MovesAgree(h, h', m, m', i, Marking(op.topic, op.seqno > 0), [Assign(op)]);
    } else {
      assert h + [] == h;
    }
  }

  /** In every interleaving the history is proper, its decisive steps are the
      calls in the order in which they take effect, and it tells where each
      thread is. With the calls explained one at a time, this is linearizability:
      every call takes effect between its beginning and its return. */
  lemma {:induction false} HistoryIsProper(m: Machine, evs: seq<Event>)
    requires Initial(m)
    ensures Agrees(History(m, evs), Exec(m, evs))
  {
    if evs == [] {
      assert forall i | 0 <= i < |m.pcs| :: m.pcs[i] in m.pcs;
    } else {
      HistoryIsProper(m, evs[..|evs| - 1]);
      StepAgrees(History(m, evs[..|evs| - 1]), Exec(m, evs[..|evs| - 1]), evs[|evs| - 1]);
    }
  }

  lemma {:induction false} LastBegun(h: seq<Mark>, i: nat) returns (b: nat)
    requires Proper(h) && PhaseOf(h, i).Asked?
    ensures b < |h| && h[b] == Begun(i, PhaseOf(h, i).op) && forall j | b < j < |h| :: h[j].i != i
  {
    if h[|h| - 1].i == i { b := |h| - 1; } else { b := LastBegun(h[..|h| - 1], i); }
  }

  lemma {:induction false} ProperPrefix(h: seq<Mark>, d: nat)
    requires Proper(h) && d <= |h|
    ensures Proper(h[..d])
  {
    if d < |h| {
      ProperPrefix(h[..|h| - 1], d);
      assert h[..|h| - 1][..d] == h[..d];
    } else {
      assert h[..d] == h;
    }
  }

  /** Every decisive step belongs to a call of its thread for the same number that
      began before it, with no other mark of the thread in between. */
  lemma DecidedInside(h: seq<Mark>, d: nat) returns (b: nat)
    requires Proper(h) && d < |h| && h[d].Decided?
    ensures b < d && h[b] == Begun(h[d].i, h[d].call.op) && forall j | b < j < d :: h[j].i != h[d].i
  {
    ProperPrefix(h, d + 1);
    assert h[..d + 1][..d] == h[..d];
    b := LastBegun(h[..d], h[d].i);
  }
}
