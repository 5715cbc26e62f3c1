/** Calls of the duplicate detector end: a thread that keeps taking steps leaves
    its call after a number of them that only successful calls of other threads
    can raise, so the detector as a whole never stalls.
 */
module SeenProgress {
  import opened Types
  import opened SeenRace

  ghost predicate Busy(m: Machine, i: nat) {
    i < |m.pcs| && m.pcs[i] != Idle
  }

  /** The thread is inside a call before and after every event of the run. */
  ghost predicate BusyThroughout(m: Machine, evs: seq<Event>, i: nat) {
    Busy(Exec(m, evs), i) && (evs != [] ==> BusyThroughout(m, evs[..|evs| - 1], i))
  }

  /** The steps thread `i` has left if nobody interferes: load, swap, check and
      insert, and two more when it is about to swap against a mark that has
      changed since it loaded it. */
  function StepsLeft(m: Machine, i: nat): nat {
    if i >= |m.pcs| then 0 else
    match m.pcs[i]
    case Idle => 0
    case Loading(_) => 4
    case Swapping(op, seen) => if m.marks[op.topic] == seen then 3 else 5
    case Checking(_) => 2
    case Inserting(_) => 1
  }

  /** The steps the thread itself takes. */
  function OwnSteps(evs: seq<Event>, i: nat): nat {
    if evs == [] then 0 else OwnSteps(evs[..|evs| - 1], i) + if evs[|evs| - 1] == Advance(i) then 1 else 0
  }

  /** How often another thread changes a mark. */
  ghost function Interference(m: Machine, evs: seq<Event>, i: nat): nat {
    if evs == [] then 0
    else
      var front, ev := evs[..|evs| - 1], evs[|evs| - 1];
      Interference(m, front, i) + if ev.i != i && Exec(m, evs).marks != Exec(m, front).marks then 1 else 0
  }

  lemma StepPays(m: Machine, ev: Event, i: nat)
    requires Busy(m, i)
    ensures var m' := Step(m, ev);
            && |m'.pcs| == |m.pcs|
            && StepsLeft(m', i) + (if ev == Advance(i) then 1 else 0)
               <= StepsLeft(m, i) + if ev.i != i && m'.marks != m.marks then 2 else 0
  {
  }

  /** A call that has not ended has taken fewer own steps than it had left, plus
      two for each mark another thread changed meanwhile: without interference a
      call ends within five steps. */
  lemma {:induction false} CallsEnd(m: Machine, evs: seq<Event>, i: nat)
    requires BusyThroughout(m, evs, i)
    ensures OwnSteps(evs, i) + StepsLeft(Exec(m, evs), i) <= StepsLeft(m, i) + 2 * Interference(m, evs, i)
    ensures 0 < StepsLeft(Exec(m, evs), i) && StepsLeft(m, i) <= 5
  {
    if evs != [] {
      CallsEnd(m, evs[..|evs| - 1], i);
      StepPays(Exec(m, evs[..|evs| - 1]), evs[|evs| - 1], i);
    }
  }

  /** And whoever changes a mark has a call of its own take effect. */
  lemma InterferenceIsProgress(m: Machine, ev: Event)
    requires Step(m, ev).marks != m.marks
    ensures var m' := Step(m, ev);
            |m'.calls| == |m.calls| + 1 && m.calls <= m'.calls && (m'.calls[|m.calls|].Assign? || m'.calls[|m.calls|].ok)
  {
  }
}
