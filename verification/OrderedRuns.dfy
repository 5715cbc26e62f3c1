/** Whole runs of one applier topic: what every interleaving of arrivals,
    timers, repairs and resets keeps.
 */
module OrderedRuns {
  import opened Types
  import opened OrderedSlot

  /** A slot and everything delivered so far. */
  datatype Config = Config(slot: Slot, log: seq<Item>)

  ghost function Next(c: Config, maxGap: nat, ev: Event): Config {
    var e := Step(c.slot, maxGap, ev);
    Config(e.slot, c.log + e.out)
  }

  ghost function Exec(c: Config, maxGap: nat, evs: seq<Event>): Config {
    if evs == [] then c
    else Next(Exec(c, maxGap, evs[..|evs| - 1]), maxGap, evs[|evs| - 1])
  }

  // ----- One timer per topic -----

  /** The flag tells exactly whether a timer is asleep, and never two are. */
  ghost predicate OneTimer(slot: Slot) {
    |slot.sleeping| == if slot.armed then 1 else 0
  }

  lemma ArmOneTimer(slot: Slot)
    requires OneTimer(slot)
    ensures OneTimer(Arm(slot))
  {
  }

  lemma ReceiveOneTimer(slot: Slot, maxGap: nat, s: Seq, payload: Bytes)
    requires OneTimer(slot)
    ensures OneTimer(Receive(slot, maxGap, s, payload).slot)
  {
    var e := Receive(slot, maxGap, s, payload).slot;
    ArmOneTimer(slot.(next := e.next, pending := e.pending));
  }

  lemma SkipGapOneTimer(slot: Slot)
    requires OneTimer(slot)
    ensures OneTimer(SkipGap(slot).slot)
  {
    var e := SkipGap(slot).slot;
    ArmOneTimer(slot.(next := e.next, pending := e.pending));
  }

  lemma WakeOneTimer(slot: Slot, expected: Seq)
    requires OneTimer(slot) && expected in slot.sleeping
    ensures OneTimer(Wake(slot, expected))
  {
    assert |slot.sleeping - multiset{expected}| == |slot.sleeping| - 1;
  }

  lemma StepOneTimer(slot: Slot, maxGap: nat, ev: Event)
    requires OneTimer(slot)
    ensures OneTimer(Step(slot, maxGap, ev).slot)
  {
    if Enabled(slot, ev) {
      match ev
      case Arrive(s, p) => ReceiveOneTimer(slot, maxGap, s, p);
      case TimerWakes(e) => WakeOneTimer(slot, e);
      case RepairHit(e, p) => ReceiveOneTimer(EndRepair(slot, e), maxGap, e, p);
      case RepairMiss(e) => SkipGapOneTimer(EndRepair(slot, e));
      case Reset(s) =>
    }
  }

  // ----- Order -----

  /** Every buffered number lies in the reorder window above `next`. */
  ghost predicate InWindow(slot: Slot, maxGap: nat) {
    forall k <- slot.pending :: slot.next < k <= slot.next + maxGap && k < MAX_SEQ
  }

  /** `s` is so far ahead that the applier delivers it at once and jumps. */
  predicate Jumps(slot: Slot, maxGap: nat, s: Seq) {
    s > slot.next + maxGap
  }

  /** The event is not a reset, stays below the last sequence number, and does
      not jump over buffered entries. */
  ghost predicate Safe(slot: Slot, maxGap: nat, ev: Event) {
    && !ev.Reset?
    && var a := Arrival(slot, ev);
       a.Some? ==> a.value.seqno < MAX_SEQ && (Jumps(slot, maxGap, a.value.seqno) ==> slot.pending == map[])
  }

  /** Every event of the run is safe where it happens. */
  ghost predicate SafeRun(c: Config, maxGap: nat, evs: seq<Event>) {
    evs == [] ||
    var front := evs[..|evs| - 1];
    SafeRun(c, maxGap, front) && Safe(Exec(c, maxGap, front).slot, maxGap, evs[|evs| - 1])
  }

  /** Strictly increasing sequence numbers within `[lo, hi)`. */
  ghost predicate Increasing(out: seq<Item>, lo: int, hi: int) {
    && (forall i | 0 <= i < |out| :: lo <= out[i].seqno < hi)
    && (forall i, j | 0 <= i < j < |out| :: out[i].seqno < out[j].seqno)
  }

  lemma IncreasingAppend(log: seq<Item>, out: seq<Item>, lo: int, mid: int, hi: int)
    requires lo <= mid <= hi && Increasing(log, lo, mid) && Increasing(out, mid, hi)
    ensures Increasing(log + out, lo, hi)
  {
  }

  /** Draining a buffer that lies at or above `next`. */
  lemma DrainSlotOrdered(slot: Slot, maxGap: nat)
    requires forall k <- slot.pending :: slot.next <= k <= slot.next + maxGap && k < MAX_SEQ
    ensures var e := DrainSlot(slot);
            && InWindow(e.slot, maxGap)
            && slot.next <= e.slot.next
            && Increasing(e.out, slot.next, e.slot.next)
  {
    DrainIsRun(slot.next, slot.pending);
  }

  lemma ReceiveOrdered(slot: Slot, maxGap: nat, it: Item)
    requires InWindow(slot, maxGap) && it.seqno < MAX_SEQ
    requires Jumps(slot, maxGap, it.seqno) ==> slot.pending == map[]
    ensures var e := Receive(slot, maxGap, it.seqno, it.payload);
            && InWindow(e.slot, maxGap)
            && slot.next <= e.slot.next
            && Increasing(e.out, slot.next, e.slot.next)
  {
    if it.seqno == slot.next || Jumps(slot, maxGap, it.seqno) {
      DrainSlotOrdered(slot.(next := it.seqno + 1), maxGap);
    }
  }

  lemma StepOrdered(slot: Slot, maxGap: nat, ev: Event)
    requires InWindow(slot, maxGap) && Safe(slot, maxGap, ev)
    ensures var e := Step(slot, maxGap, ev);
            && InWindow(e.slot, maxGap)
            && slot.next <= e.slot.next
            && Increasing(e.out, slot.next, e.slot.next)
  {
    match ev
    case Arrive(s, p) => ReceiveOrdered(slot, maxGap, Item(s, p));
    case TimerWakes(e) =>
    case RepairHit(e, p) =>
      if e in slot.repairing { ReceiveOrdered(EndRepair(slot, e), maxGap, Item(e, p)); }
    case RepairMiss(e) =>
      var m := Lowest(slot.pending.Keys);
      if e in slot.repairing && m != MAX_SEQ {
        DrainSlotOrdered(EndRepair(slot, e).(next := m), maxGap);
      }
  }

  /** Ordered, at-most-once delivery. From a slot whose buffer lies in the
      window, over every interleaving without resets in which no arrival jumps
      over buffered entries: deliveries strictly increase, `next` never moves
      back, everything delivered is below `next`, and the window holds. */
  lemma {:induction false} OrderedDelivery(c: Config, maxGap: nat, evs: seq<Event>, lo: nat)
    requires InWindow(c.slot, maxGap)
    requires lo <= c.slot.next && Increasing(c.log, lo, c.slot.next)
    requires SafeRun(c, maxGap, evs)
    ensures var c' := Exec(c, maxGap, evs);
            && InWindow(c'.slot, maxGap)
            && c.slot.next <= c'.slot.next
            && Increasing(c'.log, lo, c'.slot.next)
  {
    if evs != [] {
      var n := |evs| - 1;
      OrderedDelivery(c, maxGap, evs[..n], lo);
      var c1 := Exec(c, maxGap, evs[..n]);
      StepOrdered(c1.slot, maxGap, evs[n]);
      var e := Step(c1.slot, maxGap, evs[n]);
      IncreasingAppend(c1.log, e.out, lo, c1.slot.next, e.slot.next);
    }
  }

  /** `next` never moves back along such a run. */
  lemma {:induction false} NextNeverDecreases(c: Config, maxGap: nat, evs: seq<Event>, i: nat)
    requires InWindow(c.slot, maxGap) && SafeRun(c, maxGap, evs) && i <= |evs|
    ensures InWindow(Exec(c, maxGap, evs).slot, maxGap)
    ensures Exec(c, maxGap, evs[..i]).slot.next <= Exec(c, maxGap, evs).slot.next
    decreases |evs|
  {
    if evs != [] {
      var front := evs[..|evs| - 1];
      NextNeverDecreases(c, maxGap, front, if i == |evs| then |front| else i);
      StepOrdered(Exec(c, maxGap, front).slot, maxGap, evs[|evs| - 1]);
      if i < |evs| { assert front[..i] == evs[..i]; }
    }
    if i == |evs| { assert evs[..i] == evs; }
  }

  /** The window bounds the buffer: at most `maxGap` entries wait. */
  lemma {:induction false} WindowBoundsPending(keys: set<Seq>, lo: int, n: nat)
    requires forall k <- keys :: lo < k <= lo + n
    ensures |keys| <= n
    decreases n
  {
    if n == 0 {
      assert keys == {};
    } else {
      var top := lo + n;
      var rest := set k | k in keys && k != top;
      WindowBoundsPending(rest, lo, n - 1);
      assert keys <= rest + {top};
      CardinalityMonotone(keys, rest, top);
    }
  }

  lemma CardinalityMonotone(keys: set<Seq>, rest: set<Seq>, top: int)
    requires rest == set k | k in keys && k != top
    ensures |keys| <= |rest| + 1
  {
    if top in keys { assert keys == rest + {top}; } else { assert keys == rest; }
  }

  // ----- Runs in pieces -----

  lemma {:induction false} ExecCons(c: Config, maxGap: nat, ev: Event, evs: seq<Event>)
    ensures Exec(c, maxGap, [ev] + evs) == Exec(Next(c, maxGap, ev), maxGap, evs)
    ensures SafeRun(c, maxGap, [ev] + evs) <==> Safe(c.slot, maxGap, ev) && SafeRun(Next(c, maxGap, ev), maxGap, evs)
    decreases |evs|
  {
    var all := [ev] + evs;
    if evs == [] {
      assert all == [ev] && all[..0] == [];
      assert Exec(c, maxGap, []) == c && SafeRun(c, maxGap, []);
    } else {
      var front := evs[..|evs| - 1];
      ExecCons(c, maxGap, ev, front);
      assert all[..|all| - 1] == [ev] + front;
    }
  }

  lemma {:induction false} ExecAppend(c: Config, maxGap: nat, evs: seq<Event>, more: seq<Event>)
    ensures Exec(c, maxGap, evs + more) == Exec(Exec(c, maxGap, evs), maxGap, more)
    decreases |more|
  {
    if more == [] {
      assert evs + more == evs;
    } else {
      ExecAppend(c, maxGap, evs, more[..|more| - 1]);
      assert (evs + more)[..|evs + more| - 1] == evs + more[..|more| - 1];
    }
  }
}
