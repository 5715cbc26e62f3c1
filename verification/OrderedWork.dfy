/** How long the timers and repairs of one applier topic can keep going: every wake
    and every repair outcome pays from a finite account, whatever arrives in between.
 */
module OrderedWork {
  import opened Types
  import opened OrderedSlot
  import opened OrderedRuns

  /** Everything the slot expects, buffers or has asked for is below `top`. */
  ghost predicate Below(slot: Slot, top: nat) {
    slot.next <= top <= MAX_SEQ && forall k <- slot.pending :: k < top
  }

  /** Sleeping timers and repairs under way. */
  ghost function Tokens(slot: Slot): nat {
    |slot.sleeping| + |slot.repairing|
  }

  /** The lowest number the slot can still go back to. */
  ghost function Floor(slot: Slot): nat {
    var m := Lowest(slot.pending.Keys);
    if slot.next < m then slot.next else m
  }

  /** How many repairs under way are for numbers above `lo`, up to `hi`. */
  ghost function Above(m: multiset<Seq>, lo: nat, hi: nat): nat
    requires hi <= MAX_SEQ
  {
    if hi <= lo then 0 else m[hi] + Above(m, lo, hi - 1)
  }

  /** The account: `room` is a bound on the number of tokens. */
  ghost function Account(slot: Slot, top: nat, room: nat): int
    requires top <= MAX_SEQ
  {
    Tokens(slot) + (top - Floor(slot)) * (2 * top + 2 * room + 2)
    + 2 * (top - slot.next) + 2 * Above(slot.repairing, slot.next, top) + |slot.sleeping|
  }

  // ----- Counting -----

  lemma {:induction false} AboveRest(m: multiset<Seq>, lo: nat, hi: nat, e: Seq)
    requires hi <= MAX_SEQ && e in m
    ensures Above(m, lo, hi) == Above(m - multiset{e}, lo, hi) + if lo < e <= hi then 1 else 0
  {
    if hi > lo { AboveRest(m, lo, hi - 1, e); }
  }

  lemma {:induction false} AboveNone(lo: nat, hi: nat)
    requires hi <= MAX_SEQ
    ensures Above(multiset{}, lo, hi) == 0
  {
    if hi > lo { AboveNone(lo, hi - 1); }
  }

  lemma {:induction false} AboveBound(m: multiset<Seq>, lo: nat, hi: nat)
    requires hi <= MAX_SEQ
    ensures Above(m, lo, hi) <= |m|
    decreases |m|
  {
    if m == multiset{} {
      AboveNone(lo, hi);
    } else {
      var e :| e in m;
      AboveRest(m, lo, hi, e);
      assert |m - multiset{e}| == |m| - 1;
      AboveBound(m - multiset{e}, lo, hi);
    }
  }

  lemma {:induction false} AboveHigher(m: multiset<Seq>, lo: nat, lo': nat, hi: nat)
    requires lo <= lo' && hi <= MAX_SEQ
    ensures Above(m, lo', hi) <= Above(m, lo, hi)
  {
    if hi > lo { AboveHigher(m, lo, lo', hi - 1); }
  }

  lemma OneFewer(m: multiset<Seq>, e: Seq)
    requires e in m
    ensures |m - multiset{e}| == |m| - 1
  {
  }

  // ----- What a step does to the account -----

  /** The floor does not sink, `next` does not move back, and at most one timer is
      started: what every arrival and every hit does. */
  ghost predicate Forward(a: Slot, b: Slot, top: nat) {
    && Below(b, top) && b.repairing == a.repairing && OneTimer(b)
    && Floor(a) <= Floor(b) && a.next <= b.next && |a.sleeping| <= |b.sleeping| <= |a.sleeping| + 1
  }

  lemma LowestOfFewer(a: set<Seq>, b: set<Seq>)
    requires b <= a
    ensures Lowest(a) <= Lowest(b)
  {
  }

  /** Where a drain ends, and what it leaves. */
  lemma DrainBelow(from: Seq, pending: map<Seq, Bytes>, top: nat)
    requires from <= top <= MAX_SEQ && forall k <- pending :: k < top
    ensures var d := Drain(from, pending);
            && from <= d.next <= top && (from in pending ==> from < d.next)
            && d.pending.Keys <= pending.Keys && forall k <- d.pending :: !(from <= k < d.next)
  {
    DrainIsRun(from, pending);
    var d := Drain(from, pending);
    if d.out != [] { assert d.out[|d.out| - 1].seqno == d.next - 1; }
  }

  /** A drain and the timer it may start. */
  lemma DrainSlotFacts(slot: Slot, top: nat, from: Seq)
    requires OneTimer(slot) && from <= top <= MAX_SEQ && forall k <- slot.pending :: k < top
    ensures var d, slot' := Drain(from, slot.pending), DrainSlot(slot.(next := from)).slot;
            && slot'.next == d.next && slot'.pending == d.pending && slot'.repairing == slot.repairing
            && OneTimer(slot') && Below(slot', top) && |slot.sleeping| <= |slot'.sleeping| <= |slot.sleeping| + 1
  {
    DrainBelow(from, slot.pending, top);
    var d := Drain(from, slot.pending);
    ArmOneTimer(slot.(next := d.next, pending := d.pending));
    assert forall k <- d.pending :: k in slot.pending.Keys;
  }

  lemma DrainForward(slot: Slot, top: nat, from: Seq)
    requires OneTimer(slot) && Below(slot, top) && slot.next < from <= top
    ensures Forward(slot, DrainSlot(slot.(next := from)).slot, top) && slot.next < DrainSlot(slot.(next := from)).slot.next
  {
    DrainSlotFacts(slot, top, from);
    DrainBelow(from, slot.pending, top);
    LowestOfFewer(slot.pending.Keys, Drain(from, slot.pending).pending.Keys);
  }

  lemma StoreForward(slot: Slot, top: nat, s: Seq, payload: Bytes)
    requires OneTimer(slot) && Below(slot, top) && slot.next < s < top
    ensures Forward(slot, Arm(slot.(pending := slot.pending[s := payload])), top)
  {
    var stored := slot.(pending := slot.pending[s := payload]);
    ArmOneTimer(stored);
    assert forall k <- stored.pending.Keys :: k in slot.pending.Keys || k == s;
  }

  /** An arrival, or the entry of a hit. */
  lemma ReceiveForward(slot: Slot, maxGap: nat, top: nat, s: Seq, payload: Bytes)
    requires OneTimer(slot) && Below(slot, top) && s < top
    ensures var slot' := Receive(slot, maxGap, s, payload).slot;
            && Forward(slot, slot', top)
            && (s < slot.next ==> slot' == slot)
            && (s >= slot.next ==> slot.next < slot'.next || slot.next < s)
  {
    if slot.next < s <= slot.next + maxGap {
      StoreForward(slot, top, s, payload);
    } else if s >= slot.next {
      DrainForward(slot, top, s + 1);
    }
  }

  lemma MissRaisesFloor(slot: Slot, top: nat)
    requires OneTimer(slot) && Below(slot, top) && slot.pending != map[]
    ensures var slot' := SkipGap(slot).slot;
            && Below(slot', top) && OneTimer(slot') && slot'.repairing == slot.repairing
            && Floor(slot) < Floor(slot') && |slot'.sleeping| <= |slot.sleeping| + 1
  {
    assert exists k :: k in slot.pending.Keys;
    var m := Lowest(slot.pending.Keys);
    DrainSlotFacts(slot, top, m);
    DrainBelow(m, slot.pending, top);
    LeftAbove(slot.pending.Keys, Drain(m, slot.pending).pending.Keys, m, Drain(m, slot.pending).next);
  }

  lemma LeftAbove(keys: set<Seq>, left: set<Seq>, m: Seq, end: Seq)
    requires m == Lowest(keys) && m < end && left <= keys && forall k <- left :: !(m <= k < end)
    ensures Lowest(left) > m
  {
    assert forall k <- left :: k in keys && k > m;
  }

  /** The floor term outweighs everything a miss can add. */
  lemma FloorPays(top: nat, room: nat, low: nat, high: nat)
    requires low < high <= top
    ensures (top - high) * (2 * top + 2 * room + 2) + (2 * top + 2 * room + 2) <= (top - low) * (2 * top + 2 * room + 2)
  {
    assert (top - high) + 1 <= top - low;
    TimesMore((top - high) + 1, top - low, 2 * top + 2 * room + 2);
  }

  lemma TimesMore(a: nat, b: nat, k: nat)
    requires a <= b
    ensures a * k <= b * k
  {
  }

  lemma FloorTerm(top: nat, room: nat, low: nat, high: nat)
    requires low <= high <= top
    ensures 0 <= (top - high) * (2 * top + 2 * room + 2) <= (top - low) * (2 * top + 2 * room + 2)
  {
    TimesMore(top - high, top - low, 2 * top + 2 * room + 2);
  }

  lemma ForwardCosts(a: Slot, b: Slot, top: nat, room: nat)
    requires Below(a, top) && Forward(a, b, top)
    ensures Account(b, top, room) <= Account(a, top, room) + 2 * (|b.sleeping| - |a.sleeping|) - 2 * (b.next - a.next)
  {
    FloorTerm(top, room, Floor(a), Floor(b));
    AboveHigher(a.repairing, a.next, b.next, top);
  }

  /** An arrival adds at most two. */
  lemma ArrivalCosts(slot: Slot, maxGap: nat, top: nat, room: nat, s: Seq, payload: Bytes)
    requires OneTimer(slot) && Below(slot, top) && s < top
    ensures var slot' := Receive(slot, maxGap, s, payload).slot;
            && Below(slot', top) && Tokens(slot') <= Tokens(slot) + 1
            && Account(slot', top, room) <= Account(slot, top, room) + 2
  {
    ReceiveForward(slot, maxGap, top, s, payload);
    ForwardCosts(slot, Receive(slot, maxGap, s, payload).slot, top, room);
  }

  lemma WakePays(slot: Slot, top: nat, room: nat, e: Seq)
    requires OneTimer(slot) && Below(slot, top) && e in slot.sleeping
    ensures var slot' := Wake(slot, e);
            Below(slot', top) && Tokens(slot') <= Tokens(slot) && Account(slot', top, room) < Account(slot, top, room)
  {
    OneFewer(slot.sleeping, e);
    if slot.next == e {
      var more := slot.repairing + multiset{e};
      AboveRest(more, slot.next, top, e);
      assert more - multiset{e} == slot.repairing;
    }
  }

  lemma EndPays(slot: Slot, top: nat, room: nat, e: Seq)
    requires Below(slot, top) && e in slot.repairing
    ensures Account(EndRepair(slot, e), top, room) ==
            Account(slot, top, room) - 1 - if slot.next < e <= top then 2 else 0
  {
    OneFewer(slot.repairing, e);
    AboveRest(slot.repairing, slot.next, top, e);
  }

  lemma HitPays(slot: Slot, maxGap: nat, top: nat, room: nat, e: Seq, payload: Bytes)
    requires OneTimer(slot) && Below(slot, top) && e in slot.repairing && e < top
    ensures var slot' := Receive(EndRepair(slot, e), maxGap, e, payload).slot;
            Below(slot', top) && Tokens(slot') <= Tokens(slot) && Account(slot', top, room) < Account(slot, top, room)
  {
    var ended := EndRepair(slot, e);
    OneFewer(slot.repairing, e);
    EndPays(slot, top, room, e);
    ReceiveForward(ended, maxGap, top, e, payload);
    ForwardCosts(ended, Receive(ended, maxGap, e, payload).slot, top, room);
  }

  lemma MissPays(slot: Slot, top: nat, room: nat, e: Seq)
    requires OneTimer(slot) && Below(slot, top) && e in slot.repairing && Tokens(slot) <= room
    ensures var slot' := SkipGap(EndRepair(slot, e)).slot;
            Below(slot', top) && Tokens(slot') <= Tokens(slot) && Account(slot', top, room) < Account(slot, top, room)
  {
    var ended := EndRepair(slot, e);
    OneFewer(slot.repairing, e);
    EndPays(slot, top, room, e);
    if slot.pending != map[] {
      MissRaisesFloor(ended, top);
      MissAccount(ended, SkipGap(ended).slot, top, room);
    } else {
      assert Lowest(ended.pending.Keys) == MAX_SEQ;
    }
  }

  lemma MissAccount(a: Slot, b: Slot, top: nat, room: nat)
    requires Below(a, top) && Below(b, top) && b.repairing == a.repairing && |b.sleeping| <= |a.sleeping| + 1
    requires Floor(a) < Floor(b) && |a.repairing| < room
    ensures Account(b, top, room) <= Account(a, top, room)
  {
    FloorPays(top, room, Floor(a), Floor(b));
    AboveBound(b.repairing, b.next, top);
  }

  // ----- Runs -----

  /** No reset, and every number that arrives or is repaired is below `top`. */
  ghost predicate Bounded(ev: Event, top: nat) {
    match ev
    case Arrive(s, _) => s < top
    case RepairHit(e, _) => e < top
    case Reset(_) => false
    case _ => true
  }

  ghost function Arrivals(evs: seq<Event>): nat {
    if evs == [] then 0 else Arrivals(evs[..|evs| - 1]) + if evs[|evs| - 1].Arrive? then 1 else 0
  }

  /** The timers that woke up and the repairs that ended over a run. */
  ghost function Work(c: Config, maxGap: nat, evs: seq<Event>): nat {
    if evs == [] then 0
    else
      var front, ev := evs[..|evs| - 1], evs[|evs| - 1];
      Work(c, maxGap, front) + if !ev.Arrive? && Enabled(Exec(c, maxGap, front).slot, ev) then 1 else 0
  }


  lemma StepPays(slot: Slot, maxGap: nat, top: nat, room: nat, ev: Event)
    requires OneTimer(slot) && Below(slot, top) && Tokens(slot) <= room && Bounded(ev, top)
    ensures var slot' := Step(slot, maxGap, ev).slot;
            && OneTimer(slot') && Below(slot', top)
            && Tokens(slot') <= Tokens(slot) + (if ev.Arrive? then 1 else 0)
            && Account(slot', top, room) + (if !ev.Arrive? && Enabled(slot, ev) then 1 else 0)
               <= Account(slot, top, room) + if ev.Arrive? then 2 else 0
  {
    StepOneTimer(slot, maxGap, ev);
    if Enabled(slot, ev) {
      match ev
      case Arrive(s, p) => ArrivalCosts(slot, maxGap, top, room, s, p);
      case TimerWakes(e) => WakePays(slot, top, room, e);
      case RepairHit(e, p) => HitPays(slot, maxGap, top, room, e, p);
      case RepairMiss(e) => MissPays(slot, top, room, e);
    }
  }

  lemma AccountPositive(slot: Slot, top: nat, room: nat)
    requires Below(slot, top)
    ensures Account(slot, top, room) >= 0
  {
    FloorTerm(top, room, Floor(slot), Floor(slot));
  }

  lemma {:induction false} RunPays(c: Config, maxGap: nat, evs: seq<Event>, top: nat, room: nat)
    requires OneTimer(c.slot) && Below(c.slot, top) && Tokens(c.slot) + Arrivals(evs) <= room
    requires forall ev <- evs :: Bounded(ev, top)
    ensures var slot := Exec(c, maxGap, evs).slot;
            && OneTimer(slot) && Below(slot, top) && Tokens(slot) <= Tokens(c.slot) + Arrivals(evs)
            && Work(c, maxGap, evs) + Account(slot, top, room) <= Account(c.slot, top, room) + 2 * Arrivals(evs)
  {
    if evs != [] {
      var front, ev := evs[..|evs| - 1], evs[|evs| - 1];
      assert ev in evs;
      RunPays(c, maxGap, front, top, room);
      StepPays(Exec(c, maxGap, front).slot, maxGap, top, room, ev);
    }
  }

  /** Over every interleaving without resets, with numbers below `top`, the timers
      that wake up and the repairs that end are at most as many as the initial
      account and twice the arrivals, if there is room for all tokens. */
  lemma WorkBounded(c: Config, maxGap: nat, evs: seq<Event>, top: nat, room: nat)
    requires OneTimer(c.slot) && Below(c.slot, top) && Tokens(c.slot) + Arrivals(evs) <= room
    requires forall ev <- evs :: Bounded(ev, top)
    ensures Work(c, maxGap, evs) <= Account(c.slot, top, room) + 2 * Arrivals(evs)
  {
    RunPays(c, maxGap, evs, top, room);
    AccountPositive(Exec(c, maxGap, evs).slot, top, room);
  }
}
