/** Where ordered delivery ends: a jump over buffered entries, and timers that
    wake up late.
 */
module OrderedLimits {
  import opened Types
  import opened OrderedSlot
  import opened OrderedRuns

  ghost predicate Sorted(log: seq<Item>) {
    forall i, j | 0 <= i < j < |log| :: log[i].seqno < log[j].seqno
  }

  /** Whatever happens after the arrival of `s`, short of a reset, of another
      jump over buffered entries and of the last sequence number, deliveries
      stay in order. */
  ghost predicate OrderSurvives(slot: Slot, maxGap: nat, s: Seq, payload: Bytes) {
    var c := Next(Config(slot, []), maxGap, Arrive(s, payload));
    forall evs | SafeRun(c, maxGap, evs) :: Sorted(Exec(c, maxGap, evs).log)
  }

  lemma NoJumpKeepsOrder(slot: Slot, maxGap: nat, s: Seq, payload: Bytes)
    requires InWindow(slot, maxGap) && s < MAX_SEQ
    requires Jumps(slot, maxGap, s) ==> slot.pending == map[]
    ensures OrderSurvives(slot, maxGap, s, payload)
  {
    var c := Next(Config(slot, []), maxGap, Arrive(s, payload));
    StepOrdered(slot, maxGap, Arrive(s, payload));
    forall evs | SafeRun(c, maxGap, evs)
      ensures Sorted(Exec(c, maxGap, evs).log)
    {
      OrderedDelivery(c, maxGap, evs, slot.next);
    }
  }

  /** The state after a jump over buffered entries: they now lie below `next`,
      and a timer is asleep. */
  lemma JumpStrandsPending(slot: Slot, maxGap: nat, s: Seq, payload: Bytes)
    requires InWindow(slot, maxGap) && OneTimer(slot) && slot.pending != map[]
    requires Jumps(slot, maxGap, s) && s < MAX_SEQ
    ensures var e := Receive(slot, maxGap, s, payload);
            && e.slot.next == s + 1 && e.slot.pending == slot.pending && e.out == [Item(s, payload)]
            && e.slot.armed && OneTimer(e.slot)
  {
    ReceiveOneTimer(slot, maxGap, s, payload);
  }

  /** A repair miss now moves `next` back to the lowest stranded entry and
      delivers it. */
  lemma MissMovesBack(slot: Slot, maxGap: nat, e: Seq)
    requires slot.pending != map[] && NoWrap(slot.pending) && e in slot.repairing
    ensures var m, r := Lowest(slot.pending.Keys), Step(slot, maxGap, RepairMiss(e));
            m in slot.pending && |r.out| > 0 && r.out[0] == Item(m, slot.pending[m])
  {
    assert exists k :: k in slot.pending.Keys;
  }

  /** Some safe continuation delivers out of order. */
  ghost predicate CanBreak(c: Config, maxGap: nat) {
    exists evs :: SafeRun(c, maxGap, evs) && !Sorted(Exec(c, maxGap, evs).log)
  }

  lemma BreaksLater(c: Config, maxGap: nat, ev: Event)
    requires Safe(c.slot, maxGap, ev) && CanBreak(Next(c, maxGap, ev), maxGap)
    ensures CanBreak(c, maxGap)
  {
    var c1 := Next(c, maxGap, ev);
    var evs :| SafeRun(c1, maxGap, evs) && !Sorted(Exec(c1, maxGap, evs).log);
    ExecCons(c, maxGap, ev, evs);
    assert SafeRun(c, maxGap, [ev] + evs) && !Sorted(Exec(c, maxGap, [ev] + evs).log);
  }

  lemma BreaksNow(c: Config, maxGap: nat)
    requires !Sorted(c.log)
    ensures CanBreak(c, maxGap)
  {
    assert SafeRun(c, maxGap, []) && Exec(c, maxGap, []) == c;
  }

  /** A timer that wakes up at the current `next` while entries below `next`
      are buffered breaks the order as soon as its repair misses. */
  lemma WakeThenMiss(c: Config, maxGap: nat)
    requires c.slot.next in c.slot.sleeping
    requires c.slot.pending != map[] && forall k <- c.slot.pending :: k < MAX_SEQ
    requires |c.log| > 0 && forall k <- c.slot.pending :: k < c.log[|c.log| - 1].seqno
    ensures CanBreak(c, maxGap)
  {
    var n := c.slot.next;
    var c1 := Next(c, maxGap, TimerWakes(n));
    var c2 := Next(c1, maxGap, RepairMiss(n));
    MissMovesBack(c1.slot, maxGap, n);
    assert c2.log[|c.log| - 1].seqno > c2.log[|c.log|].seqno;
    BreaksNow(c2, maxGap);
    BreaksLater(c1, maxGap, RepairMiss(n));
    BreaksLater(c, maxGap, TimerWakes(n));
  }

  /** The state a jump over buffered entries leaves behind. */
  ghost predicate JumpedOver(c: Config, s: Seq, low: map<Seq, Bytes>) {
    && c.slot.next == s + 1 && c.slot.pending == low && low != map[] && (forall k <- low :: k < s)
    && |c.log| > 0 && c.log[|c.log| - 1].seqno == s
  }

  /** The late timer wakes up and does nothing. */
  lemma StaleTimerWakes(c: Config, maxGap: nat, t: Seq)
    requires c.slot.sleeping == multiset{t} && t != c.slot.next
    ensures Next(c, maxGap, TimerWakes(t)) == c.(slot := c.slot.(armed := false, sleeping := multiset{}))
  {
    assert multiset{t} - multiset{t} == multiset{};
    assert c.log + [] == c.log;
  }

  /** The next arrival in order is delivered, and its drain starts a timer for
      the entries stranded below. */
  lemma NextArrivalArms(c: Config, maxGap: nat, s: Seq)
    requires s + 1 < MAX_SEQ && JumpedOver(c, s, c.slot.pending) && !c.slot.armed
    ensures var c' := Next(c, maxGap, Arrive(s + 1, []));
            JumpedOver(c', s + 1, c.slot.pending) && s + 2 in c'.slot.sleeping && Safe(c.slot, maxGap, Arrive(s + 1, []))
  {
  }

  /** With a timer asleep since before the jump, the next in-order arrival
      starts one that breaks the order. */
  lemma StaleTimerBreaksOrder(c: Config, maxGap: nat, s: Seq, t: Seq)
    requires s + 1 < MAX_SEQ && JumpedOver(c, s, c.slot.pending)
    requires c.slot.sleeping == multiset{t} && t != s + 1
    ensures CanBreak(c, maxGap)
  {
    StaleTimerWakes(c, maxGap, t);
    var c1 := Next(c, maxGap, TimerWakes(t));
    NextArrivalArms(c1, maxGap, s);
    var c2 := Next(c1, maxGap, Arrive(s + 1, []));
    WakeThenMiss(c2, maxGap);
    BreaksLater(c1, maxGap, Arrive(s + 1, []));
    BreaksLater(c, maxGap, TimerWakes(t));
  }

  lemma OnlyOne(m: multiset<Seq>, t: Seq)
    requires |m| == 1 && t in m
    ensures m == multiset{t}
  {
    assert |m - multiset{t}| == 0;
  }

  lemma JumpBreaksOrder(slot: Slot, maxGap: nat, s: Seq, payload: Bytes)
    requires InWindow(slot, maxGap) && OneTimer(slot) && s + 1 < MAX_SEQ
    requires Jumps(slot, maxGap, s) && slot.pending != map[]
    ensures !OrderSurvives(slot, maxGap, s, payload)
  {
    var c := Next(Config(slot, []), maxGap, Arrive(s, payload));
    JumpStrandsPending(slot, maxGap, s, payload);
    assert JumpedOver(c, s, slot.pending);
    var t :| t in c.slot.sleeping;
    OnlyOne(c.slot.sleeping, t);
    if t == s + 1 {
      WakeThenMiss(c, maxGap);
    } else {
      StaleTimerBreaksOrder(c, maxGap, s, t);
    }
  }

  /** Ordered delivery survives an arrival exactly when the arrival does not
      jump over buffered entries, a test the applier could make before it
      delivers. */
  lemma OrderSurvivesIff(slot: Slot, maxGap: nat, s: Seq, payload: Bytes)
    requires InWindow(slot, maxGap) && OneTimer(slot) && s + 1 < MAX_SEQ
    ensures OrderSurvives(slot, maxGap, s, payload) <==> !(Jumps(slot, maxGap, s) && slot.pending != map[])
  {
    if Jumps(slot, maxGap, s) && slot.pending != map[] {
      JumpBreaksOrder(slot, maxGap, s, payload);
    } else {
      NoJumpKeepsOrder(slot, maxGap, s, payload);
    }
  }

  // ----- Stranded entries -----

  /** Entries are buffered, and neither a timer nor a repair will see to them. */
  ghost predicate Stranded(slot: Slot) {
    slot.pending != map[] && slot.sleeping == multiset{} && slot.repairing == multiset{}
  }

  /** The events that strand: a timer that wakes up after something was delivered
      while no repair is under way, and the last repair hit at a number that is no
      longer missing while no timer is asleep. */
  ghost predicate Strands(slot: Slot, ev: Event) {
    && Enabled(slot, ev) && slot.pending != map[]
    && match ev
       case TimerWakes(e) => e != slot.next && slot.repairing == multiset{}
       case RepairHit(e, _) => e < slot.next && slot.repairing == multiset{e} && !slot.armed
       case _ => false
  }

  /** The events that end it: a reset, and an arrival that is not too old. */
  ghost predicate Rescues(slot: Slot, ev: Event) {
    ev.Reset? || (ev.Arrive? && ev.seqno >= slot.next)
  }

  ghost predicate BelowLast(slot: Slot, ev: Event) {
    Arrival(slot, ev).Some? ==> Arrival(slot, ev).value.seqno < MAX_SEQ
  }

  lemma OneLess(m: multiset<Seq>, e: Seq)
    requires e in m
    ensures |m - multiset{e}| == |m| - 1 && (m - multiset{e} == multiset{} <==> m == multiset{e})
  {
    if m - multiset{e} == multiset{} { assert m == multiset{e} + (m - multiset{e}); }
  }

  lemma DrainLeavesTimer(slot: Slot)
    requires OneTimer(slot)
    ensures !Stranded(DrainSlot(slot).slot)
  {
    var d := DrainSlot(slot).slot;
    if d.pending != map[] { assert d.armed && OneTimer(d); }
  }

  lemma ArrivalLeavesTimer(slot: Slot, maxGap: nat, s: Seq, payload: Bytes)
    requires OneTimer(slot) && s >= slot.next
    ensures !Stranded(Receive(slot, maxGap, s, payload).slot)
  {
    if slot.next < s <= slot.next + maxGap {
      var stored := Receive(slot, maxGap, s, payload).slot;
      assert stored.armed && OneTimer(stored);
    } else {
      DrainLeavesTimer(slot.(next := Inc(s)));
    }
  }

  lemma SkipLeavesTimer(slot: Slot)
    requires OneTimer(slot) && NoWrap(slot.pending)
    ensures !Stranded(SkipGap(slot).slot)
  {
    var m := Lowest(slot.pending.Keys);
    if m != MAX_SEQ {
      DrainLeavesTimer(slot.(next := m));
    } else if slot.pending != map[] {
      assert exists k :: k in slot.pending.Keys;
      assert false;
    }
  }

  /** Exactly those events strand: from any slot with at most one timer asleep
      whose entries are not stranded, for every event there is. */
  lemma StrandsIff(slot: Slot, maxGap: nat, ev: Event)
    requires OneTimer(slot) && NoWrap(slot.pending) && !Stranded(slot)
    ensures Stranded(Step(slot, maxGap, ev).slot) <==> Strands(slot, ev)
  {
    if Enabled(slot, ev) {
      match ev
      case Arrive(s, p) => if s >= slot.next { ArrivalLeavesTimer(slot, maxGap, s, p); }
      case TimerWakes(e) => WakeStrands(slot, e);
      case RepairHit(e, p) => HitStrands(slot, maxGap, e, p);
      case RepairMiss(e) => SkipLeavesTimer(EndRepair(slot, e));
      case Reset(s) =>
    }
  }

  lemma WakeStrands(slot: Slot, e: Seq)
    requires OneTimer(slot) && e in slot.sleeping
    ensures Stranded(Wake(slot, e)) <==> slot.pending != map[] && e != slot.next && slot.repairing == multiset{}
  {
    OneLess(slot.sleeping, e);
    if slot.next == e { assert e in Wake(slot, e).repairing; }
  }

  lemma HitStrands(slot: Slot, maxGap: nat, e: Seq, p: Bytes)
    requires OneTimer(slot) && e in slot.repairing
    ensures Stranded(Receive(EndRepair(slot, e), maxGap, e, p).slot) <==>
            slot.pending != map[] && e < slot.next && slot.repairing == multiset{e} && !slot.armed
  {
    OneLess(slot.repairing, e);
    if e >= slot.next { ArrivalLeavesTimer(EndRepair(slot, e), maxGap, e, p); }
  }

  /** And exactly an arrival that is not too old, or a reset, ends it: there are no
      timers and repairs that could, and until then nothing changes at all. */
  lemma StrandedUntil(slot: Slot, maxGap: nat, ev: Event)
    requires OneTimer(slot) && Stranded(slot)
    ensures Stranded(Step(slot, maxGap, ev).slot) <==> !Rescues(slot, ev)
    ensures !Rescues(slot, ev) ==> Step(slot, maxGap, ev) == Effect(slot, [])
  {
    if ev.Arrive? && ev.seqno >= slot.next { ArrivalLeavesTimer(slot, maxGap, ev.seqno, ev.payload); }
  }

  lemma StepNoWrap(slot: Slot, maxGap: nat, ev: Event)
    requires NoWrap(slot.pending) && BelowLast(slot, ev)
    ensures NoWrap(Step(slot, maxGap, ev).slot.pending)
  {
    StepProvenance(slot, maxGap, ev);
  }

  /** Some event of the run strands entries, and nothing after it rescues them. */
  ghost predicate StrandedAt(c: Config, maxGap: nat, evs: seq<Event>, k: nat)
    requires k < |evs|
  {
    && Strands(Exec(c, maxGap, evs[..k]).slot, evs[k])
    && forall j | k < j < |evs| :: !Rescues(Exec(c, maxGap, evs[..j]).slot, evs[j])
  }

  ghost predicate StrandedAtSome(c: Config, maxGap: nat, evs: seq<Event>) {
    exists k :: 0 <= k < |evs| && StrandedAt(c, maxGap, evs, k)
  }

  ghost predicate AllBelowLast(c: Config, maxGap: nat, evs: seq<Event>) {
    evs == [] ||
    var front := evs[..|evs| - 1];
    AllBelowLast(c, maxGap, front) && BelowLast(Exec(c, maxGap, front).slot, evs[|evs| - 1])
  }

  lemma {:induction false} RunNoWrap(c: Config, maxGap: nat, evs: seq<Event>)
    requires NoWrap(c.slot.pending) && AllBelowLast(c, maxGap, evs)
    ensures NoWrap(Exec(c, maxGap, evs).slot.pending)
  {
    if evs != [] {
      RunNoWrap(c, maxGap, evs[..|evs| - 1]);
      StepNoWrap(Exec(c, maxGap, evs[..|evs| - 1]).slot, maxGap, evs[|evs| - 1]);
    }
  }

  lemma StrandedAtFront(c: Config, maxGap: nat, front: seq<Event>, ev: Event, k: nat)
    requires k < |front|
    ensures StrandedAt(c, maxGap, front + [ev], k) <==>
            StrandedAt(c, maxGap, front, k) && !Rescues(Exec(c, maxGap, front).slot, ev)
  {
    var evs := front + [ev];
    assert forall j | 0 <= j <= |front| :: evs[..j] == front[..j];
    assert front[..|front|] == front;
    if StrandedAt(c, maxGap, evs, k) { assert !Rescues(Exec(c, maxGap, evs[..|front|]).slot, evs[|front|]); }
  }

  lemma StrandedAtLast(c: Config, maxGap: nat, front: seq<Event>, ev: Event)
    ensures StrandedAt(c, maxGap, front + [ev], |front|) <==> Strands(Exec(c, maxGap, front).slot, ev)
  {
    assert (front + [ev])[..|front|] == front;
  }

  lemma StrandedAtStep(c: Config, maxGap: nat, front: seq<Event>, ev: Event)
    ensures StrandedAtSome(c, maxGap, front + [ev]) <==>
            || Strands(Exec(c, maxGap, front).slot, ev)
            || (StrandedAtSome(c, maxGap, front) && !Rescues(Exec(c, maxGap, front).slot, ev))
  {
    StrandedAtLast(c, maxGap, front, ev);
    forall k | 0 <= k < |front|
      ensures StrandedAt(c, maxGap, front + [ev], k) <==>
              StrandedAt(c, maxGap, front, k) && !Rescues(Exec(c, maxGap, front).slot, ev)
    {
      StrandedAtFront(c, maxGap, front, ev, k);
    }
  }

  /** Over every run: entries are stranded at its end if and only if some event
      stranded them and no later one rescued them. */
  lemma {:induction false} StrandedIff(c: Config, maxGap: nat, evs: seq<Event>)
    requires OneTimer(c.slot) && NoWrap(c.slot.pending) && !Stranded(c.slot) && AllBelowLast(c, maxGap, evs)
    ensures var slot := Exec(c, maxGap, evs).slot;
            OneTimer(slot) && NoWrap(slot.pending) && (Stranded(slot) <==> StrandedAtSome(c, maxGap, evs))
  {
    if evs != [] {
      var front, ev := evs[..|evs| - 1], evs[|evs| - 1];
      var slot := Exec(c, maxGap, front).slot;
      assert evs == front + [ev];
      StrandedIff(c, maxGap, front);
      StepOneTimer(slot, maxGap, ev);
      StepNoWrap(slot, maxGap, ev);
      StrandedAtStep(c, maxGap, front, ev);
      if Stranded(slot) {
        StrandedUntil(slot, maxGap, ev);
        assert !Strands(slot, ev);
      } else {
        StrandsIff(slot, maxGap, ev);
      }
    }
  }

  lemma DrainStops(next: Seq, pending: map<Seq, Bytes>)
    requires next !in pending
    ensures Drain(next, pending) == Drained(next, pending, [])
  {
  }

  /** The one timer wakes up in time and asks for a repair. */
  lemma TimerAsks(c: Config, maxGap: nat, t: Seq)
    requires c.slot.sleeping == multiset{t} && t == c.slot.next && c.slot.repairing == multiset{}
    ensures Next(c, maxGap, TimerWakes(t)) ==
            c.(slot := c.slot.(armed := false, sleeping := multiset{}, repairing := multiset{t}))
  {
    assert multiset{t} - multiset{t} == multiset{};
    assert c.log + [] == c.log;
  }

  /** An arrival in order, or far ahead, that drains nothing. */
  lemma DeliversOne(c: Config, maxGap: nat, s: Seq, payload: Bytes)
    requires s == c.slot.next || Jumps(c.slot, maxGap, s)
    requires s < MAX_SEQ && s + 1 !in c.slot.pending && c.slot.pending != map[]
    ensures Next(c, maxGap, Arrive(s, payload)) == Config(Arm(c.slot.(next := s + 1)), c.log + [Item(s, payload)])
  {
    DrainStops(s + 1, c.slot.pending);
  }

  /** A jump over a buffered entry that breaks the order: 3 is delivered after
      100 and 101, and everything from 4 on is expected again. */
  lemma JumpExample(a: Bytes, b: Bytes, d: Bytes)
    ensures var evs := [Arrive(3, a), Arrive(100, b), TimerWakes(1), Arrive(101, d), TimerWakes(102), RepairMiss(102)];
            var c := Exec(Config(SetNext(FRESH_SLOT, 1), []), 64, evs);
            c.slot.next == 4 && c.log == [Item(100, b), Item(101, d), Item(3, a)]
  {
    var low := map[3 as Seq := a];
    assert 3 in low;
    var c0 := Config(SetNext(FRESH_SLOT, 1), []);
    var c1 := Config(Slot(1, low, true, multiset{1 as Seq}, multiset{}), []);
    var c2 := Config(Slot(101, low, true, multiset{1 as Seq}, multiset{}), [Item(100, b)]);
    var c3 := Config(Slot(101, low, false, multiset{}, multiset{}), [Item(100, b)]);
    var c4 := Config(Slot(102, low, true, multiset{102 as Seq}, multiset{}), [Item(100, b), Item(101, d)]);
    var c5 := Config(Slot(102, low, false, multiset{}, multiset{102 as Seq}), [Item(100, b), Item(101, d)]);
    assert Next(c0, 64, Arrive(3, a)) == c1;
    DeliversOne(c1, 64, 100, b);
    StaleTimerWakes(c2, 64, 1);
    DeliversOne(c3, 64, 101, d);
    assert c4.slot == Arm(c3.slot.(next := 102));
    TimerAsks(c4, 64, 102);
    LastMiss(c5, a);
    ExecTrace([c0, c1, c2, c3, c4, c5, Next(c5, 64, RepairMiss(102))], 64,
              [Arrive(3, a), Arrive(100, b), TimerWakes(1), Arrive(101, d), TimerWakes(102), RepairMiss(102)]);
  }

  lemma LastMiss(c: Config, a: Bytes)
    requires c.slot.pending == map[3 as Seq := a] && 102 in c.slot.repairing
    ensures var c' := Next(c, 64, RepairMiss(102)); c'.slot.next == 4 && c'.log == c.log + [Item(3, a)]
  {
    assert 3 in c.slot.pending.Keys;
    assert Lowest(c.slot.pending.Keys) == 3;
    assert c.slot.pending - {3} == map[];
    DrainStops(4, map[]);
  }

  lemma {:induction false} ExecTrace(cs: seq<Config>, maxGap: nat, evs: seq<Event>)
    requires |cs| == |evs| + 1 && forall i | 0 <= i < |evs| :: cs[i + 1] == Next(cs[i], maxGap, evs[i])
    ensures Exec(cs[0], maxGap, evs) == cs[|evs|]
  {
    if evs != [] { ExecTrace(cs[..|evs|], maxGap, evs[..|evs| - 1]); }
  }

  /** Numbers arrive in increasing order. Entry 100 jumps over entry 3, and the
      timer started for 1 wakes up: 3 stays buffered with no timer and no repair. */
  lemma StaleTimerExample(a: Bytes, b: Bytes)
    ensures var c := Exec(Config(SetNext(FRESH_SLOT, 1), []), 64, [Arrive(3, a), Arrive(100, b), TimerWakes(1)]);
            c.slot == Slot(101, map[3 := a], false, multiset{}, multiset{}) && Stranded(c.slot)
  {
    var low := map[3 as Seq := a];
    assert 3 in low;
    var c0 := Config(SetNext(FRESH_SLOT, 1), []);
    var c1 := Config(Slot(1, low, true, multiset{1 as Seq}, multiset{}), []);
    var c2 := Config(Slot(101, low, true, multiset{1 as Seq}, multiset{}), [Item(100, b)]);
    assert Next(c0, 64, Arrive(3, a)) == c1;
    DeliversOne(c1, 64, 100, b);
    StaleTimerWakes(c2, 64, 1);
    ExecTrace([c0, c1, c2, Next(c2, 64, TimerWakes(1))], 64, [Arrive(3, a), Arrive(100, b), TimerWakes(1)]);
  }

  /** The other way: the timer asks for 1, entries 100 and 101 arrive, the timer
      they started is too late, and the repaired entry 1 is dropped as old. */
  lemma StaleHitExample(a: Bytes, b: Bytes, d: Bytes, e: Bytes)
    ensures var evs := [Arrive(3, a), TimerWakes(1), Arrive(100, b), Arrive(101, d), TimerWakes(101), RepairHit(1, e)];
            var c := Exec(Config(SetNext(FRESH_SLOT, 1), []), 64, evs);
            c.slot == Slot(102, map[3 := a], false, multiset{}, multiset{}) && Stranded(c.slot)
  {
    var low := map[3 as Seq := a];
    assert 3 in low;
    var c0 := Config(SetNext(FRESH_SLOT, 1), []);
    var c1 := Config(Slot(1, low, true, multiset{1 as Seq}, multiset{}), []);
    var c2 := Config(Slot(1, low, false, multiset{}, multiset{1 as Seq}), []);
    var c3 := Config(Slot(101, low, true, multiset{101 as Seq}, multiset{1 as Seq}), [Item(100, b)]);
    var c4 := Config(Slot(102, low, true, multiset{101 as Seq}, multiset{1 as Seq}), [Item(100, b), Item(101, d)]);
    assert Next(c0, 64, Arrive(3, a)) == c1;
    TimerAsks(c1, 64, 1);
    DeliversOne(c2, 64, 100, b);
    assert c3.slot == Arm(c2.slot.(next := 101));
    DeliversOne(c3, 64, 101, d);
    StaleTimerWakes(c4, 64, 101);
    var c5 := Next(c4, 64, TimerWakes(101));
    assert multiset{1 as Seq} - multiset{1 as Seq} == multiset{};
    ExecTrace([c0, c1, c2, c3, c4, c5, Next(c5, 64, RepairHit(1, e))], 64,
              [Arrive(3, a), TimerWakes(1), Arrive(100, b), Arrive(101, d), TimerWakes(101), RepairHit(1, e)]);
  }
}
