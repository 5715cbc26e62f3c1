/** The books of one applier topic: where every received entry ends up. */
module OrderedLedger {
  import opened Types
  import opened OrderedSlot
  import opened OrderedRuns

  /** Everything received, and where what was not delivered went. */
  datatype Books = Books(
    received: multiset<Item>,
    dropped: multiset<Item>,
    overwritten: multiset<Item>,
    cleared: multiset<Item>)

  /** The buffered entries as a multiset. */
  ghost function Buffered(pending: map<Seq, Bytes>): (b: multiset<Item>)
    ensures forall it: Item ::
              b[it] == if it.seqno in pending && pending[it.seqno] == it.payload then 1 else 0
  {
    multiset(set k | k in pending :: Item(k, pending[k]))
  }

  predicate Stores(slot: Slot, maxGap: nat, s: Seq) {
    slot.next < s <= slot.next + maxGap
  }

  // What one event adds to each column.

  ghost function Arrived(slot: Slot, ev: Event): multiset<Item> {
    var a := Arrival(slot, ev);
    if a.Some? then multiset{a.value} else multiset{}
  }

  ghost function Dropped(slot: Slot, ev: Event): multiset<Item> {
    var a := Arrival(slot, ev);
    if a.Some? && a.value.seqno < slot.next then multiset{a.value} else multiset{}
  }

  ghost function Displaced(slot: Slot, maxGap: nat, ev: Event): multiset<Item> {
    var a := Arrival(slot, ev);
    if a.Some? && Stores(slot, maxGap, a.value.seqno) && a.value.seqno in slot.pending
    then multiset{Item(a.value.seqno, slot.pending[a.value.seqno])} else multiset{}
  }

  ghost function Cleared(slot: Slot, ev: Event): multiset<Item> {
    if ev.Reset? then Buffered(slot.pending) else multiset{}
  }

  /** The books after a run that starts with the given slot; what it holds in
      its buffer at the start counts as received. */
  ghost function Audit(c: Config, maxGap: nat, evs: seq<Event>): Books {
    if evs == [] then
      Books(Buffered(c.slot.pending) + multiset(c.log), multiset{}, multiset{}, multiset{})
    else
      var front, ev := evs[..|evs| - 1], evs[|evs| - 1];
      var b, slot := Audit(c, maxGap, front), Exec(c, maxGap, front).slot;
      Books(b.received + Arrived(slot, ev),
            b.dropped + Dropped(slot, ev),
            b.overwritten + Displaced(slot, maxGap, ev),
            b.cleared + Cleared(slot, ev))
  }

  /** The last payload that a run stored in the buffer under each number. */
  ghost function LastStored(c: Config, maxGap: nat, evs: seq<Event>): map<Seq, Bytes> {
    if evs == [] then c.slot.pending
    else
      var front, ev := evs[..|evs| - 1], evs[|evs| - 1];
      var stored, slot := LastStored(c, maxGap, front), Exec(c, maxGap, front).slot;
      var a := Arrival(slot, ev);
      if a.Some? && Stores(slot, maxGap, a.value.seqno) then stored[a.value.seqno := a.value.payload] else stored
  }

  // ----- Conservation -----

  lemma BufferedRemove(pending: map<Seq, Bytes>, k: Seq)
    requires k in pending
    ensures Buffered(pending) == Buffered(pending - {k}) + multiset{Item(k, pending[k])}
  {
    var whole, rest, one := Buffered(pending), Buffered(pending - {k}), multiset{Item(k, pending[k])};
    assert forall it: Item :: whole[it] == (rest + one)[it];
  }

  /** Storing an item displaces the entry buffered under its number, if any. */
  lemma BufferedStore(pending: map<Seq, Bytes>, it: Item)
    ensures var displaced := if it.seqno in pending then multiset{Item(it.seqno, pending[it.seqno])} else multiset{};
            Buffered(pending[it.seqno := it.payload]) + displaced == Buffered(pending) + multiset{it}
  {
    var stored := pending[it.seqno := it.payload];
    BufferedRemove(stored, it.seqno);
    assert stored - {it.seqno} == pending - {it.seqno};
    if it.seqno in pending {
      BufferedRemove(pending, it.seqno);
    } else {
      assert pending - {it.seqno} == pending;
    }
  }

  lemma {:induction false} DrainConserves(next: Seq, pending: map<Seq, Bytes>)
    ensures multiset(Drain(next, pending).out) + Buffered(Drain(next, pending).pending) == Buffered(pending)
    decreases |pending|
  {
    if next in pending {
      RemoveShrinks(pending, next);
      DrainConserves(Inc(next), pending - {next});
      BufferedRemove(pending, next);
    }
  }

  lemma DrainSlotConserves(slot: Slot)
    ensures multiset(DrainSlot(slot).out) + Buffered(DrainSlot(slot).slot.pending) == Buffered(slot.pending)
  {
    DrainConserves(slot.next, slot.pending);
  }

  lemma DeliverConserves(slot: Slot, it: Item)
    ensures var e := DrainSlot(slot.(next := Inc(it.seqno)));
            multiset([it] + e.out) + Buffered(e.slot.pending) == Buffered(slot.pending) + multiset{it}
  {
    var e := DrainSlot(slot.(next := Inc(it.seqno)));
    DrainSlotConserves(slot.(next := Inc(it.seqno)));
    assert multiset([it] + e.out) == multiset{it} + multiset(e.out);
  }

  lemma ReceiveConserves(slot: Slot, maxGap: nat, it: Item)
    ensures var e, ev := Receive(slot, maxGap, it.seqno, it.payload), Arrive(it.seqno, it.payload);
            multiset(e.out) + Dropped(slot, ev) + Displaced(slot, maxGap, ev) + Buffered(e.slot.pending)
            == Buffered(slot.pending) + multiset{it}
  {
    if Stores(slot, maxGap, it.seqno) {
      BufferedStore(slot.pending, it);
    } else if it.seqno >= slot.next {
      DeliverConserves(slot, it);
    }
  }

  lemma SkipGapConserves(slot: Slot)
    ensures multiset(SkipGap(slot).out) + Buffered(SkipGap(slot).slot.pending) == Buffered(slot.pending)
  {
    var m := Lowest(slot.pending.Keys);
    if m != MAX_SEQ { DrainSlotConserves(slot.(next := m)); }
  }

  /** A step hands on exactly what it takes in. */
  lemma StepConserves(slot: Slot, maxGap: nat, ev: Event)
    ensures multiset(Step(slot, maxGap, ev).out) + Dropped(slot, ev) + Displaced(slot, maxGap, ev) + Cleared(slot, ev)
            + Buffered(Step(slot, maxGap, ev).slot.pending)
            == Buffered(slot.pending) + Arrived(slot, ev)
  {
    if Enabled(slot, ev) {
      match ev
      case Arrive(s, p) => ReceiveConserves(slot, maxGap, Item(s, p));
      case TimerWakes(e) =>
      case RepairHit(e, p) => HitConserves(slot, maxGap, e, p);
      case RepairMiss(e) => SkipGapConserves(EndRepair(slot, e));
      case Reset(s) => ResetConserves(slot, s);
    }
  }

  lemma ResetConserves(slot: Slot, s: Seq)
    ensures Cleared(slot, Reset(s)) + Buffered(SetNext(slot, s).pending) == Buffered(slot.pending)
  {
    assert Buffered(map[]) == multiset{};
  }

  lemma HitConserves(slot: Slot, maxGap: nat, e: Seq, p: Bytes)
    requires e in slot.repairing
    ensures var ev := RepairHit(e, p);
            multiset(Step(slot, maxGap, ev).out) + Dropped(slot, ev) + Displaced(slot, maxGap, ev)
            + Buffered(Step(slot, maxGap, ev).slot.pending)
            == Buffered(slot.pending) + Arrived(slot, ev)
  {
    ReceiveConserves(EndRepair(slot, e), maxGap, Item(e, p));
  }

  /** Sums of two balanced accounts balance. */
  lemma AddUp(r: multiset<Item>, l: multiset<Item>, d: multiset<Item>, o: multiset<Item>, cl: multiset<Item>, b: multiset<Item>,
              r': multiset<Item>, l': multiset<Item>, d': multiset<Item>, o': multiset<Item>, cl': multiset<Item>, b': multiset<Item>)
    requires r == l + d + o + cl + b
    requires l' + d' + o' + cl' + b' == b + r'
    ensures r + r' == (l + l') + (d + d') + (o + o') + (cl + cl') + b'
  {
    forall it: Item
      ensures (r + r')[it] == ((l + l') + (d + d') + (o + o') + (cl + cl') + b')[it]
    {
      assert (l' + d' + o' + cl' + b')[it] == (b + r')[it];
    }
  }

  /** Over any run, from any state and with no assumption on the order of
      arrivals, every item the applier was given is accounted for exactly once:
      delivered, still buffered, dropped as old, overwritten by a later arrival
      of the same number, or cleared by a reset. */
  lemma {:induction false} Conservation(c: Config, maxGap: nat, evs: seq<Event>)
    ensures var c', b := Exec(c, maxGap, evs), Audit(c, maxGap, evs);
            b.received == multiset(c'.log) + b.dropped + b.overwritten + b.cleared + Buffered(c'.slot.pending)
  {
    if evs != [] {
      var front, ev := evs[..|evs| - 1], evs[|evs| - 1];
      Conservation(c, maxGap, front);
      var c1, b := Exec(c, maxGap, front), Audit(c, maxGap, front);
      var e := Step(c1.slot, maxGap, ev);
      StepConserves(c1.slot, maxGap, ev);
      AddUp(b.received, multiset(c1.log), b.dropped, b.overwritten, b.cleared, Buffered(c1.slot.pending),
            Arrived(c1.slot, ev), multiset(e.out), Dropped(c1.slot, ev), Displaced(c1.slot, maxGap, ev), Cleared(c1.slot, ev),
            Buffered(e.slot.pending));
      assert multiset(c1.log + e.out) == multiset(c1.log) + multiset(e.out);
    }
  }

  // ----- Payloads -----

  ghost predicate SubMap(m: map<Seq, Bytes>, m': map<Seq, Bytes>) {
    forall k <- m :: k in m' && m'[k] == m[k]
  }

  lemma ReceiveKeeps(slot: Slot, maxGap: nat, it: Item)
    ensures SubMap(Receive(slot, maxGap, it.seqno, it.payload).slot.pending,
                   if Stores(slot, maxGap, it.seqno) then slot.pending[it.seqno := it.payload] else slot.pending)
  {
    DrainTakesFromPending(Inc(it.seqno), slot.pending);
  }

  lemma StepKeeps(slot: Slot, maxGap: nat, ev: Event)
    ensures var a := Arrival(slot, ev);
            SubMap(Step(slot, maxGap, ev).slot.pending,
                   if a.Some? && Stores(slot, maxGap, a.value.seqno) then slot.pending[a.value.seqno := a.value.payload]
                   else slot.pending)
  {
    if Enabled(slot, ev) {
      match ev
      case Arrive(s, p) => ReceiveKeeps(slot, maxGap, Item(s, p));
      case TimerWakes(e) =>
      case RepairHit(e, p) => ReceiveKeeps(EndRepair(slot, e), maxGap, Item(e, p));
      case RepairMiss(e) => DrainTakesFromPending(Lowest(slot.pending.Keys), slot.pending);
      case Reset(s) =>
    }
  }

  lemma {:induction false} BufferHoldsLastStored(c: Config, maxGap: nat, evs: seq<Event>)
    ensures SubMap(Exec(c, maxGap, evs).slot.pending, LastStored(c, maxGap, evs))
  {
    if evs != [] {
      BufferHoldsLastStored(c, maxGap, evs[..|evs| - 1]);
      StepKeeps(Exec(c, maxGap, evs[..|evs| - 1]).slot, maxGap, evs[|evs| - 1]);
    }
  }

  /** Every delivery of a run is the arriving entry itself or carries the last
      payload that was buffered under its sequence number. */
  lemma DeliversLastStored(c: Config, maxGap: nat, evs: seq<Event>, ev: Event)
    ensures var slot, stored := Exec(c, maxGap, evs).slot, LastStored(c, maxGap, evs);
            forall it <- Step(slot, maxGap, ev).out ::
              Some(it) == Arrival(slot, ev) || (it.seqno in stored && it.payload == stored[it.seqno])
  {
    BufferHoldsLastStored(c, maxGap, evs);
    StepProvenance(Exec(c, maxGap, evs).slot, maxGap, ev);
  }
}
