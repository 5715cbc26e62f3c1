/** One applier topic that is fed numbers in increasing order, as duplicate
    detection feeds it: nothing is dropped or overwritten, and an arrival never
    releases anything but itself.
 */
module OrderedFeed {
  import opened Types
  import opened OrderedSlot
  import opened OrderedLedger

  /** Nothing expected or buffered lies beyond the highest number that arrived. */
  ghost predicate Within(slot: Slot, mark: Seq) {
    slot.next <= mark + 1 && forall k <- slot.pending :: k <= mark && k < MAX_SEQ
  }

  lemma HigherMark(slot: Slot, mark: Seq, mark': Seq)
    requires Within(slot, mark) && mark <= mark'
    ensures Within(slot, mark')
  {
  }

  /** What an arrival releases besides itself has a higher number. */
  lemma ReleasesAbove(slot: Slot, maxGap: nat, s: Seq, payload: Bytes)
    requires NoWrap(slot.pending) && s < MAX_SEQ
    ensures forall it <- Receive(slot, maxGap, s, payload).out :: it == Item(s, payload) || it.seqno > s
  {
    DrainIsRun(Inc(s), slot.pending);
  }

  /** A number above the mark is delivered or buffered, and nothing else moves. */
  lemma FeedArrival(slot: Slot, maxGap: nat, it: Item, mark: Seq)
    requires Within(slot, mark) && mark < it.seqno < MAX_SEQ
    ensures var e := Receive(slot, maxGap, it.seqno, it.payload);
            && Within(e.slot, it.seqno)
            && (e.out == [] || e.out == [it])
            && multiset(e.out) + Buffered(e.slot.pending) == Buffered(slot.pending) + multiset{it}
  {
    ReceiveConserves(slot, maxGap, it);
    if !Stores(slot, maxGap, it.seqno) {
      assert Drain(it.seqno + 1, slot.pending) == Drained(it.seqno + 1, slot.pending, []);
      assert [it] + [] == [it];
    }
  }

  lemma FeedMiss(slot: Slot, mark: Seq)
    requires Within(slot, mark)
    ensures var e := SkipGap(slot);
            Within(e.slot, mark) && multiset(e.out) + Buffered(e.slot.pending) == Buffered(slot.pending)
  {
    SkipGapConserves(slot);
    var m := Lowest(slot.pending.Keys);
    if m != MAX_SEQ {
      DrainIsRun(m, slot.pending);
      var d := Drain(m, slot.pending);
      if d.out != [] { assert d.out[|d.out| - 1].seqno == d.next - 1; }
    }
  }

  /** Timers and missed repairs. */
  lemma FeedTimer(slot: Slot, maxGap: nat, ev: Event, mark: Seq)
    requires Within(slot, mark) && (ev.TimerWakes? || ev.RepairMiss?)
    ensures var e := Step(slot, maxGap, ev);
            Within(e.slot, mark) && multiset(e.out) + Buffered(e.slot.pending) == Buffered(slot.pending)
  {
    if Enabled(slot, ev) && ev.RepairMiss? { FeedMiss(EndRepair(slot, ev.expected), mark); }
  }
}
