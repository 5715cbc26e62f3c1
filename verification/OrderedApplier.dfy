/** The ordered applier as the object it is: one cell per topic in each of its
    tables, updated in place. Every method is proved to do to the cells of its
    topic what the slot machine says, and nothing to any other topic.
 */
module OrderedApplier {
  import opened Types
  import opened OrderedSlot

  /** The gap timers of a topic: asleep, and waiting for a repair pull. */
  datatype Timers = Timers(sleeping: multiset<Seq>, repairing: multiset<Seq>)

  /** A drain of which some entries are already out. */
  ghost function After(out: seq<Item>, d: Drained): Drained {
    d.(out := out + d.out)
  }

  lemma DrainNext(out: seq<Item>, next: Seq, pending: map<Seq, Bytes>)
    requires next in pending
    ensures |pending - {next}| < |pending|
    ensures After(out, Drain(next, pending)) == After(out + [Item(next, pending[next])], Drain(Inc(next), pending - {next}))
  {
    RemoveShrinks(pending, next);
    var rest := Drain(Inc(next), pending - {next}).out;
    assert out + ([Item(next, pending[next])] + rest) == (out + [Item(next, pending[next])]) + rest;
  }

  lemma TagOne(topic: Topic, out: seq<Item>, it: Item)
    ensures Tag(topic, out + [it]) == Tag(topic, out) + [Entry(topic, it.seqno, it.payload)]
  {
  }

  class Applier {
    const maxGapBuffer: nat
    const nextSeq: array<Seq>
    const pending: array<map<Seq, Bytes>>
    const gapTimers: array<bool>
    const timers: array<Timers>
    /** Everything handed to `deliver`, oldest first. */
    var delivered: seq<Entry>

    ghost predicate Valid()
      reads this
    {
      nextSeq.Length == pending.Length == gapTimers.Length == timers.Length == MAX_SLOTS
    }

    ghost function SlotAt(t: Topic): Slot
      requires Valid()
      reads this, nextSeq, pending, gapTimers, timers
    {
      Slot(nextSeq[t], pending[t], gapTimers[t], timers[t].sleeping, timers[t].repairing)
    }

    ghost function AllSlots(): (all: seq<Slot>)
      requires Valid()
      reads this, nextSeq, pending, gapTimers, timers
      ensures |all| == MAX_SLOTS && forall t: Topic :: all[t] == SlotAt(t)
    {
      seq(MAX_SLOTS, t requires 0 <= t < MAX_SLOTS && Valid() reads this, nextSeq, pending, gapTimers, timers => SlotAt(t))
    }

    ghost predicate AllFresh()
      requires Valid()
      reads this, nextSeq, pending, gapTimers, timers
    {
      forall t: Topic :: SlotAt(t) == FRESH_SLOT
    }

    constructor (maxGapBuffer: nat)
      ensures Valid() && this.maxGapBuffer == maxGapBuffer
      ensures fresh(nextSeq) && fresh(pending) && fresh(gapTimers) && fresh(timers)
      ensures AllFresh() && delivered == []
    {
      this.maxGapBuffer := maxGapBuffer;
      nextSeq := new Seq[MAX_SLOTS](_ => 0);
      pending := new map<Seq, Bytes>[MAX_SLOTS](_ => map[]);
      gapTimers := new bool[MAX_SLOTS](_ => false);
      timers := new Timers[MAX_SLOTS](_ => Timers(multiset{}, multiset{}));
      delivered := [];
    }

    /** Starts a gap timer unless one is asleep. */
    method StartTimer(topic: Topic)
      requires Valid()
      modifies gapTimers, timers
      ensures SlotAt(topic) == Arm(old(SlotAt(topic)))
      ensures forall t: Topic | t != topic :: SlotAt(t) == old(SlotAt(t))
    {
      if !gapTimers[topic] {
        gapTimers[topic] := true;
        timers[topic] := timers[topic].(sleeping := timers[topic].sleeping + multiset{nextSeq[topic]});
      }
    }

    method DrainPending(topic: Topic)
      requires Valid()
      modifies this`delivered, nextSeq, pending, gapTimers, timers
      ensures SlotAt(topic) == DrainSlot(old(SlotAt(topic))).slot
      ensures delivered == old(delivered) + Tag(topic, DrainSlot(old(SlotAt(topic))).out)
      ensures forall t: Topic | t != topic :: SlotAt(t) == old(SlotAt(t))
    {
      DrainRun(topic);
      if pending[topic] != map[] {
        StartTimer(topic);
      }
    }

    /** Hands out the run of consecutive entries. */
    method DrainRun(topic: Topic)
      requires Valid()
      modifies this`delivered, nextSeq, pending
      ensures var d := Drain(old(nextSeq[topic]), old(pending[topic]));
              SlotAt(topic) == old(SlotAt(topic)).(next := d.next, pending := d.pending) && delivered == old(delivered) + Tag(topic, d.out)
      ensures forall t: Topic | t != topic :: SlotAt(t) == old(SlotAt(t))
    {
      ghost var d := Drain(nextSeq[topic], pending[topic]);
      ghost var out: seq<Item> := [];
      while nextSeq[topic] in pending[topic]
        invariant d == After(out, Drain(nextSeq[topic], pending[topic]))
        invariant delivered == old(delivered) + Tag(topic, out)
        invariant SlotAt(topic) == old(SlotAt(topic)).(next := nextSeq[topic], pending := pending[topic])
        invariant forall t: Topic | t != topic :: SlotAt(t) == old(SlotAt(t))
        decreases |pending[topic]|
      {
        var next := nextSeq[topic];
        var payload := pending[topic][next];
        DrainNext(out, next, pending[topic]);
        TagOne(topic, out, Item(next, payload));
        out := out + [Item(next, payload)];
        pending[topic] := pending[topic] - {next};
        delivered := delivered + [Entry(topic, next, payload)];
        nextSeq[topic] := Inc(next);
      }
      assert out + [] == out;
    }

    method Receive(topic: Topic, s: Seq, payload: Bytes)
      requires Valid()
      modifies this`delivered, nextSeq, pending, gapTimers, timers
      ensures SlotAt(topic) == OrderedSlot.Receive(old(SlotAt(topic)), maxGapBuffer, s, payload).slot
      ensures delivered ==
              old(delivered) + Tag(topic, OrderedSlot.Receive(old(SlotAt(topic)), maxGapBuffer, s, payload).out)
      ensures forall t: Topic | t != topic :: SlotAt(t) == old(SlotAt(t))
    {
      var expected := nextSeq[topic];
      if s < expected {
        return;
      }
      if s > expected && s - expected <= maxGapBuffer {
        pending[topic] := pending[topic][s := payload];
        StartTimer(topic);
        return;
      }
      delivered := delivered + [Entry(topic, s, payload)];
      nextSeq[topic] := Inc(s);
      DrainPending(topic);
    }

    /** The lowest buffered number, searched for in no particular order. */
    method LowestPending(topic: Topic) returns (low: Seq)
      requires Valid()
      ensures low == Lowest(pending[topic].Keys)
    {
      low := MAX_SEQ;
      var todo := pending[topic].Keys;
      while todo != {}
        invariant todo <= pending[topic].Keys
        invariant low == MAX_SEQ || low in pending[topic].Keys
        invariant forall k <- pending[topic].Keys :: low <= k || k in todo
      {
        var k :| k in todo;
        todo := todo - {k};
        if k < low { low := k; }
      }
    }

    method SkipGap(topic: Topic)
      requires Valid()
      modifies this`delivered, nextSeq, pending, gapTimers, timers
      ensures SlotAt(topic) == OrderedSlot.SkipGap(old(SlotAt(topic))).slot
      ensures delivered == old(delivered) + Tag(topic, OrderedSlot.SkipGap(old(SlotAt(topic))).out)
      ensures forall t: Topic | t != topic :: SlotAt(t) == old(SlotAt(t))
    {
      var low := LowestPending(topic);
      if low != MAX_SEQ {
        nextSeq[topic] := low;
        DrainPending(topic);
      }
    }

    method SetNextSeq(topic: Topic, s: Seq)
      requires Valid()
      modifies nextSeq, pending
      ensures SlotAt(topic) == SetNext(old(SlotAt(topic)), s)
      ensures forall t: Topic | t != topic :: SlotAt(t) == old(SlotAt(t))
    {
      nextSeq[topic] := s;
      while pending[topic] != map[]
        invariant SlotAt(topic) == old(SlotAt(topic)).(next := s, pending := pending[topic])
        invariant forall t: Topic | t != topic :: SlotAt(t) == old(SlotAt(t))
        decreases |pending[topic]|
      {
        var k :| k in pending[topic].Keys;
        RemoveShrinks(pending[topic], k);
        pending[topic] := pending[topic] - {k};
      }
    }

    /** A timer's first half: it wakes up, clears the flag, and says whether it
        goes on to ask for a repair. */
    method TimerWakes(topic: Topic, expected: Seq) returns (asks: bool)
      requires Valid() && expected in timers[topic].sleeping
      modifies gapTimers, timers
      ensures SlotAt(topic) == Wake(old(SlotAt(topic)), expected)
      ensures asks <==> old(nextSeq[topic]) == expected
      ensures forall t: Topic | t != topic :: SlotAt(t) == old(SlotAt(t))
    {
      gapTimers[topic] := false;
      var asleep := timers[topic].sleeping - multiset{expected};
      asks := nextSeq[topic] == expected;
      timers[topic] := Timers(asleep, if asks then timers[topic].repairing + multiset{expected} else timers[topic].repairing);
    }

    /** A timer's second half: the repair pull delivered a payload, or it did
        not and the gap is skipped. */
    method RepairEnds(topic: Topic, expected: Seq, outcome: Option<Bytes>)
      requires Valid() && expected in timers[topic].repairing
      modifies this`delivered, nextSeq, pending, gapTimers, timers
      ensures var done := EndRepair(old(SlotAt(topic)), expected);
              var e := if outcome.Some? then OrderedSlot.Receive(done, maxGapBuffer, expected, outcome.value)
                       else OrderedSlot.SkipGap(done);
              SlotAt(topic) == e.slot && delivered == old(delivered) + Tag(topic, e.out)
      ensures forall t: Topic | t != topic :: SlotAt(t) == old(SlotAt(t))
    {
      timers[topic] := timers[topic].(repairing := timers[topic].repairing - multiset{expected});
      match outcome
      case Some(payload) => Receive(topic, expected, payload);
      case None => SkipGap(topic);
    }
  }
}
