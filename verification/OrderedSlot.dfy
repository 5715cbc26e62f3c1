/** One topic of the ordered applier as a state machine over values.

    A slot holds the next expected sequence number, the reorder buffer, the
    one-bit timer flag, the gap timers that are asleep (each remembers the
    `next` it was started at) and the timers that woke up and are now waiting
    for the outcome of a repair pull.
 */
module OrderedSlot {
  import opened Types

  datatype Item = Item(seqno: Seq, payload: Bytes)

  datatype Slot = Slot(
    next: Seq,
    pending: map<Seq, Bytes>,
    armed: bool,
    sleeping: multiset<Seq>,
    repairing: multiset<Seq>)

  /** The slot of a fresh applier. */
  const FRESH_SLOT := Slot(0, map[], false, multiset{}, multiset{})

  /** A new slot together with the items handed to `deliver`, in order. */
  datatype Effect = Effect(slot: Slot, out: seq<Item>)

  datatype Drained = Drained(next: Seq, pending: map<Seq, Bytes>, out: seq<Item>)

  // ----- Operations -----

  /** Consecutive buffered entries from `next` on leave the buffer in order. */
  function Drain(next: Seq, pending: map<Seq, Bytes>): Drained
    decreases |pending|
  {
    if next !in pending then
      Drained(next, pending, [])
    else
      RemoveShrinks(pending, next);
      var rest := Drain(Inc(next), pending - {next});
      rest.(out := [Item(next, pending[next])] + rest.out)
  }

  /** Starts a gap timer unless one is already asleep. */
  function Arm(slot: Slot): Slot {
    if slot.armed then slot
    else slot.(armed := true, sleeping := slot.sleeping + multiset{slot.next})
  }

  function DrainSlot(slot: Slot): Effect {
    var d := Drain(slot.next, slot.pending);
    var drained := slot.(next := d.next, pending := d.pending);
    Effect(if d.pending == map[] then drained else Arm(drained), d.out)
  }

  function Receive(slot: Slot, maxGap: nat, s: Seq, payload: Bytes): Effect {
    if s < slot.next then
      Effect(slot, [])
    else if slot.next < s <= slot.next + maxGap then
      Effect(Arm(slot.(pending := slot.pending[s := payload])), [])
    else
      var e := DrainSlot(slot.(next := Inc(s)));
      e.(out := [Item(s, payload)] + e.out)
  }

  /** The lowest buffered sequence number; `MAX_SEQ` stands for "none". */
  ghost function Lowest(keys: set<Seq>): (m: Seq)
    ensures m == MAX_SEQ || m in keys
    ensures forall k <- keys :: m <= k
  {
    if keys == {} then MAX_SEQ
    else
      var k :| k in keys;
      var m := Lowest(keys - {k});
      assert forall j <- keys :: j == k || j in keys - {k};
      if k < m then k else m
  }

  ghost function SkipGap(slot: Slot): Effect {
    var m := Lowest(slot.pending.Keys);
    if m == MAX_SEQ then Effect(slot, []) else DrainSlot(slot.(next := m))
  }

  function SetNext(slot: Slot, s: Seq): Slot {
    slot.(next := s, pending := map[])
  }

  /** A sleeping timer wakes up. It clears the flag and goes on to ask for a
      repair only when nothing was delivered since it was started. */
  function Wake(slot: Slot, expected: Seq): Slot {
    var woken := slot.(armed := false, sleeping := slot.sleeping - multiset{expected});
    if slot.next == expected then woken.(repairing := slot.repairing + multiset{expected}) else woken
  }

  function EndRepair(slot: Slot, expected: Seq): Slot {
    slot.(repairing := slot.repairing - multiset{expected})
  }

  // ----- Events -----

  /** Everything that can happen to a topic. The outcome of a repair pull is
      the environment's choice, and so is the moment a timer wakes up. */
  datatype Event =
    | Arrive(seqno: Seq, payload: Bytes)
    | TimerWakes(expected: Seq)
    | RepairHit(expected: Seq, payload: Bytes)
    | RepairMiss(expected: Seq)
    | Reset(seqno: Seq)

  /** Whether the event can happen now; an event that cannot is ignored. */
  predicate Enabled(slot: Slot, ev: Event) {
    match ev
    case TimerWakes(e) => e in slot.sleeping
    case RepairHit(e, _) => e in slot.repairing
    case RepairMiss(e) => e in slot.repairing
    case _ => true
  }

  ghost function Step(slot: Slot, maxGap: nat, ev: Event): Effect {
    if !Enabled(slot, ev) then Effect(slot, []) else
    match ev
    case Arrive(s, p) => Receive(slot, maxGap, s, p)
    case TimerWakes(e) => Effect(Wake(slot, e), [])
    case RepairHit(e, p) => Receive(EndRepair(slot, e), maxGap, e, p)
    case RepairMiss(e) => SkipGap(EndRepair(slot, e))
    case Reset(s) => Effect(SetNext(slot, s), [])
  }

  /** The entry that reaches the applier with this event, if any. */
  function Arrival(slot: Slot, ev: Event): Option<Item> {
    match ev
    case Arrive(s, p) => Some(Item(s, p))
    case RepairHit(e, p) => if e in slot.repairing then Some(Item(e, p)) else None
    case _ => None
  }

  /** Delivered items as gossip entries of their topic. */
  function Tag(topic: Topic, out: seq<Item>): (es: seq<Entry>)
    ensures |es| == |out|
    ensures forall i | 0 <= i < |out| :: es[i] == Entry(topic, out[i].seqno, out[i].payload)
  {
    seq(|out|, i requires 0 <= i < |out| => Entry(topic, out[i].seqno, out[i].payload))
  }

  // ----- Facts about draining -----

  lemma RemoveShrinks(pending: map<Seq, Bytes>, k: Seq)
    requires k in pending
    ensures |pending - {k}| == |pending| - 1
  {
    assert (pending - {k}).Keys == pending.Keys - {k};
  }

  /** Out-of-order delivery is the only thing wrap-around affects, so the plain
      description of a drain is for buffers without the last sequence number. */
  ghost predicate NoWrap(pending: map<Seq, Bytes>) {
    MAX_SEQ !in pending
  }

  /** `out` lists consecutive buffered entries from `next` on. */
  ghost predicate IsRun(out: seq<Item>, next: Seq, pending: map<Seq, Bytes>) {
    forall i | 0 <= i < |out| ::
      out[i].seqno == next + i && out[i].seqno in pending && out[i].payload == pending[out[i].seqno]
  }

  /** A drain hands out exactly the run of consecutive keys starting at `next`
      with their buffered payloads, and keeps every other key untouched. */
  lemma {:induction false} DrainIsRun(next: Seq, pending: map<Seq, Bytes>)
    requires NoWrap(pending)
    ensures var d := Drain(next, pending);
            && d.next == next + |d.out|
            && d.next !in pending
            && IsRun(d.out, next, pending)
            && (forall k :: k in d.pending <==> k in pending && !(next <= k < d.next))
            && (forall k <- d.pending :: d.pending[k] == pending[k])
    decreases |pending|
  {
    if next in pending {
      RemoveShrinks(pending, next);
      DrainIsRun(next + 1, pending - {next});
    }
  }

  /** What comes out of a drain was in the buffer, and what stays was too. */
  lemma {:induction false} DrainTakesFromPending(next: Seq, pending: map<Seq, Bytes>)
    ensures var d := Drain(next, pending);
            && d.next !in d.pending
            && (forall it <- d.out :: it.seqno in pending && it.payload == pending[it.seqno])
            && (forall k <- d.pending :: k in pending && d.pending[k] == pending[k])
    decreases |pending|
  {
    if next in pending {
      RemoveShrinks(pending, next);
      DrainTakesFromPending(Inc(next), pending - {next});
    }
  }

  ghost predicate ItemIn(it: Item, pending: map<Seq, Bytes>) {
    it.seqno in pending && pending[it.seqno] == it.payload
  }

  /** Every item delivered or buffered afterwards is `a` or was buffered. */
  ghost predicate ComesFrom(e: Effect, pending: map<Seq, Bytes>, a: Option<Item>) {
    && (forall it <- e.out :: Some(it) == a || ItemIn(it, pending))
    && (forall k <- e.slot.pending :: Some(Item(k, e.slot.pending[k])) == a || ItemIn(Item(k, e.slot.pending[k]), pending))
  }

  lemma ReceiveProvenance(slot: Slot, maxGap: nat, it: Item)
    ensures ComesFrom(Receive(slot, maxGap, it.seqno, it.payload), slot.pending, Some(it))
  {
    DrainTakesFromPending(Inc(it.seqno), slot.pending);
  }

  lemma SkipGapProvenance(slot: Slot)
    ensures ComesFrom(SkipGap(slot), slot.pending, None)
  {
    DrainTakesFromPending(Lowest(slot.pending.Keys), slot.pending);
  }

  /** Nothing appears from nowhere: every item delivered or buffered after a
      step is the arriving one or was buffered before. */
  lemma StepProvenance(slot: Slot, maxGap: nat, ev: Event)
    ensures ComesFrom(Step(slot, maxGap, ev), slot.pending, Arrival(slot, ev))
  {
    if Enabled(slot, ev) {
      match ev
      case Arrive(s, p) => ReceiveProvenance(slot, maxGap, Item(s, p));
      case RepairHit(e, p) => ReceiveProvenance(EndRepair(slot, e), maxGap, Item(e, p));
      case RepairMiss(e) => SkipGapProvenance(EndRepair(slot, e));
      case _ =>
    }
  }
}
