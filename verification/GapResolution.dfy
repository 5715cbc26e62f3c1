/** How a gap is resolved once no more entries arrive: the timer fires, a repair
    hits or misses, and a new timer is started while entries remain.
 */
module GapResolution {
  import opened Types
  import opened OrderedSlot
  import opened OrderedRuns

  /** Nothing is buffered and no timer runs. */
  ghost predicate Settled(slot: Slot) {
    slot.pending == map[] && !slot.armed && slot.sleeping == multiset{} && slot.repairing == multiset{}
  }

  /** Everything buffered is still to come, however far ahead. */
  ghost predicate AllAbove(slot: Slot) {
    forall k <- slot.pending :: slot.next < k < MAX_SEQ
  }

  /** Everything buffered is above `next`, and either nothing is and no timer runs,
      or exactly one timer is asleep, started at `next`. */
  ghost predicate Poised(slot: Slot) {
    && AllAbove(slot)
    && (Settled(slot) || (slot.armed && slot.sleeping == multiset{slot.next} && slot.repairing == multiset{}))
  }

  /** The timer fires and its repair pull ends: with a payload, or with none. */
  ghost function Fire(slot: Slot, maxGap: nat, outcome: Option<Bytes>): Effect {
    var woken := Step(slot, maxGap, TimerWakes(slot.next)).slot;
    match outcome
    case Some(p) => Step(woken, maxGap, RepairHit(slot.next, p))
    case None => Step(woken, maxGap, RepairMiss(slot.next))
  }

  ghost function Fires(slot: Slot, maxGap: nat, outcomes: seq<Option<Bytes>>): Effect
    decreases |outcomes|
  {
    if outcomes == [] then Effect(slot, [])
    else
      var first := Fire(slot, maxGap, outcomes[0]);
      var rest := Fires(first.slot, maxGap, outcomes[1..]);
      Effect(rest.slot, first.out + rest.out)
  }

  lemma FireSettled(slot: Slot, maxGap: nat, outcome: Option<Bytes>)
    requires Settled(slot)
    ensures Fire(slot, maxGap, outcome) == Effect(slot, [])
  {
  }

  /** Where the drain of a fire starts: behind the repaired entry after a hit,
      at the lowest buffered entry after a miss. */
  ghost function From(slot: Slot, outcome: Option<Bytes>): Seq
    requires slot.next < MAX_SEQ
  {
    if outcome.Some? then slot.next + 1 else Lowest(slot.pending.Keys)
  }

  ghost function Head(slot: Slot, outcome: Option<Bytes>): seq<Item> {
    if outcome.Some? then [Item(slot.next, outcome.value)] else []
  }

  /** A slot without timers. */
  function Idle(next: Seq, pending: map<Seq, Bytes>): Slot {
    Slot(next, pending, false, multiset{}, multiset{})
  }

  lemma LowestBuffered(slot: Slot)
    requires AllAbove(slot) && slot.pending != map[]
    ensures Lowest(slot.pending.Keys) in slot.pending
    ensures slot.next < Lowest(slot.pending.Keys) < MAX_SEQ
  {
    assert exists k :: k in slot.pending.Keys;
  }

  /** One fire in terms of a drain. */
  lemma FireIsDrain(slot: Slot, maxGap: nat, outcome: Option<Bytes>)
    requires Poised(slot) && slot.pending != map[]
    ensures slot.next < MAX_SEQ
    ensures var e := DrainSlot(Idle(From(slot, outcome), slot.pending));
            Fire(slot, maxGap, outcome) == Effect(e.slot, Head(slot, outcome) + e.out)
  {
    LowestBuffered(slot);
    var n := slot.next;
    assert slot.sleeping - multiset{n} == multiset{};
    var woken := Step(slot, maxGap, TimerWakes(n)).slot;
    assert woken == Idle(n, slot.pending).(repairing := multiset{n});
    assert EndRepair(woken, n) == Idle(n, slot.pending);
  }

  /** The same, told by the contents of the buffer. */
  lemma FireTakesRun(slot: Slot, maxGap: nat, outcome: Option<Bytes>)
    requires Poised(slot) && slot.pending != map[]
    ensures slot.next < From(slot, outcome) < MAX_SEQ
    ensures var from, e := From(slot, outcome), Fire(slot, maxGap, outcome);
            && from <= e.slot.next && e.slot.next !in slot.pending
            && |e.out| == |Head(slot, outcome)| + (e.slot.next - from)
            && e.out[..|Head(slot, outcome)|] == Head(slot, outcome)
            && IsRun(e.out[|Head(slot, outcome)|..], from, slot.pending)
            && (forall k :: k in e.slot.pending <==> k in slot.pending && !(from <= k < e.slot.next))
            && (forall k <- e.slot.pending :: e.slot.pending[k] == slot.pending[k])
  {
    LowestBuffered(slot);
    FireIsDrain(slot, maxGap, outcome);
    DrainIsRun(From(slot, outcome), slot.pending);
  }

  /** A fire that leaves nothing buffered settles; otherwise it starts the next
      timer at the new `next`. */
  lemma FireStaysPoised(slot: Slot, maxGap: nat, outcome: Option<Bytes>)
    requires Poised(slot) && slot.pending != map[]
    ensures var slot' := Fire(slot, maxGap, outcome).slot;
            Poised(slot') && (Settled(slot') <==> slot'.pending == map[])
  {
    FireIsDrain(slot, maxGap, outcome);
    FireTakesRun(slot, maxGap, outcome);
  }

  /** A fire advances and delivers in order. */
  lemma FireIncreasing(slot: Slot, maxGap: nat, outcome: Option<Bytes>)
    requires Poised(slot) && slot.pending != map[]
    ensures var e := Fire(slot, maxGap, outcome);
            slot.next < e.slot.next && Increasing(e.out, slot.next, e.slot.next)
  {
    FireTakesRun(slot, maxGap, outcome);
    var from, e, head := From(slot, outcome), Fire(slot, maxGap, outcome), Head(slot, outcome);
    HeadThenRun(e.out, head, slot.next, from, e.slot.next);
  }

  lemma HeadThenRun(out: seq<Item>, head: seq<Item>, lo: int, from: int, hi: int)
    requires lo <= from <= hi && head <= out && Increasing(head, lo, from) && Increasing(out[|head|..], from, hi)
    ensures Increasing(out, lo, hi)
  {
    assert out == head + out[|head|..];
    IncreasingAppend(head, out[|head|..], lo, from, hi);
  }

  /** What a fire delivers: the repaired entry if any, then buffered ones. */
  lemma FireDelivers(slot: Slot, maxGap: nat, outcome: Option<Bytes>)
    requires Poised(slot) && slot.pending != map[]
    ensures var e := Fire(slot, maxGap, outcome);
            && (forall k <- slot.pending :: k in e.slot.pending || (k < e.slot.next && Item(k, slot.pending[k]) in e.out))
            && (forall k <- e.slot.pending :: k in slot.pending && e.slot.pending[k] == slot.pending[k])
            && (forall it <- e.out :: it.seqno in slot.pending ==> it.payload == slot.pending[it.seqno])
  {
    FireTakesRun(slot, maxGap, outcome);
    var from, e, head := From(slot, outcome), Fire(slot, maxGap, outcome), Head(slot, outcome);
    var run := e.out[|head|..];
    assert e.out == head + run;
    forall k <- slot.pending | k !in e.slot.pending
      ensures k < e.slot.next && Item(k, slot.pending[k]) in run
    {
      assert run[k - from].seqno == k;
    }
  }

  /** What a sequence of fires is to achieve from a slot. */
  ghost predicate Resolved(slot: Slot, e: Effect) {
    && Settled(e.slot)
    && Increasing(e.out, slot.next, e.slot.next)
    && (forall k <- slot.pending :: Item(k, slot.pending[k]) in e.out)
    && (forall it <- e.out :: it.seqno in slot.pending ==> it.payload == slot.pending[it.seqno])
  }

  lemma {:induction false} SettledForGood(slot: Slot, maxGap: nat, outcomes: seq<Option<Bytes>>)
    requires Settled(slot)
    ensures Fires(slot, maxGap, outcomes) == Effect(slot, [])
  {
    if outcomes != [] {
      FireSettled(slot, maxGap, outcomes[0]);
      SettledForGood(slot, maxGap, outcomes[1..]);
    }
  }

  lemma ResolvedStep(slot: Slot, maxGap: nat, outcome: Option<Bytes>, rest: Effect)
    requires Poised(slot) && slot.pending != map[]
    requires Resolved(Fire(slot, maxGap, outcome).slot, rest) && Fire(slot, maxGap, outcome).slot.next <= rest.slot.next
    ensures Resolved(slot, Effect(rest.slot, Fire(slot, maxGap, outcome).out + rest.out))
  {
    FireIncreasing(slot, maxGap, outcome);
    FireDelivers(slot, maxGap, outcome);
    var first := Fire(slot, maxGap, outcome);
    IncreasingAppend(first.out, rest.out, slot.next, first.slot.next, rest.slot.next);
    assert forall it <- rest.out :: it.seqno >= first.slot.next;
    assert forall k <- slot.pending :: k >= first.slot.next ==> k in first.slot.pending;
  }

  /** Any mix of hits and misses resolves every gap: once the number of fires
      reaches the distance to the highest buffered number, all buffered entries
      have been delivered with their payloads, in increasing order, and no timer
      runs any more. */
  lemma {:induction false} GapsResolve(slot: Slot, maxGap: nat, outcomes: seq<Option<Bytes>>, top: Seq)
    requires Poised(slot) && slot.pending != map[]
    requires forall k <- slot.pending :: k <= top
    requires |outcomes| >= top - slot.next
    ensures var e := Fires(slot, maxGap, outcomes);
            Resolved(slot, e) && slot.next <= e.slot.next
    decreases |outcomes|
  {
    LowestBuffered(slot);
    var first := Fire(slot, maxGap, outcomes[0]);
    FireStaysPoised(slot, maxGap, outcomes[0]);
    FireIncreasing(slot, maxGap, outcomes[0]);
    FireDelivers(slot, maxGap, outcomes[0]);
    if first.slot.pending == map[] {
      SettledForGood(first.slot, maxGap, outcomes[1..]);
    } else {
      GapsResolve(first.slot, maxGap, outcomes[1..], top);
    }
    ResolvedStep(slot, maxGap, outcomes[0], Fires(first.slot, maxGap, outcomes[1..]));
  }

  // ----- All repairs miss -----

  ghost predicate StartsRun(keys: set<Seq>, k: Seq) {
    k in keys && (k == 0 || k - 1 !in keys)
  }

  /** The first numbers of the maximal runs of consecutive numbers. */
  ghost function RunStarts(keys: set<Seq>): set<Seq> {
    set k | k in keys && StartsRun(keys, k)
  }

  /** Taking away the lowest run takes away one start. */
  lemma RemoveLowestRun(keys: set<Seq>, keys': set<Seq>, low: Seq, end: Seq)
    requires low in keys && end !in keys && low < end
    requires forall k <- keys :: low <= k
    requires forall k: Seq {:trigger k in keys} :: low <= k < end ==> k in keys
    requires forall k :: k in keys' <==> k in keys && !(low <= k < end)
    ensures low in RunStarts(keys)
    ensures RunStarts(keys') == RunStarts(keys) - {low}
  {
    assert StartsRun(keys, low);
    forall k <- keys
      ensures k in RunStarts(keys') <==> k in RunStarts(keys) - {low}
    {
      if k < end {
        assert k == low || (k - 1) in keys;
      } else {
        assert k > end && (k - 1 in keys' <==> k - 1 in keys);
        assert StartsRun(keys', k) <==> StartsRun(keys, k);
      }
    }
  }

  function Misses(n: nat): seq<Option<Bytes>> {
    if n == 0 then [] else [None] + Misses(n - 1)
  }

  /** A miss delivers exactly the lowest run. */
  lemma MissTakesOneRun(slot: Slot, maxGap: nat)
    requires Poised(slot) && slot.pending != map[]
    ensures var low, after := Lowest(slot.pending.Keys), Fire(slot, maxGap, None).slot;
            && low in RunStarts(slot.pending.Keys)
            && RunStarts(after.pending.Keys) == RunStarts(slot.pending.Keys) - {low}
  {
    FireTakesRun(slot, maxGap, None);
    LowestBuffered(slot);
    var low, e := Lowest(slot.pending.Keys), Fire(slot, maxGap, None);
    forall k: Seq {:trigger k in slot.pending} | low <= k < e.slot.next
      ensures k in slot.pending
    {
      assert e.out[0..][k - low].seqno == k;
    }
    RemoveLowestRun(slot.pending.Keys, e.slot.pending.Keys, low, e.slot.next);
  }

  /** The slot after `n` fires whose repairs all miss. */
  ghost function AfterMisses(slot: Slot, maxGap: nat, n: nat): Slot {
    Fires(slot, maxGap, Misses(n)).slot
  }

  lemma AfterMoreMisses(slot: Slot, maxGap: nat, n: nat, after: Slot)
    requires n > 0 && after == Fire(slot, maxGap, None).slot
    ensures AfterMisses(slot, maxGap, n) == AfterMisses(after, maxGap, n - 1)
  {
    assert Misses(n)[0] == None && Misses(n)[1..] == Misses(n - 1);
  }

  /** What one missed repair does to the count of runs. */
  lemma {:induction false} FiresAppend(slot: Slot, maxGap: nat, outcomes: seq<Option<Bytes>>, last: Option<Bytes>)
    ensures Fires(slot, maxGap, outcomes + [last]).slot == Fire(Fires(slot, maxGap, outcomes).slot, maxGap, last).slot
    decreases |outcomes|
  {
    if outcomes == [] {
      assert [last][1..] == [] && outcomes + [last] == [last];
    } else {
      FiresAppend(Fire(slot, maxGap, outcomes[0]).slot, maxGap, outcomes[1..], last);
      assert (outcomes + [last])[1..] == outcomes[1..] + [last];
    }
  }

  lemma {:induction false} MissesAppend(n: nat)
    ensures Misses(n + 1) == Misses(n) + [None]
  {
    if n > 0 { MissesAppend(n - 1); }
  }

  lemma OneMoreMiss(slot: Slot, maxGap: nat, n: nat)
    ensures AfterMisses(slot, maxGap, n + 1) == Fire(AfterMisses(slot, maxGap, n), maxGap, None).slot
  {
    FiresAppend(slot, maxGap, Misses(n), None);
    MissesAppend(n);
  }

  lemma OneMiss(slot: Slot, maxGap: nat) returns (after: Slot)
    requires Poised(slot) && slot.pending != map[]
    ensures forall n | n > 0 :: AfterMisses(slot, maxGap, n) == AfterMisses(after, maxGap, n - 1)
    ensures |RunStarts(after.pending.Keys)| == |RunStarts(slot.pending.Keys)| - 1
    ensures Poised(after) && (Settled(after) <==> after.pending == map[])
    ensures Settled(after) ==> |RunStarts(slot.pending.Keys)| == 1
  {
    after := Fire(slot, maxGap, None).slot;
    MissDropsOneStart(slot, maxGap);
    FireStaysPoised(slot, maxGap, None);
    forall n | n > 0 ensures AfterMisses(slot, maxGap, n) == AfterMisses(after, maxGap, n - 1) {
      AfterMoreMisses(slot, maxGap, n, after);
    }
  }

  /** When every repair misses, the buffer is resolved after exactly as many
      fires as it has runs of consecutive numbers, and not before. */
  lemma {:induction false} MissesCountRuns(slot: Slot, maxGap: nat, n: nat)
    requires Poised(slot) && slot.pending != map[]
    ensures Settled(AfterMisses(slot, maxGap, n)) <==> n >= |RunStarts(slot.pending.Keys)|
    decreases n
  {
    var after := OneMiss(slot, maxGap);
    if n > 0 {
      if Settled(after) {
        SettledForGood(after, maxGap, Misses(n - 1));
      } else {
        MissesCountRuns(after, maxGap, n - 1);
      }
    }
  }

  lemma MissDropsOneStart(slot: Slot, maxGap: nat)
    requires Poised(slot) && slot.pending != map[]
    ensures var after := Fire(slot, maxGap, None).slot;
            && |RunStarts(after.pending.Keys)| == |RunStarts(slot.pending.Keys)| - 1
            && (after.pending == map[] ==> |RunStarts(slot.pending.Keys)| == 1)
  {
    MissTakesOneRun(slot, maxGap);
    var after := Fire(slot, maxGap, None).slot;
    assert |RunStarts(after.pending.Keys)| == |RunStarts(slot.pending.Keys)| - 1;
    if after.pending == map[] { assert RunStarts(after.pending.Keys) == {}; }
  }
}
