/** The gossip engine of a node as the object it is: it owns the tracker, the
    applier, the repair cache and the lazy buffers, and its handlers update them
    in place. Each handler is proved to do exactly what the node's specification
    says, with the cache entries it gave up as the specification's choices.
 */
module GossipEngine {
  import opened Types
  import opened OrderedSlot
  import opened LazyBuffer
  import opened LazyBatch
  import opened EagerStream
  import opened GossipNode
  import opened SeenTracker
  import opened OrderedApplier
  import opened RepairManager

  // ----- Evictions as the specification's choices -----

  function WithVictims(nd: Node, victims: seq<TopicSeq>): Node {
    nd.(victims := victims)
  }

  /** The choices that handling the entry uses up: one cached entry if the entry
      is taken and the cache is full, none otherwise. */
  ghost predicate Evicts(nd: Node, taken: bool, gone: seq<TopicSeq>) {
    if taken && CacheFull(nd) then |gone| == 1 && gone[0] in nd.cache else gone == []
  }

  lemma CacheItChoosing(nd: Node, e: Entry, gone: seq<TopicSeq>, more: seq<TopicSeq>)
    requires Evicts(nd, true, gone)
    ensures CacheIt(WithVictims(nd, gone + more), e) ==
            nd.(cache := (if gone == [] then nd.cache else nd.cache - {gone[0]})[KeyOf(e) := e.payload], victims := more)
  {
    if gone == [] {
      assert gone + more == more;
    } else {
      assert (gone + more)[0] == gone[0] && (gone + more)[1..] == more;
    }
  }

  /** The other choices are left as they were. */
  lemma HandleEntryChoosing(nd: Node, self: NodeId, maxGap: nat, e: Entry, from: Label, gone: seq<TopicSeq>, more: seq<TopicSeq>)
    requires Evicts(nd, IsNew(nd, e), gone)
    ensures var one := HandleEntry(WithVictims(nd, gone), self, maxGap, e, from);
            HandleEntry(WithVictims(nd, gone + more), self, maxGap, e, from) == Out(WithVictims(one.node, more), one.sends)
  {
    if IsNew(nd, e) {
      var nd1 := MarkSeen(nd, e);
      CacheItChoosing(nd1, e, gone, more);
      CacheItChoosing(nd1, e, gone, []);
      assert gone + [] == gone;
    } else {
      assert gone + more == more;
    }
  }

  lemma {:induction false} HandleEntriesAppend(nd: Node, self: NodeId, maxGap: nat, es: seq<Entry>, e: Entry, from: Label)
    ensures var front := HandleEntries(nd, self, maxGap, es, from);
            HandleEntries(nd, self, maxGap, es + [e], from) == Then(front, HandleEntry(front.node, self, maxGap, e, from))
    decreases |es|
  {
    if es == [] {
      var one := HandleEntry(nd, self, maxGap, e, from);
      assert es + [e] == [e] && [e][1..] == [];
      assert HandleEntries(one.node, self, maxGap, [e][1..], from) == Out(one.node, []);
      assert one.sends + [] == one.sends && [] + one.sends == one.sends;
    } else {
      var first := HandleEntry(nd, self, maxGap, es[0], from);
      HandleEntriesAppend(first.node, self, maxGap, es[1..], e, from);
      assert (es + [e])[0] == es[0] && (es + [e])[1..] == es[1..] + [e];
      var rest := HandleEntries(first.node, self, maxGap, es[1..], from);
      ThenStep(first, rest, HandleEntry(rest.node, self, maxGap, e, from));
    }
  }

  /** Handling the entries uses up exactly the choices `gone`. */
  ghost predicate Handles(nd: Node, self: NodeId, maxGap: nat, es: seq<Entry>, from: Label, gone: seq<TopicSeq>, out: Out) {
    forall more: seq<TopicSeq> ::
      HandleEntries(WithVictims(nd, gone + more), self, maxGap, es, from) == Out(WithVictims(out.node, more), out.sends)
  }

  lemma HandlesNone(nd: Node, self: NodeId, maxGap: nat, from: Label)
    ensures Handles(nd, self, maxGap, [], from, [], Out(nd, []))
  {
    forall more: seq<TopicSeq>
      ensures HandleEntries(WithVictims(nd, [] + more), self, maxGap, [], from) == Out(WithVictims(nd, more), [])
    {
      assert [] + more == more;
    }
  }

  /** One more entry of a batch. */
  lemma HandlesMore(nd: Node, self: NodeId, maxGap: nat, es: seq<Entry>, e: Entry, from: Label,
                    gone: seq<TopicSeq>, out: Out, one: seq<TopicSeq>)
    requires Handles(nd, self, maxGap, es, from, gone, out) && Evicts(out.node, IsNew(out.node, e), one)
    ensures Handles(nd, self, maxGap, es + [e], from, gone + one,
                    Then(out, HandleEntry(WithVictims(out.node, one), self, maxGap, e, from)))
  {
    var last := HandleEntry(WithVictims(out.node, one), self, maxGap, e, from);
    forall more: seq<TopicSeq>
      ensures HandleEntries(WithVictims(nd, (gone + one) + more), self, maxGap, es + [e], from)
              == Out(WithVictims(last.node, more), out.sends + last.sends)
    {
      assert (gone + one) + more == gone + (one + more);
      HandleEntriesAppend(WithVictims(nd, gone + (one + more)), self, maxGap, es, e, from);
      HandleEntryChoosing(out.node, self, maxGap, e, from, one, more);
    }
  }

  lemma HandlesLast(nd: Node, self: NodeId, maxGap: nat, es: seq<Entry>, from: Label, gone: seq<TopicSeq>, out: Out, one: seq<TopicSeq>)
    requires es != [] && Handles(nd, self, maxGap, es[..|es| - 1], from, gone, out)
    requires Evicts(out.node, IsNew(out.node, es[|es| - 1]), one)
    ensures Handles(nd, self, maxGap, es, from, gone + one,
                    Then(out, HandleEntry(WithVictims(out.node, one), self, maxGap, es[|es| - 1], from)))
  {
    HandlesMore(nd, self, maxGap, es[..|es| - 1], es[|es| - 1], from, gone, out, one);
    assert es[..|es| - 1] + [es[|es| - 1]] == es;
  }

  /** Handling entries one by one, with the choices of each given apart. */
  ghost function HandleChoosing(nd: Node, self: NodeId, maxGap: nat, es: seq<Entry>, from: Label, choices: seq<seq<TopicSeq>>): Out
    requires |choices| == |es|
  {
    if es == [] then Out(nd, [])
    else
      var n := |es| - 1;
      var front := HandleChoosing(nd, self, maxGap, es[..n], from, choices[..n]);
      Then(front, HandleEntry(WithVictims(front.node, choices[n]), self, maxGap, es[n], from))
  }

  /** Each entry uses up exactly the choices given for it. */
  ghost predicate EvictsEach(nd: Node, self: NodeId, maxGap: nat, es: seq<Entry>, from: Label, choices: seq<seq<TopicSeq>>)
    requires |choices| == |es|
  {
    es == [] ||
    var n := |es| - 1;
    var front := HandleChoosing(nd, self, maxGap, es[..n], from, choices[..n]);
    EvictsEach(nd, self, maxGap, es[..n], from, choices[..n]) && Evicts(front.node, IsNew(front.node, es[n]), choices[n])
  }

  function Flatten(choices: seq<seq<TopicSeq>>): seq<TopicSeq> {
    if choices == [] then [] else Flatten(choices[..|choices| - 1]) + choices[|choices| - 1]
  }

  lemma {:induction false} ChoosingHandles(nd: Node, self: NodeId, maxGap: nat, es: seq<Entry>, from: Label, choices: seq<seq<TopicSeq>>)
    requires |choices| == |es| && EvictsEach(nd, self, maxGap, es, from, choices)
    ensures Handles(nd, self, maxGap, es, from, Flatten(choices), HandleChoosing(nd, self, maxGap, es, from, choices))
    ensures |Flatten(choices)| <= |es|
    decreases |es|
  {
    if es == [] {
      HandlesNone(nd, self, maxGap, from);
    } else {
      var n := |es| - 1;
      ChoosingHandles(nd, self, maxGap, es[..n], from, choices[..n]);
      HandlesLast(nd, self, maxGap, es, from, Flatten(choices[..n]),
                  HandleChoosing(nd, self, maxGap, es[..n], from, choices[..n]), choices[n]);
    }
  }

  /** One more entry of a batch. */
  lemma ChoosingNext(nd: Node, self: NodeId, maxGap: nat, es: seq<Entry>, i: nat, from: Label,
                     choices: seq<seq<TopicSeq>>, one: seq<TopicSeq>, sent: seq<Msg>)
    requires i < |es| && |choices| == i && EvictsEach(nd, self, maxGap, es[..i], from, choices)
    requires var node := HandleChoosing(nd, self, maxGap, es[..i], from, choices).node; Evicts(node, IsNew(node, es[i]), one)
    ensures var out := HandleChoosing(nd, self, maxGap, es[..i], from, choices);
            var last := HandleEntry(WithVictims(out.node, one), self, maxGap, es[i], from);
            && EvictsEach(nd, self, maxGap, es[..i + 1], from, choices + [one])
            && HandleChoosing(nd, self, maxGap, es[..i + 1], from, choices + [one]) == Then(out, last)
            && (sent + out.sends) + last.sends == sent + Then(out, last).sends
  {
    assert es[..i + 1][..i] == es[..i] && (choices + [one])[..i] == choices;
    var out := HandleChoosing(nd, self, maxGap, es[..i], from, choices);
    SendsAssoc(sent, out.sends, HandleEntry(WithVictims(out.node, one), self, maxGap, es[i], from).sends);
  }

  lemma ChoosingDone(nd: Node, self: NodeId, maxGap: nat, es: seq<Entry>, from: Label, choices: seq<seq<TopicSeq>>)
    requires |choices| == |es| && EvictsEach(nd, self, maxGap, es, from, choices)
    requires HandleChoosing(nd, self, maxGap, es, from, choices).node.victims == []
    ensures HandleEntries(WithVictims(nd, Flatten(choices)), self, maxGap, es, from) == HandleChoosing(nd, self, maxGap, es, from, choices)
    ensures |Flatten(choices)| <= |es|
  {
    ChoosingHandles(nd, self, maxGap, es, from, choices);
    var gone, out := Flatten(choices), HandleChoosing(nd, self, maxGap, es, from, choices);
    assert HandleEntries(WithVictims(nd, gone + []), self, maxGap, es, from) == Out(WithVictims(out.node, []), out.sends);
    assert gone + [] == gone;
  }

  /** One peer of a flush. */
  function FlushOne(nd: Node, self: NodeId, p: NodeId, marks: seq<TopicSeq>): Out {
    var buf := BufFor(nd.lazy, p);
    if buf.entries == [] then Out(nd, [])
    else Out(nd.(lazy := nd.lazy[p := buf.(entries := [])]), [Lazy(self, p, buf.entries, marks)])
  }

  lemma FlushNext(nd: Node, self: NodeId, peers: seq<NodeId>, i: nat, marks: seq<TopicSeq>)
    requires i < |peers|
    ensures var out := FlushPeers(nd, self, peers[..i], marks);
            FlushPeers(nd, self, peers[..i + 1], marks) == Then(out, FlushOne(out.node, self, peers[i], marks))
  {
    var out := FlushPeers(nd, self, peers[..i], marks);
    assert peers[..i + 1][..i] == peers[..i];
    assert out.sends + [] == out.sends;
  }

  class Engine {
    const self: NodeId
    const seen: Tracker
    const applier: Applier
    const repair: Manager
    var lazyBuffers: map<NodeId, Buf>
    /** The overlay's current classification. */
    var eagerPeers: seq<NodeId>
    var lazyPeers: seq<NodeId>
    /** Everything handed to the transport, oldest first. */
    var sent: seq<Msg>

    ghost predicate Valid()
      reads this, seen, seen.slotSeqs, applier, repair
    {
      seen.Valid() && applier.Valid() && repair.Valid() && seen.slotSeqs != applier.nextSeq
    }

    ghost function View(): Node
      requires Valid()
      reads this, seen, seen.slotSeqs, applier, applier.nextSeq, applier.pending, applier.gapTimers, applier.timers, repair
    {
      Node(seen.View(), repair.cache, [], applier.AllSlots(), applier.delivered, lazyBuffers, eagerPeers, lazyPeers)
    }

    constructor (self: NodeId, maxGapBuffer: nat)
      ensures Valid() && sent == [] && this.self == self && applier.maxGapBuffer == maxGapBuffer
      ensures var nd := View();
              && (forall t: Topic :: nd.seen[t] == 0 && nd.slots[t] == FRESH_SLOT)
              && nd.cache == map[] && nd.delivered == [] && nd.lazy == map[] && nd.eagerPeers == [] && nd.lazyPeers == []
    {
      this.self := self;
      seen := new Tracker();
      var a := new Applier(maxGapBuffer);
      applier := a;
      repair := new Manager(a);
      lazyBuffers, eagerPeers, lazyPeers, sent := map[], [], [], [];
    }

    /** Pushes an entry to all eager peers except the excluded one. */
    method EagerForward(e: Entry, exclude: Label)
      modifies this`sent
      ensures sent == old(sent) + EagerSends(self, eagerPeers, e, exclude)
    {
      for i := 0 to |eagerPeers|
        invariant sent == old(sent) + EagerSends(self, eagerPeers[..i], e, exclude)
      {
        var peer := eagerPeers[i];
        assert eagerPeers[..i + 1][..i] == eagerPeers[..i];
        if peer != exclude {
          sent := sent + [Eager(self, peer, e)];
        }
      }
      assert eagerPeers[..|eagerPeers|] == eagerPeers;
    }

    /** Adds an entry to the buffers of all lazy peers except the excluded one,
        creating buffers as needed. */
    method EnqueueForLazy(e: Entry, exclude: Label)
      modifies this`lazyBuffers
      ensures lazyBuffers == EnqueueLazy(old(lazyBuffers), lazyPeers, e, exclude)
    {
      for i := 0 to |lazyPeers|
        invariant lazyBuffers == EnqueueLazy(old(lazyBuffers), lazyPeers[..i], e, exclude)
      {
        var peer := lazyPeers[i];
        assert lazyPeers[..i + 1][..i] == lazyPeers[..i];
        if peer != exclude {
          var buf := if peer in lazyBuffers then lazyBuffers[peer] else EMPTY_BUF;
          lazyBuffers := lazyBuffers[peer := AddTo(buf, e)];
        }
      }
      assert lazyPeers[..|lazyPeers|] == lazyPeers;
    }

    // The pieces of the handlers, each as the specification has it.

    method MarkEntry(e: Entry) returns (isNew: bool)
      requires Valid()
      modifies seen, seen.slotSeqs
      ensures Valid() && isNew == IsNew(old(View()), e) && View() == MarkSeen(old(View()), e)
    {
      isNew := seen.ShouldProcess(e.topic, e.seqno);
    }

    method CacheNew(e: Entry) returns (ghost gone: seq<TopicSeq>)
      requires Valid()
      modifies repair`cache
      ensures Valid() && Evicts(old(View()), true, gone) && View() == CacheIt(WithVictims(old(View()), gone), e)
    {
      ghost var before := View();
      gone := repair.CacheEntry(e);
      CacheItChoosing(before, e, gone, []);
      assert gone + [] == gone;
    }

    method ApplyEntry(e: Entry)
      requires Valid()
      modifies applier`delivered, applier.nextSeq, applier.pending, applier.gapTimers, applier.timers
      ensures Valid() && View() == Apply(old(View()), applier.maxGapBuffer, e)
    {
      ghost var before := View();
      applier.Receive(e.topic, e.seqno, e.payload);
      SlotsUpdated(before.slots, applier.AllSlots(), e.topic,
                   OrderedSlot.Receive(before.slots[e.topic], applier.maxGapBuffer, e.seqno, e.payload).slot);
    }

    method RelayEntry(e: Entry, exclude: Label)
      requires Valid()
      modifies this`lazyBuffers, this`sent
      ensures Valid()
      ensures var want := Relay(old(View()), self, e, exclude);
              View() == want.node && sent == old(sent) + want.sends
    {
      EagerForward(e, exclude);
      EnqueueForLazy(e, exclude);
    }

    /** An entry produced on this node. */
    method HandleLocalEntry(e: Entry) returns (ghost gone: seq<TopicSeq>)
      requires Valid()
      modifies this`lazyBuffers, this`sent, seen, seen.slotSeqs, repair`cache
      ensures Valid() && Evicts(old(View()), true, gone)
      ensures var want := HandleLocal(WithVictims(old(View()), gone), self, e);
              View() == want.node && sent == old(sent) + want.sends
    {
      var _ := MarkEntry(e);
      gone := CacheNew(e);
      RelayEntry(e, LOCAL);
    }

    /** An entry from the network, by either path. */
    method HandleNetworkEntry(e: Entry, from: Label) returns (ghost gone: seq<TopicSeq>)
      requires Valid()
      modifies this`lazyBuffers, this`sent, seen, seen.slotSeqs, repair`cache
      modifies applier`delivered, applier.nextSeq, applier.pending, applier.gapTimers, applier.timers
      ensures Valid() && Evicts(old(View()), IsNew(old(View()), e), gone)
      ensures var want := HandleEntry(WithVictims(old(View()), gone), self, applier.maxGapBuffer, e, from);
              View() == want.node && sent == old(sent) + want.sends
    {
      gone := [];
      var isNew := MarkEntry(e);
      if !isNew {
        return;
      }
      gone := CacheNew(e);
      ApplyEntry(e);
      RelayEntry(e, from);
    }

    /** A message on the eager path, its type byte already taken off. */
    method OnEagerReceive(from: Label, data: Bytes) returns (ghost gone: seq<TopicSeq>)
      requires Valid()
      modifies this`lazyBuffers, this`sent, seen, seen.slotSeqs, repair`cache
      modifies applier`delivered, applier.nextSeq, applier.pending, applier.gapTimers, applier.timers
      ensures Valid() && |gone| <= 1
      ensures match DecodeEager(data)
              case None => View() == old(View()) && sent == old(sent)
              case Some(e) =>
                var want := HandleEntry(WithVictims(old(View()), gone), self, applier.maxGapBuffer, e, from);
                View() == want.node && sent == old(sent) + want.sends
    {
      gone := [];
      match DecodeEager(data)
      case None =>
      case Some(e) => gone := HandleNetworkEntry(e, from);
    }

    /** A lazy batch as it comes off its stream. */
    method OnLazyBatchReceive(from: Label, stream: Bytes, decompress: Bytes -> Option<Bytes>) returns (ghost gone: seq<TopicSeq>)
      requires Valid()
      modifies this`lazyBuffers, this`sent, seen, seen.slotSeqs, repair`cache
      modifies applier`delivered, applier.nextSeq, applier.pending, applier.gapTimers, applier.timers
      ensures Valid()
      ensures match ReadBatch(stream, decompress)
              case None => View() == old(View()) && sent == old(sent)
              case Some(b) =>
                var want := HandleEntries(LearnMarks(WithVictims(old(View()), gone), from, b.marks), self, applier.maxGapBuffer, b.entries, from);
                |gone| <= |b.entries| && View() == want.node && sent == old(sent) + want.sends
    {
      gone := [];
      match ReadBatch(stream, decompress)
      case None =>
      case Some(b) =>
        ghost var before := View();
        if from >= 0 && from in lazyBuffers {
          var buf := lazyBuffers[from];
          lazyBuffers := lazyBuffers[from := buf.(peerSeqs := Learn(buf.peerSeqs, b.marks))];
        }
        assert View() == LearnMarks(before, from, b.marks);
        gone := HandleBatch(b.entries, from);
    }

    /** Every entry of a batch in turn. */
    method HandleBatch(es: seq<Entry>, from: Label) returns (ghost gone: seq<TopicSeq>)
      requires Valid()
      modifies this`lazyBuffers, this`sent, seen, seen.slotSeqs, repair`cache
      modifies applier`delivered, applier.nextSeq, applier.pending, applier.gapTimers, applier.timers
      ensures Valid() && |gone| <= |es|
      ensures var want := HandleEntries(WithVictims(old(View()), gone), self, applier.maxGapBuffer, es, from);
              View() == want.node && sent == old(sent) + want.sends
    {
      ghost var maxGap, before := applier.maxGapBuffer, View();
      ghost var choices: seq<seq<TopicSeq>> := [];
      for i := 0 to |es|
        invariant Valid() && |choices| == i && EvictsEach(before, self, maxGap, es[..i], from, choices)
        invariant var out := HandleChoosing(before, self, maxGap, es[..i], from, choices);
                  View() == out.node && sent == old(sent) + out.sends
      {
        ghost var one := HandleNetworkEntry(es[i], from);
        ChoosingNext(before, self, maxGap, es, i, from, choices, one, old(sent));
        choices := choices + [one];
      }
      assert es[..|es|] == es;
      ChoosingDone(before, self, maxGap, es, from, choices);
      gone := Flatten(choices);
    }

    /** Sends what has accumulated for each lazy peer, with a snapshot of the own
        marks. */
    method FlushLazyBatches() returns (ghost marks: seq<TopicSeq>)
      requires Valid()
      modifies this`lazyBuffers, this`sent
      ensures Valid() && Snapshot(old(View()).seen, marks)
      ensures var want := Flush(old(View()), self, marks);
              View() == want.node && sent == old(sent) + want.sends
    {
      var myMarks := seen.HighWaterMarks();
      marks := myMarks;
      ghost var before := View();
      for i := 0 to |lazyPeers|
        invariant var out := FlushPeers(before, self, lazyPeers[..i], marks);
                  View() == out.node && sent == old(sent) + out.sends
      {
        ghost var out := FlushPeers(before, self, lazyPeers[..i], marks);
        FlushNext(before, self, lazyPeers, i, marks);
        FlushPeer(lazyPeers[i], myMarks);
        SendsAssoc(old(sent), out.sends, FlushOne(out.node, self, lazyPeers[i], marks).sends);
      }
      assert lazyPeers[..|lazyPeers|] == lazyPeers;
    }

    method FlushPeer(peer: NodeId, marks: seq<TopicSeq>)
      requires Valid()
      modifies this`lazyBuffers, this`sent
      ensures Valid()
      ensures var want := FlushOne(old(View()), self, peer, marks);
              View() == want.node && sent == old(sent) + want.sends
    {
      if peer in lazyBuffers && lazyBuffers[peer].entries != [] {
        var entries := lazyBuffers[peer].entries;
        lazyBuffers := lazyBuffers[peer := lazyBuffers[peer].(entries := [])];
        sent := sent + [Lazy(self, peer, entries, marks)];
      }
    }

    /** Primes tracker and applier after bootstrap or rollback. */
    method SetInitial(topic: Topic, s: Seq)
      requires Valid()
      modifies seen, seen.slotSeqs, applier.nextSeq, applier.pending
      ensures Valid()
      ensures View() == SetInitialSeq(old(View()), topic, s)
    {
      ghost var before := View();
      seen.SetTopicSeq(topic, s);
      applier.SetNextSeq(topic, Inc(s));
      SlotsUpdated(before.slots, applier.AllSlots(), topic, SetNext(before.slots[topic], Inc(s)));
    }
  }

  /** Two outcomes one after the other. */
  ghost function Then(a: Out, b: Out): Out {
    Out(b.node, a.sends + b.sends)
  }

  lemma SendsAssoc(a: seq<Msg>, b: seq<Msg>, c: seq<Msg>)
    ensures a + (b + c) == a + b + c
  {
  }

  lemma SlotsUpdated(before: Slots, after: Slots, t: Topic, slot: Slot)
    requires after[t] == slot && forall u: Topic | u != t :: after[u] == before[u]
    ensures after == before[t := slot]
  {
  }

  lemma ThenStep(a: Out, b: Out, c: Out)
    ensures Then(a, Then(b, c)) == Then(Then(a, b), c)
  {
    assert a.sends + (b.sends + c.sends) == a.sends + b.sends + c.sends;
  }
}
