/** One gossip node: its state, and its handlers as functions from the state
    before to the state after and the messages sent.
 */
module GossipNode {
  import opened Types
  import opened OrderedSlot
  import opened LazyBuffer

  type NodeId = nat

  /** How a message names its sender to the receiver: a node id, or something
      that is no node's id at all. */
  type Label = int

  /** The empty exclusion used for local entries. */
  const LOCAL: Label := -1

  type Slots = s: seq<Slot> | |s| == MAX_SLOTS witness seq(MAX_SLOTS, _ => FRESH_SLOT)

  /** Which entry a full cache gives up is the environment's choice. `victims`
      are its choices to come, oldest first; it plays no other part. */
  datatype Node = Node(
    seen: Marks,
    cache: map<TopicSeq, Bytes>,
    victims: seq<TopicSeq>,
    slots: Slots,
    delivered: seq<Entry>,
    lazy: map<NodeId, Buf>,
    eagerPeers: seq<NodeId>,
    lazyPeers: seq<NodeId>)

  /** Messages in flight. A lazy batch carries the sender's marks. */
  datatype Msg =
    | Eager(sender: NodeId, to: NodeId, entry: Entry)
    | Lazy(sender: NodeId, to: NodeId, entries: seq<Entry>, marks: seq<TopicSeq>)

  function EntriesOf(m: Msg): seq<Entry> {
    if m.Eager? then [m.entry] else m.entries
  }

  /** A node after a handler, and what the handler sent. */
  datatype Out = Out(node: Node, sends: seq<Msg>)

  function KeyOf(e: Entry): TopicSeq {
    TopicSeq(e.topic, e.seqno)
  }

  // ----- Pieces of the handlers -----

  predicate IsNew(nd: Node, e: Entry) {
    e.seqno > nd.seen[e.topic]
  }

  function MarkSeen(nd: Node, e: Entry): Node {
    if IsNew(nd, e) then nd.(seen := nd.seen[e.topic := e.seqno]) else nd
  }

  predicate CacheFull(nd: Node) {
    |nd.cache| >= MAX_REPAIR_CACHE
  }

  /** The entry a full cache gives up; a choice that is not in the cache stands
      for some entry that is. */
  ghost function Victim(nd: Node): (k: TopicSeq)
    requires CacheFull(nd)
    ensures k in nd.cache
  {
    if nd.victims != [] && nd.victims[0] in nd.cache then nd.victims[0]
    else assert |nd.cache.Keys| > 0; var k :| k in nd.cache; k
  }

  /** What a full cache keeps, and the choices it leaves. */
  ghost function Kept(nd: Node): map<TopicSeq, Bytes> {
    if CacheFull(nd) then nd.cache - {Victim(nd)} else nd.cache
  }

  function VictimsLeft(nd: Node): seq<TopicSeq> {
    if CacheFull(nd) && nd.victims != [] then nd.victims[1..] else nd.victims
  }

  ghost function CacheIt(nd: Node, e: Entry): Node {
    nd.(cache := Kept(nd)[KeyOf(e) := e.payload], victims := VictimsLeft(nd))
  }

  /** Hands an entry to the ordered applier. */
  function Apply(nd: Node, maxGap: nat, e: Entry): Node {
    var eff := Receive(nd.slots[e.topic], maxGap, e.seqno, e.payload);
    nd.(slots := nd.slots[e.topic := eff.slot], delivered := nd.delivered + Tag(e.topic, eff.out))
  }

  function BufFor(lazy: map<NodeId, Buf>, p: NodeId): Buf {
    if p in lazy then lazy[p] else EMPTY_BUF
  }

  /** Adds an entry to the buffers of the peers, except the excluded one. */
  function EnqueueLazy(lazy: map<NodeId, Buf>, peers: seq<NodeId>, e: Entry, exclude: Label): map<NodeId, Buf> {
    if peers == [] then lazy
    else
      var before, p := EnqueueLazy(lazy, peers[..|peers| - 1], e, exclude), peers[|peers| - 1];
      if p == exclude then before else before[p := AddTo(BufFor(before, p), e)]
  }

  function EagerSends(self: NodeId, peers: seq<NodeId>, e: Entry, exclude: Label): seq<Msg> {
    if peers == [] then []
    else
      var before, p := EagerSends(self, peers[..|peers| - 1], e, exclude), peers[|peers| - 1];
      if p == exclude then before else before + [Eager(self, p, e)]
  }

  function Relay(nd: Node, self: NodeId, e: Entry, exclude: Label): Out {
    Out(nd.(lazy := EnqueueLazy(nd.lazy, nd.lazyPeers, e, exclude)), EagerSends(self, nd.eagerPeers, e, exclude))
  }

  // ----- Handlers -----

  /** A locally produced entry is relayed even if its number is not new; it is
      not delivered locally. */
  ghost function HandleLocal(nd: Node, self: NodeId, e: Entry): Out {
    Relay(CacheIt(MarkSeen(nd, e), e), self, e, LOCAL)
  }

  /** An entry from the network, by either path. */
  ghost function HandleEntry(nd: Node, self: NodeId, maxGap: nat, e: Entry, from: Label): Out {
    if !IsNew(nd, e) then Out(nd, [])
    else Relay(Apply(CacheIt(MarkSeen(nd, e), e), maxGap, e), self, e, from)
  }

  ghost function HandleEntries(nd: Node, self: NodeId, maxGap: nat, es: seq<Entry>, from: Label): Out
    decreases |es|
  {
    if es == [] then Out(nd, [])
    else
      var first := HandleEntry(nd, self, maxGap, es[0], from);
      var rest := HandleEntries(first.node, self, maxGap, es[1..], from);
      Out(rest.node, first.sends + rest.sends)
  }

  /** What the node learns from the marks of a batch; only a sender it already
      keeps a buffer for is remembered. */
  function LearnMarks(nd: Node, from: Label, marks: seq<TopicSeq>): Node {
    if from >= 0 && from in nd.lazy
    then nd.(lazy := nd.lazy[from := nd.lazy[from].(peerSeqs := Learn(nd.lazy[from].peerSeqs, marks))])
    else nd
  }

  ghost function HandleMsg(nd: Node, self: NodeId, maxGap: nat, m: Msg, from: Label): Out {
    match m
    case Eager(_, _, e) => HandleEntry(nd, self, maxGap, e, from)
    case Lazy(_, _, es, marks) => HandleEntries(LearnMarks(nd, from, marks), self, maxGap, es, from)
  }

  /** Empties the buffers of the given lazy peers into batches. */
  function FlushPeers(nd: Node, self: NodeId, peers: seq<NodeId>, marks: seq<TopicSeq>): Out {
    if peers == [] then Out(nd, [])
    else
      var before, p := FlushPeers(nd, self, peers[..|peers| - 1], marks), peers[|peers| - 1];
      var buf := BufFor(before.node.lazy, p);
      if buf.entries == [] then before
      else Out(before.node.(lazy := before.node.lazy[p := buf.(entries := [])]),
               before.sends + [Lazy(self, p, buf.entries, marks)])
  }

  function Flush(nd: Node, self: NodeId, marks: seq<TopicSeq>): Out {
    FlushPeers(nd, self, nd.lazyPeers, marks)
  }

  /** `marks` lists the marks that are not zero, in some order. */
  ghost predicate Snapshot(seen: Marks, marks: seq<TopicSeq>) {
    forall m: TopicSeq :: m in marks <==> m.seqno > 0 && seen[m.topic] == m.seqno
  }

  function SetInitialSeq(nd: Node, t: Topic, s: Seq): Node {
    nd.(seen := nd.seen[t := s], slots := nd.slots[t := SetNext(nd.slots[t], Inc(s))])
  }

  // ----- What the pieces do, peer by peer -----

  lemma {:induction false} EnqueueLazyAt(lazy: map<NodeId, Buf>, peers: seq<NodeId>, e: Entry, exclude: Label, p: NodeId)
    ensures var before, after := BufFor(lazy, p), BufFor(EnqueueLazy(lazy, peers, e, exclude), p);
            && after.peerSeqs == before.peerSeqs
            && before.entries <= after.entries
            && (forall x <- after.entries :: x in before.entries || x == e)
            && (p in peers && p != exclude && !Suppressed(before, e) ==> e in after.entries)
            && (p !in peers || p == exclude || Suppressed(before, e) ==> after.entries == before.entries)
    ensures p in EnqueueLazy(lazy, peers, e, exclude) ==> p in lazy || p in peers
  {
    if peers != [] { EnqueueLazyAt(lazy, peers[..|peers| - 1], e, exclude, p); }
  }

  lemma {:induction false} EagerSendsAt(self: NodeId, peers: seq<NodeId>, e: Entry, exclude: Label)
    ensures forall m <- EagerSends(self, peers, e, exclude) :: m.Eager? && m.sender == self && m.entry == e && m.to in peers && m.to != exclude
    ensures forall p <- peers :: p != exclude ==> Eager(self, p, e) in EagerSends(self, peers, e, exclude)
    ensures |EagerSends(self, peers, e, exclude)| <= |peers|
  {
    if peers != [] { EagerSendsAt(self, peers[..|peers| - 1], e, exclude); }
  }

  lemma {:induction false} FlushPeersAt(nd: Node, self: NodeId, peers: seq<NodeId>, marks: seq<TopicSeq>, p: NodeId)
    ensures var out := FlushPeers(nd, self, peers, marks);
            var before, after := BufFor(nd.lazy, p), BufFor(out.node.lazy, p);
            && after.peerSeqs == before.peerSeqs
            && (after.entries == before.entries || (after.entries == [] && Lazy(self, p, before.entries, marks) in out.sends))
            && (p in peers ==> after.entries == [])
            && (forall m <- out.sends :: m.Lazy? && m.sender == self && m.marks == marks && m.to in peers
                                         && m.entries == BufFor(nd.lazy, m.to).entries && m.entries != [])
            && (forall i, j | 0 <= i < j < |out.sends| :: out.sends[i].to != out.sends[j].to)
            && out.node == nd.(lazy := out.node.lazy)
            && (p in out.node.lazy <==> p in nd.lazy)
  {
    if peers != [] {
      var front, q := peers[..|peers| - 1], peers[|peers| - 1];
      FlushPeersAt(nd, self, front, marks, p);
      FlushPeersAt(nd, self, front, marks, q);
    }
  }

  /** A flush, message by message and buffer by buffer: every lazy peer with
      something buffered gets exactly one batch, with all of it and with the
      given marks, and its buffer is empty then; nothing else changes. */
  lemma FlushWhole(nd: Node, self: NodeId, marks: seq<TopicSeq>, p: NodeId)
    ensures var out, buf := Flush(nd, self, marks), BufFor(nd.lazy, p);
            && (forall m <- out.sends :: m.Lazy? && m.sender == self && m.marks == marks && m.to in nd.lazyPeers
                                         && m.entries == BufFor(nd.lazy, m.to).entries && m.entries != [])
            && (forall i, j | 0 <= i < j < |out.sends| :: out.sends[i].to != out.sends[j].to)
            && (p in nd.lazyPeers && buf.entries != [] ==> Lazy(self, p, buf.entries, marks) in out.sends)
            && BufFor(out.node.lazy, p) == (if p in nd.lazyPeers then buf.(entries := []) else buf)
            && out.node == nd.(lazy := out.node.lazy)
  {
    FlushPeersAt(nd, self, nd.lazyPeers, marks, p);
  }

  /** The peer that an entry or a batch came from gets nothing of it back, by
      neither path. */
  lemma {:induction false} NothingSentBack(nd: Node, self: NodeId, maxGap: nat, es: seq<Entry>, from: NodeId)
    ensures var out := HandleEntries(nd, self, maxGap, es, from);
            && (forall m <- out.sends :: m.to != from)
            && BufFor(out.node.lazy, from).entries == BufFor(nd.lazy, from).entries
    decreases |es|
  {
    if es != [] {
      EntryNotSentBack(nd, self, maxGap, es[0], from);
      NothingSentBack(HandleEntry(nd, self, maxGap, es[0], from).node, self, maxGap, es[1..], from);
    }
  }

  lemma EntryNotSentBack(nd: Node, self: NodeId, maxGap: nat, e: Entry, from: NodeId)
    ensures var out := HandleEntry(nd, self, maxGap, e, from);
            && (forall m <- out.sends :: m.to != from)
            && BufFor(out.node.lazy, from).entries == BufFor(nd.lazy, from).entries
  {
    EagerSendsAt(self, nd.eagerPeers, e, from);
    EnqueueLazyAt(nd.lazy, nd.lazyPeers, e, from, from);
  }

  lemma MsgNotSentBack(nd: Node, self: NodeId, maxGap: nat, m: Msg, from: NodeId)
    ensures var out := HandleMsg(nd, self, maxGap, m, from);
            && (forall x <- out.sends :: x.to != from)
            && BufFor(out.node.lazy, from).entries == BufFor(nd.lazy, from).entries
  {
    if m.Eager? {
      EntryNotSentBack(nd, self, maxGap, m.entry, from);
    } else {
      NothingSentBack(LearnMarks(nd, from, m.marks), self, maxGap, m.entries, from);
    }
  }

  /** Marks only rise in a handler, and end at or above what was handled. */
  lemma HandleEntrySeen(nd: Node, self: NodeId, maxGap: nat, e: Entry, from: Label)
    ensures var nd' := HandleEntry(nd, self, maxGap, e, from).node;
            && nd'.seen == MarkSeen(nd, e).seen
            && nd'.eagerPeers == nd.eagerPeers && nd'.lazyPeers == nd.lazyPeers
            && (forall t: Topic :: nd.seen[t] <= nd'.seen[t])
            && e.seqno <= nd'.seen[e.topic]
  {
  }

  /** After an initial number is set, everything up to it is rejected, and the
      number after it is delivered on arrival, with nothing left of the buffer. */
  lemma InitialSeqMeans(nd: Node, self: NodeId, maxGap: nat, t: Topic, s: Seq, e: Entry, from: Label)
    requires e.topic == t && s < MAX_SEQ
    ensures var nd0 := SetInitialSeq(nd, t, s); var nd' := HandleEntry(nd0, self, maxGap, e, from).node;
            && (e.seqno <= s ==> nd' == nd0)
            && (e.seqno == s + 1 ==> nd'.delivered == nd.delivered + [e] && nd'.slots[t].pending == map[])
  {
    if e.seqno == s + 1 { assert Drain(Inc(e.seqno), map[]) == Drained(Inc(e.seqno), map[], []); }
  }

  /** Entry 3 arrives first, then entry 2, which the applier waits for: it is
      rejected as a duplicate, and the applier goes on waiting. */
  lemma LateExample(nd: Node, self: NodeId, a: Bytes, b: Bytes, from: Label)
    ensures var nd0 := SetInitialSeq(nd, 7, 1);
            var nd1 := HandleEntry(nd0, self, 64, Entry(7, 3, a), from).node;
            var nd2 := HandleEntry(nd1, self, 64, Entry(7, 2, b), from).node;
            nd2 == nd1 && nd2.slots[7].next == 2 && nd2.slots[7].pending == map[3 := a] && nd2.delivered == nd.delivered
  {
    assert Tag(7, []) == [];
  }
}
