/** What a node holds back for one lazy peer, and what it knows of the marks
    that peer has reached.
 */
module LazyBuffer {
  import opened Types

  datatype Buf = Buf(entries: seq<Entry>, peerSeqs: map<Topic, Seq>)

  const EMPTY_BUF := Buf([], map[])

  /** The peer's last known mark; zero when nothing is known. */
  function Known(peerSeqs: map<Topic, Seq>, t: Topic): Seq {
    if t in peerSeqs then peerSeqs[t] else 0
  }

  /** Whether the entry is held back as already seen by the peer. */
  predicate Suppressed(b: Buf, e: Entry) {
    e.seqno <= Known(b.peerSeqs, e.topic)
  }

  function AddTo(b: Buf, e: Entry): Buf {
    if Suppressed(b, e) then b else b.(entries := b.entries + [e])
  }

  function Learn(peerSeqs: map<Topic, Seq>, marks: seq<TopicSeq>): map<Topic, Seq> {
    if marks == [] then peerSeqs
    else
      var before, m := Learn(peerSeqs, marks[..|marks| - 1]), marks[|marks| - 1];
      if m.seqno > Known(before, m.topic) then before[m.topic := m.seqno] else before
  }

  /** Learning yields, per topic, the largest of what was known and what the
      marks say. */
  lemma {:induction false} LearnIsMaximum(peerSeqs: map<Topic, Seq>, marks: seq<TopicSeq>, t: Topic)
    ensures var after := Known(Learn(peerSeqs, marks), t);
            && Known(peerSeqs, t) <= after
            && (forall m <- marks :: m.topic == t ==> m.seqno <= after)
            && (after == Known(peerSeqs, t) || TopicSeq(t, after) in marks)
  {
    if marks != [] {
      LearnIsMaximum(peerSeqs, marks[..|marks| - 1], t);
    }
  }

  class PeerBuffer {
    var entries: seq<Entry>
    var peerSeqs: map<Topic, Seq>

    ghost function View(): Buf
      reads this
    {
      Buf(entries, peerSeqs)
    }

    constructor ()
      ensures View() == EMPTY_BUF
    {
      entries, peerSeqs := [], map[];
    }

    method Add(e: Entry)
      modifies this
      ensures View() == AddTo(old(View()), e)
    {
      if e.topic !in peerSeqs {
        if e.seqno > 0 { entries := entries + [e]; }
      } else if e.seqno > peerSeqs[e.topic] {
        entries := entries + [e];
      }
    }

    method Flush() returns (es: seq<Entry>)
      modifies this
      ensures es == old(entries) && View() == Buf([], old(peerSeqs))
    {
      es := entries;
      entries := [];
    }

    method UpdatePeerSeqs(marks: seq<TopicSeq>)
      modifies this
      ensures View() == Buf(old(entries), Learn(old(peerSeqs), marks))
    {
      for i := 0 to |marks|
        invariant entries == old(entries) && peerSeqs == Learn(old(peerSeqs), marks[..i])
      {
        var m := marks[i];
        assert marks[..i + 1][..i] == marks[..i];
        if m.seqno > Known(peerSeqs, m.topic) {
          peerSeqs := peerSeqs[m.topic := m.seqno];
        }
      }
      assert marks[..|marks|] == marks;
    }
  }
}
