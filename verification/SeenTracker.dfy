/** Duplicate detection by one high-water mark per topic, with an index of the
    topics whose mark is not zero.
 */
module SeenTracker {
  import opened Types

  class Tracker {
    const slotSeqs: array<Seq>
    var activeSlots: set<Topic>

    /** The index covers every topic with a mark. */
    ghost predicate Valid()
      reads this, slotSeqs
    {
      slotSeqs.Length == MAX_SLOTS && forall t: Topic :: slotSeqs[t] > 0 ==> t in activeSlots
    }

    ghost function View(): Marks
      requires Valid()
      reads this, slotSeqs
    {
      slotSeqs[..]
    }

    constructor ()
      ensures Valid() && fresh(slotSeqs) && View() == seq(MAX_SLOTS, _ => 0)
    {
      slotSeqs := new Seq[MAX_SLOTS](_ => 0);
      activeSlots := {};
    }

    /** Accepts exactly the numbers above the topic's mark, and moves the mark
        there. */
    method ShouldProcess(topic: Topic, s: Seq) returns (ok: bool)
      requires Valid()
      modifies this, slotSeqs
      ensures Valid()
      ensures ok <==> s > old(View())[topic]
      ensures View() == if ok then old(View())[topic := s] else old(View())
    {
      var seen := slotSeqs[topic];
      if s <= seen { return false; }
      slotSeqs[topic] := s;
      if seen == 0 { activeSlots := activeSlots + {topic}; }
      return true;
    }

    method SetTopicSeq(topic: Topic, s: Seq)
      requires Valid()
      modifies this, slotSeqs
      ensures Valid()
      ensures View() == old(View())[topic := s]
    {
      slotSeqs[topic] := s;
      if s > 0 { activeSlots := activeSlots + {topic}; }
    }

    /** The scan of the index finds what a scan of all topics would: every mark
        that is not zero, once, with its current value, and nothing else. */
    method HighWaterMarks() returns (marks: seq<TopicSeq>)
      requires Valid()
      ensures forall m: TopicSeq :: m in marks <==> m.seqno > 0 && View()[m.topic] == m.seqno
      ensures forall i, j | 0 <= i < j < |marks| :: marks[i].topic != marks[j].topic
    {
      marks := [];
      var todo := activeSlots;
      while todo != {}
        invariant todo <= activeSlots
        invariant forall m: TopicSeq :: m in marks <==>
                    m.seqno > 0 && slotSeqs[m.topic] == m.seqno && m.topic in activeSlots && m.topic !in todo
        invariant forall i, j | 0 <= i < j < |marks| :: marks[i].topic != marks[j].topic
      {
        var topic :| topic in todo;
        assert forall m <- marks :: m.topic != topic;
        todo := todo - {topic};
        var s := slotSeqs[topic];
        if s > 0 { marks := marks + [TopicSeq(topic, s)]; }
      }
    }
  }
}
