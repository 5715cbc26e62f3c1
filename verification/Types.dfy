/** Values shared by every component: 16-bit topics, 64-bit sequence numbers,
    bytes, and the gossip entry itself.
 */
module Types {

  const MAX_SLOTS: nat := 65536
  const MAX_SEQ: nat := 0xFFFF_FFFF_FFFF_FFFF
  const MAX_REPAIR_CACHE: nat := 1024

  type Topic = t: int | 0 <= t < MAX_SLOTS
  type Seq = s: int | 0 <= s <= MAX_SEQ
  type Byte = b: int | 0 <= b < 256
  type Bytes = seq<Byte>

  datatype Option<+T> = None | Some(value: T)

  datatype Entry = Entry(topic: Topic, seqno: Seq, payload: Bytes)

  datatype TopicSeq = TopicSeq(topic: Topic, seqno: Seq)

  /** One high-water mark per topic. */
  type Marks = m: seq<Seq> | |m| == MAX_SLOTS witness seq(MAX_SLOTS, _ => 0)

  /** Unsigned 64-bit increment, which wraps. */
  function Inc(s: Seq): Seq {
    if s == MAX_SEQ then 0 else s + 1
  }

  lemma {:induction false} SubsetSize<T>(a: set<T>, b: set<T>)
    requires a <= b
    ensures |a| <= |b|
  {
    if a != {} {
      var x :| x in a;
      SubsetSize(a - {x}, b - {x});
    }
  }
}
