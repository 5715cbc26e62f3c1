/** Which byte stands where on the wire, in every format. Round trips alone would
    allow any layout that the decoder happens to share.
 */
module WireLayout {
  import opened Types
  import opened Wire
  import opened LazyBatch
  import opened EagerStream
  import opened RepairManager

  /** Byte `i` of `x` written big-endian in `n` bytes. */
  function Digit(x: nat, n: nat, i: nat): Byte
    requires i < n
  {
    x / Pow256(n - 1 - i) % 256
  }

  /** `x` stands big-endian in the `n` bytes from `off` on. */
  ghost predicate IntAt(bs: Bytes, off: nat, n: nat, x: nat) {
    off + n <= |bs| && forall i | 0 <= i < n :: bs[off + i] == Digit(x, n, i)
  }

  ghost predicate BytesAt(bs: Bytes, off: nat, part: Bytes) {
    off + |part| <= |bs| && forall i | 0 <= i < |part| :: bs[off + i] == part[i]
  }

  /** `[2B topic][8B seq]` from `off` on. */
  ghost predicate HeaderAt(bs: Bytes, off: nat, topic: Topic, s: Seq) {
    IntAt(bs, off, 2, topic) && IntAt(bs, off + 2, 8, s)
  }

  /** `[2B topic][8B seq][4B payload length][payload]` from `off` on. */
  ghost predicate EntryAt(bs: Bytes, off: nat, e: Entry) {
    HeaderAt(bs, off, e.topic, e.seqno) && IntAt(bs, off + 10, 4, |e.payload|) && BytesAt(bs, off + 14, e.payload)
  }

  lemma IntPlaced(bs: Bytes, off: nat, n: nat, x: nat)
    requires BytesAt(bs, off, BE(x, n))
    ensures IntAt(bs, off, n, x)
  {
    forall i | 0 <= i < n ensures bs[off + i] == Digit(x, n, i) { BEAt(x, n, i); }
  }

  lemma HeaderPlaced(bs: Bytes, off: nat, topic: Topic, s: Seq)
    requires BytesAt(bs, off, TopicSeqBytes(topic, s))
    ensures HeaderAt(bs, off, topic, s)
  {
    var h := TopicSeqBytes(topic, s);
    assert BytesAt(bs, off, BE(topic, 2)) by { assert forall i | 0 <= i < 2 :: BE(topic, 2)[i] == h[i]; }
    assert BytesAt(bs, off + 2, BE(s, 8)) by {
      assert forall i | 0 <= i < 8 :: BE(s, 8)[i] == h[2 + i] && bs[off + 2 + i] == bs[off + (2 + i)];
    }
    IntPlaced(bs, off, 2, topic);
    IntPlaced(bs, off + 2, 8, s);
  }

  /** A part of a part. */
  lemma PartPlaced(bs: Bytes, off: nat, whole: Bytes, at: nat, part: Bytes)
    requires BytesAt(bs, off, whole) && BytesAt(whole, at, part)
    ensures BytesAt(bs, off + at, part)
  {
    forall i | 0 <= i < |part| ensures bs[off + at + i] == part[i] {
      assert bs[off + (at + i)] == whole[at + i];
    }
  }

  lemma PartsOf(a: Bytes, b: Bytes, c: Bytes)
    ensures var w := a + b + c; BytesAt(w, 0, a) && BytesAt(w, |a|, b) && BytesAt(w, |a| + |b|, c)
  {
  }

  lemma EntryPlaced(bs: Bytes, off: nat, e: Entry)
    requires BytesAt(bs, off, EntryBytes(e))
    ensures EntryAt(bs, off, e) && |EntryBytes(e)| == 14 + |e.payload|
  {
    var w := EntryBytes(e);
    PartsOf(TopicSeqBytes(e.topic, e.seqno), BE(|e.payload|, 4), e.payload);
    PartPlaced(bs, off, w, 0, TopicSeqBytes(e.topic, e.seqno));
    PartPlaced(bs, off, w, 10, BE(|e.payload|, 4));
    PartPlaced(bs, off, w, 14, e.payload);
    HeaderPlaced(bs, off, e.topic, e.seqno);
    IntPlaced(bs, off + 10, 4, |e.payload|);
  }

  // ----- Lazy batches -----

  /** Where entry `k` of a batch starts, counted from the first one. */
  function EntryOffset(es: seq<Entry>, k: nat): nat
    requires k <= |es|
  {
    if k == 0 then 0 else EntryOffset(es, k - 1) + 14 + |es[k - 1].payload|
  }

  /** All entries from `off` on, each right behind the one before it. */
  ghost predicate EntriesAt(bs: Bytes, off: nat, es: seq<Entry>) {
    forall k | 0 <= k < |es| :: EntryAt(bs, off + EntryOffset(es, k), es[k])
  }

  /** All marks from `off` on, in ten bytes each. */
  ghost predicate MarksAt(bs: Bytes, off: nat, ms: seq<TopicSeq>) {
    forall k | 0 <= k < |ms| :: HeaderAt(bs, off + 10 * k, ms[k].topic, ms[k].seqno)
  }

  lemma {:induction false} OffsetTail(es: seq<Entry>, k: nat)
    requires 0 < k <= |es|
    ensures EntryOffset(es, k) == 14 + |es[0].payload| + EntryOffset(es[1..], k - 1)
    decreases k
  {
    if k > 1 { OffsetTail(es, k - 1); }
  }

  lemma {:induction false} EntriesPlaced(bs: Bytes, off: nat, es: seq<Entry>, k: nat)
    requires BytesAt(bs, off, EntriesBytes(es)) && k < |es|
    ensures EntryAt(bs, off + EntryOffset(es, k), es[k])
    decreases k
  {
    var first, rest := EntryBytes(es[0]), EntriesBytes(es[1..]);
    PartPlaced(bs, off, EntriesBytes(es), 0, first);
    PartPlaced(bs, off, EntriesBytes(es), |first|, rest);
    EntryPlaced(bs, off, es[0]);
    if k > 0 {
      EntriesPlaced(bs, off + |first|, es[1..], k - 1);
      OffsetTail(es, k);
    }
  }

  lemma {:induction false} EntriesLength(es: seq<Entry>)
    ensures |EntriesBytes(es)| == EntryOffset(es, |es|)
  {
    if es != [] {
      EntriesLength(es[1..]);
      OffsetTail(es, |es|);
    }
  }

  lemma {:induction false} MarksPlaced(bs: Bytes, off: nat, ms: seq<TopicSeq>, k: nat)
    requires BytesAt(bs, off, MarksBytes(ms)) && k < |ms|
    ensures HeaderAt(bs, off + 10 * k, ms[k].topic, ms[k].seqno)
    decreases k
  {
    PartPlaced(bs, off, MarksBytes(ms), 0, TopicSeqBytes(ms[0].topic, ms[0].seqno));
    PartPlaced(bs, off, MarksBytes(ms), 10, MarksBytes(ms[1..]));
    if k == 0 { HeaderPlaced(bs, off, ms[0].topic, ms[0].seqno); } else { MarksPlaced(bs, off + 10, ms[1..], k - 1); }
  }

  lemma {:induction false} MarksLength(ms: seq<TopicSeq>)
    ensures |MarksBytes(ms)| == 10 * |ms|
  {
    if ms != [] { MarksLength(ms[1..]); }
  }

  lemma AllEntriesPlaced(bs: Bytes, off: nat, es: seq<Entry>)
    requires BytesAt(bs, off, EntriesBytes(es))
    ensures EntriesAt(bs, off, es)
  {
    forall k | 0 <= k < |es| ensures EntryAt(bs, off + EntryOffset(es, k), es[k]) { EntriesPlaced(bs, off, es, k); }
  }

  lemma AllMarksPlaced(bs: Bytes, off: nat, ms: seq<TopicSeq>)
    requires BytesAt(bs, off, MarksBytes(ms))
    ensures MarksAt(bs, off, ms)
  {
    forall k | 0 <= k < |ms| ensures HeaderAt(bs, off + 10 * k, ms[k].topic, ms[k].seqno) { MarksPlaced(bs, off, ms, k); }
  }

  /** A whole batch: the entry count in two bytes, the entries, the mark count,
      the marks, and nothing else. */
  ghost predicate BatchAt(bs: Bytes, b: Batch) {
    var tail := 2 + EntryOffset(b.entries, |b.entries|);
    && |bs| == tail + 2 + 10 * |b.marks|
    && IntAt(bs, 0, 2, |b.entries|) && EntriesAt(bs, 2, b.entries)
    && IntAt(bs, tail, 2, |b.marks|) && MarksAt(bs, tail + 2, b.marks)
  }

  lemma FourParts(a: Bytes, b: Bytes, c: Bytes, d: Bytes)
    ensures var w := a + b + c + d;
            BytesAt(w, 0, a) && BytesAt(w, |a|, b) && BytesAt(w, |a| + |b|, c) && BytesAt(w, |a| + |b| + |c|, d)
  {
  }

  lemma BatchPlaced(bs: Bytes, b: Batch, tail: nat)
    requires tail == 2 + EntryOffset(b.entries, |b.entries|) && |bs| == tail + 2 + 10 * |b.marks|
    requires BytesAt(bs, 0, BE(|b.entries|, 2)) && BytesAt(bs, 2, EntriesBytes(b.entries))
    requires BytesAt(bs, tail, BE(|b.marks|, 2)) && BytesAt(bs, tail + 2, MarksBytes(b.marks))
    ensures BatchAt(bs, b)
  {
    IntPlaced(bs, 0, 2, |b.entries|);
    IntPlaced(bs, tail, 2, |b.marks|);
    AllEntriesPlaced(bs, 2, b.entries);
    AllMarksPlaced(bs, tail + 2, b.marks);
  }

  /** What the encoder writes stands on the wire byte by byte as the format
      says, all integers big-endian. */
  lemma BatchLayout(b: Batch)
    ensures BatchAt(BatchBytes(b), b)
  {
    EntriesLength(b.entries);
    MarksLength(b.marks);
    FourParts(BE(|b.entries|, 2), EntriesBytes(b.entries), BE(|b.marks|, 2), MarksBytes(b.marks));
    BatchPlaced(BatchBytes(b), b, 2 + EntryOffset(b.entries, |b.entries|));
  }

  // ----- The other messages -----

  /** An eager message in its frame: length, the byte 0x02, header, payload. */
  lemma EagerLayout(e: Entry)
    ensures var bs := WriteFrame(EncodeEager(e));
            && |bs| == 15 + |e.payload| && IntAt(bs, 0, 4, 11 + |e.payload|) && bs[4] == 0x02
            && HeaderAt(bs, 5, e.topic, e.seqno) && BytesAt(bs, 15, e.payload)
  {
    var msg := EncodeEager(e);
    var bs := WriteFrame(msg);
    assert BytesAt(bs, 0, BE(|msg|, 4)) && BytesAt(bs, 4, msg);
    IntPlaced(bs, 0, 4, |msg|);
    PartPlaced(bs, 4, msg, 1, TopicSeqBytes(e.topic, e.seqno));
    PartPlaced(bs, 4, msg, 11, e.payload);
    HeaderPlaced(bs, 5, e.topic, e.seqno);
    assert bs[4 + 0] == msg[0];
  }

  /** A repair request: the byte 0x16 and the header. */
  lemma RequestLayout(key: TopicSeq)
    ensures var bs := RequestBytes(key); |bs| == 11 && bs[0] == 0x16 && HeaderAt(bs, 1, key.topic, key.seqno)
  {
    var bs := RequestBytes(key);
    assert BytesAt(bs, 1, TopicSeqBytes(key.topic, key.seqno));
    HeaderPlaced(bs, 1, key.topic, key.seqno);
  }
}
