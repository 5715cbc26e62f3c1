/** A lazy batch cut off at any byte is refused, and the error names the field
    that the cut falls into.
 */
module LazyBatchCut {
  import opened Types
  import opened Wire
  import opened LazyBatch
  import opened WireLayout

  lemma EntryCut(e: Entry, k: nat, i: nat)
    requires |e.payload| < 0x1_0000_0000 && k < |EntryBytes(e)|
    ensures ParseEntry(EntryBytes(e)[..k], i) == Err(EntryError(i, k < 14))
  {
    if k >= 14 {
      assert EntryBytes(e)[..k][10..14] == BE(|e.payload|, 4);
      RoundTrip32(|e.payload|);
    }
  }

  /** A cut of a concatenation falls into the first part or behind it. */
  lemma CutConcat(a: Bytes, b: Bytes, k: nat)
    requires k <= |a + b|
    ensures k <= |a| ==> (a + b)[..k] == a[..k]
    ensures k >= |a| ==> (a + b)[..k] == a + b[..k - |a|]
  {
  }

  lemma ParseEntriesFails(data: Bytes, i: nat, n: nat, x: DecodeError)
    requires i < n && ParseEntry(data, i) == Err(x)
    ensures ParseEntries(data, i, n) == Err(x)
  {
  }

  /** The first `k` bytes, read as entries `i` up to `n`, are refused. */
  ghost predicate CutFails(data: Bytes, k: nat, i: nat, n: nat, x: DecodeError) {
    k <= |data| && i <= n && ParseEntries(data[..k], i, n) == Err(x)
  }

  lemma LaterEntryCut(e: Entry, rest: Bytes, k: nat, i: nat, n: nat, x: DecodeError)
    requires |e.payload| < 0x1_0000_0000 && CutFails(rest, k, i + 1, n, x)
    ensures CutFails(EntryBytes(e) + rest, |EntryBytes(e)| + k, i, n, x)
  {
    CutConcat(EntryBytes(e), rest, |EntryBytes(e)| + k);
    EntryRoundTrip(e, rest[..k], i);
  }

  function EntryError(i: nat, inHeader: bool): DecodeError {
    if inHeader then TruncatedEntry(i) else TruncatedPayload(i)
  }

  /** The cut lies `d` bytes behind the start of entry `j`. */
  lemma {:induction false} EntriesCut(es: seq<Entry>, j: nat, d: nat, i: nat, n: nat)
    requires (forall e <- es :: |e.payload| < 0x1_0000_0000) && j < |es| && i + j < n && d < 14 + |es[j].payload|
    ensures CutFails(EntriesBytes(es), EntryOffset(es, j) + d, i, n, EntryError(i + j, d < 14))
    decreases j
  {
    if j == 0 {
      FirstEntryCut(es[0], EntriesBytes(es[1..]), d, i, n);
    } else {
      OffsetTail(es, j);
      EntriesCut(es[1..], j - 1, d, i + 1, n);
      LaterEntryCut(es[0], EntriesBytes(es[1..]), EntryOffset(es[1..], j - 1) + d, i, n, EntryError(i + j, d < 14));
    }
  }

  lemma FirstEntryCut(e: Entry, rest: Bytes, d: nat, i: nat, n: nat)
    requires |e.payload| < 0x1_0000_0000 && i < n && d < 14 + |e.payload|
    ensures CutFails(EntryBytes(e) + rest, d, i, n, EntryError(i, d < 14))
  {
    CutConcat(EntryBytes(e), rest, d);
    EntryCut(e, d, i);
    ParseEntriesFails(EntryBytes(e)[..d], i, n, EntryError(i, d < 14));
  }

  lemma {:induction false} MarksCut(ms: seq<TopicSeq>, j: nat, k: nat, i: nat, n: nat)
    requires j < |ms| && i + j < n && 10 * j <= k < 10 * j + 10
    ensures k <= |MarksBytes(ms)|
    ensures ParseMarks(MarksBytes(ms)[..k], i, n) == Err(TruncatedMark(i + j))
    decreases j
  {
    if j > 0 {
      var first, rest := TopicSeqBytes(ms[0].topic, ms[0].seqno), MarksBytes(ms[1..]);
      MarksCut(ms[1..], j - 1, k - 10, i + 1, n);
      assert MarksBytes(ms)[..k] == first + rest[..k - 10];
      assert MarksBytes(ms)[..k][10..] == rest[..k - 10];
    }
  }

  /** Of `bs`, only the first `k` bytes arrive, and the decoder answers with an
      error. */
  ghost predicate Refused(bs: Bytes, k: nat, x: DecodeError) {
    k <= |bs| && ParseBatch(bs[..k]) == Err(x)
  }

  /** A cut `d` bytes into entry `j`. */
  lemma CutInEntries(b: Batch, j: nat, d: nat)
    requires Expressible(b) && j < |b.entries| && d < 14 + |b.entries[j].payload|
    ensures Refused(BatchBytes(b), 2 + (EntryOffset(b.entries, j) + d), EntryError(j, d < 14))
  {
    EntriesPartCut(b.entries, BE(|b.marks|, 2) + MarksBytes(b.marks), j, d);
    BatchIsThreeParts(b);
  }

  lemma {:induction false} EntriesPartCut(es: seq<Entry>, tail: Bytes, j: nat, d: nat)
    requires |es| < 0x1_0000 && (forall e <- es :: |e.payload| < 0x1_0000_0000)
    requires j < |es| && d < 14 + |es[j].payload|
    ensures Refused(BE(|es|, 2) + (EntriesBytes(es) + tail), 2 + (EntryOffset(es, j) + d), EntryError(j, d < 14))
  {
    EntriesCut(es, j, d, 0, |es|);
    BatchCut(|es|, EntriesBytes(es), tail, EntryOffset(es, j) + d, EntryError(j, d < 14));
  }

  lemma BatchCut(n: nat, es: Bytes, tail: Bytes, k: nat, x: DecodeError)
    requires n < 0x1_0000 && CutFails(es, k, 0, n, x)
    ensures Refused(BE(n, 2) + (es + tail), 2 + k, x)
  {
    CutConcat(BE(n, 2), es + tail, 2 + k);
    CutConcat(es, tail, k);
    Split(BE(n, 2), es[..k]);
    RoundTrip16(n);
    BatchFails(BE(n, 2) + es[..k], n, x);
  }

  lemma BatchIsThreeParts(b: Batch)
    ensures BatchBytes(b) == BE(|b.entries|, 2) + (EntriesBytes(b.entries) + (BE(|b.marks|, 2) + MarksBytes(b.marks)))
  {
    BatchBytesAssoc(b, []);
    assert BatchBytes(b) + [] == BatchBytes(b) && MarksBytes(b.marks) + [] == MarksBytes(b.marks);
  }

  lemma TailCut(es: seq<Entry>, ms: seq<TopicSeq>, k: nat)
    requires |ms| < 0x1_0000 && k < 2 + 10 * |ms|
    ensures k <= |BE(|ms|, 2) + MarksBytes(ms)|
    ensures ParseTail(es, (BE(|ms|, 2) + MarksBytes(ms))[..k]) == Err(if k < 2 then TruncatedMarkHeader else TruncatedMark((k - 2) / 10))
  {
    MarksLength(ms);
    if k >= 2 {
      var n, body := BE(|ms|, 2), MarksBytes(ms)[..k - 2];
      assert (n + MarksBytes(ms))[..k] == n + body;
      Split(n, body);
      RoundTrip16(|ms|);
      MarksCut(ms, (k - 2) / 10, k - 2, 0, |ms|);
    }
  }

  /** A cut in the mark count or in the marks. */
  lemma CutInMarks(b: Batch, d: nat)
    requires Expressible(b) && d < 2 + 10 * |b.marks|
    ensures Refused(BatchBytes(b), 2 + (EntryOffset(b.entries, |b.entries|) + d),
                    if d < 2 then TruncatedMarkHeader else TruncatedMark((d - 2) / 10))
  {
    var n, es, ms := BE(|b.entries|, 2), EntriesBytes(b.entries), BE(|b.marks|, 2) + MarksBytes(b.marks);
    EntriesLength(b.entries);
    MarksLength(b.marks);
    BatchIsThreeParts(b);
    CutConcat(n, es + ms, 2 + (|es| + d));
    CutConcat(es, ms, |es| + d);
    ParseThreeParts(b.entries, ms[..d]);
    TailCut(b.entries, b.marks, d);
  }

  lemma BatchFails(data: Bytes, n: nat, x: DecodeError)
    requires |data| >= 2 && U16(data[..2]) == n && ParseEntries(data[2..], 0, n) == Err(x)
    ensures ParseBatch(data) == Err(x)
  {
  }

  /** And before the entries there is only the count. */
  lemma CutInCount(b: Batch, k: nat)
    requires k < 2
    ensures Refused(BatchBytes(b), k, TooShort)
  {
  }
}
