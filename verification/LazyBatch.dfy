/** Lazy batches on the wire.

    [2B entry count] entries [2B mark count] marks, where an entry is
    [2B topic][8B seq][4B payload length][payload] and a mark [2B topic][8B seq].
 */
module LazyBatch {
  import opened Types
  import opened Wire

  datatype Batch = Batch(entries: seq<Entry>, marks: seq<TopicSeq>)

  datatype DecodeError =
    | TooShort
    | TruncatedEntry(i: nat)
    | TruncatedPayload(i: nat)
    | TruncatedMarkHeader
    | TruncatedMark(i: nat)

  datatype Result<+T> = Ok(value: T) | Err(error: DecodeError)

  // ----- Format -----

  function EntryBytes(e: Entry): Bytes {
    TopicSeqBytes(e.topic, e.seqno) + BE(|e.payload|, 4) + e.payload
  }

  function EntriesBytes(es: seq<Entry>): Bytes {
    if es == [] then [] else EntryBytes(es[0]) + EntriesBytes(es[1..])
  }

  function MarksBytes(ms: seq<TopicSeq>): Bytes {
    if ms == [] then [] else TopicSeqBytes(ms[0].topic, ms[0].seqno) + MarksBytes(ms[1..])
  }

  function BatchBytes(b: Batch): Bytes {
    BE(|b.entries|, 2) + EntriesBytes(b.entries) + BE(|b.marks|, 2) + MarksBytes(b.marks)
  }

  /** The batches the format can express: counts of 16 bits, payload lengths of
      32 bits. */
  ghost predicate Expressible(b: Batch) {
    && |b.entries| < 0x1_0000 && |b.marks| < 0x1_0000
    && forall e <- b.entries :: |e.payload| < 0x1_0000_0000
  }

  // ----- Parsing -----

  datatype Parsed<+T> = Parsed(value: T, rest: Bytes)

  function ParseEntry(data: Bytes, i: nat): Result<Parsed<Entry>> {
    if |data| < 14 then Err(TruncatedEntry(i))
    else
      var n := U32(data[10..14]);
      if 14 + n > |data| then Err(TruncatedPayload(i))
      else Ok(Parsed(Entry(TopicOf(data), SeqOf(data), data[14..14 + n]), data[14 + n..]))
  }

  /** Entries `i` up to `n`. */
  function ParseEntries(data: Bytes, i: nat, n: nat): Result<Parsed<seq<Entry>>>
    requires i <= n
    decreases n - i
  {
    if i == n then Ok(Parsed([], data)) else
    match ParseEntry(data, i)
    case Err(e) => Err(e)
    case Ok(first) =>
      match ParseEntries(first.rest, i + 1, n)
      case Err(e) => Err(e)
      case Ok(p) => Ok(Parsed([first.value] + p.value, p.rest))
  }

  function ParseMarks(data: Bytes, i: nat, n: nat): Result<Parsed<seq<TopicSeq>>>
    requires i <= n
    decreases n - i
  {
    if i == n then Ok(Parsed([], data))
    else if |data| < 10 then Err(TruncatedMark(i))
    else
      match ParseMarks(data[10..], i + 1, n)
      case Err(e) => Err(e)
      case Ok(p) => Ok(Parsed([TopicSeq(TopicOf(data), SeqOf(data))] + p.value, p.rest))
  }

  /** The marks that follow the entries of a batch. */
  function ParseTail(es: seq<Entry>, data: Bytes): Result<Parsed<Batch>> {
    if |data| < 2 then Err(TruncatedMarkHeader) else
    match ParseMarks(data[2..], 0, U16(data[..2]))
    case Err(e) => Err(e)
    case Ok(ms) => Ok(Parsed(Batch(es, ms.value), ms.rest))
  }

  function ParseBatch(data: Bytes): Result<Parsed<Batch>> {
    if |data| < 2 then Err(TooShort) else
    match ParseEntries(data[2..], 0, U16(data[..2]))
    case Err(e) => Err(e)
    case Ok(es) => ParseTail(es.value, es.rest)
  }

  // ----- Parsing inverts the format -----

  lemma EntryRoundTrip(e: Entry, rest: Bytes, i: nat)
    requires |e.payload| < 0x1_0000_0000
    ensures ParseEntry(EntryBytes(e) + rest, i) == Ok(Parsed(e, rest))
  {
    var data, n := EntryBytes(e) + rest, |e.payload|;
    assert data == TopicSeqBytes(e.topic, e.seqno) + (BE(n, 4) + e.payload + rest);
    HeaderRoundTrip(e.topic, e.seqno, BE(n, 4) + e.payload + rest);
    RoundTrip32(n);
    assert data[10..14] == BE(n, 4) && data[14..14 + n] == e.payload && data[14 + n..] == rest;
  }

  lemma EntryReencodes(data: Bytes, i: nat)
    requires ParseEntry(data, i).Ok?
    ensures var p := ParseEntry(data, i).value;
            data == EntryBytes(p.value) + p.rest && |p.value.payload| < 0x1_0000_0000
  {
    var p := ParseEntry(data, i).value;
    HeaderReencodes(data);
    BEOfFromBE(data[10..14]);
    var n := U32(data[10..14]);
    assert data == data[..10] + data[10..14] + data[14..14 + n] + data[14 + n..];
  }

  lemma ParseEntriesCons(e: Entry, es: seq<Entry>, tail: Bytes, rest: Bytes, i: nat, n: nat)
    requires |e.payload| < 0x1_0000_0000 && i < n
    requires ParseEntries(tail, i + 1, n) == Ok(Parsed(es, rest))
    ensures ParseEntries(EntryBytes(e) + tail, i, n) == Ok(Parsed([e] + es, rest))
  {
    EntryRoundTrip(e, tail, i);
  }

  lemma {:induction false} EntriesRoundTrip(es: seq<Entry>, rest: Bytes, i: nat)
    requires forall e <- es :: |e.payload| < 0x1_0000_0000
    ensures ParseEntries(EntriesBytes(es) + rest, i, i + |es|) == Ok(Parsed(es, rest))
    decreases |es|
  {
    if es == [] {
      assert EntriesBytes(es) + rest == rest;
    } else {
      var tail := EntriesBytes(es[1..]) + rest;
      Assoc(EntryBytes(es[0]), EntriesBytes(es[1..]), rest);
      EntriesRoundTrip(es[1..], rest, i + 1);
      ParseEntriesCons(es[0], es[1..], tail, rest, i, i + |es|);
      assert [es[0]] + es[1..] == es;
    }
  }

  lemma EntriesBytesCons(e: Entry, es: seq<Entry>)
    ensures EntriesBytes([e] + es) == EntryBytes(e) + EntriesBytes(es)
  {
    assert ([e] + es)[1..] == es;
  }

  lemma {:induction false} EntriesReencode(data: Bytes, i: nat, n: nat)
    requires i <= n && ParseEntries(data, i, n).Ok?
    ensures var p := ParseEntries(data, i, n).value;
            data == EntriesBytes(p.value) + p.rest && |p.value| == n - i && forall e <- p.value :: |e.payload| < 0x1_0000_0000
    decreases n - i
  {
    if i < n {
      var first := ParseEntry(data, i).value;
      EntryReencodes(data, i);
      EntriesReencode(first.rest, i + 1, n);
      var q := ParseEntries(first.rest, i + 1, n).value;
      EntriesBytesCons(first.value, q.value);
      Assoc(EntryBytes(first.value), EntriesBytes(q.value), q.rest);
    }
  }

  lemma {:induction false} MarksRoundTrip(ms: seq<TopicSeq>, rest: Bytes, i: nat)
    ensures ParseMarks(MarksBytes(ms) + rest, i, i + |ms|) == Ok(Parsed(ms, rest))
    decreases |ms|
  {
    if ms == [] {
      assert MarksBytes(ms) + rest == rest;
    } else {
      var tail := MarksBytes(ms[1..]) + rest;
      assert MarksBytes(ms) + rest == TopicSeqBytes(ms[0].topic, ms[0].seqno) + tail;
      HeaderRoundTrip(ms[0].topic, ms[0].seqno, tail);
      MarksRoundTrip(ms[1..], rest, i + 1);
      assert [ms[0]] + ms[1..] == ms;
    }
  }

  lemma MarksBytesCons(m: TopicSeq, ms: seq<TopicSeq>)
    ensures MarksBytes([m] + ms) == TopicSeqBytes(m.topic, m.seqno) + MarksBytes(ms)
  {
    assert ([m] + ms)[1..] == ms;
  }

  lemma {:induction false} MarksReencode(data: Bytes, i: nat, n: nat)
    requires i <= n && ParseMarks(data, i, n).Ok?
    ensures var p := ParseMarks(data, i, n).value;
            data == MarksBytes(p.value) + p.rest && |p.value| == n - i
    decreases n - i
  {
    if i < n {
      HeaderReencodes(data);
      MarksReencode(data[10..], i + 1, n);
      var q := ParseMarks(data[10..], i + 1, n).value;
      MarksBytesCons(TopicSeq(TopicOf(data), SeqOf(data)), q.value);
      assert data == data[..10] + data[10..];
      Assoc(data[..10], MarksBytes(q.value), q.rest);
    }
  }

  lemma TailRoundTrip(b: Batch, rest: Bytes)
    requires |b.marks| < 0x1_0000
    ensures ParseTail(b.entries, BE(|b.marks|, 2) + (MarksBytes(b.marks) + rest)) == Ok(Parsed(b, rest))
  {
    Split(BE(|b.marks|, 2), MarksBytes(b.marks) + rest);
    RoundTrip16(|b.marks|);
    MarksRoundTrip(b.marks, rest, 0);
  }

  lemma {:induction false} ParseThreeParts(es: seq<Entry>, tail: Bytes)
    requires |es| < 0x1_0000 && forall e <- es :: |e.payload| < 0x1_0000_0000
    ensures ParseBatch(BE(|es|, 2) + (EntriesBytes(es) + tail)) == ParseTail(es, tail)
  {
    var n, body := BE(|es|, 2), EntriesBytes(es) + tail;
    Split(n, body);
    RoundTrip16(|es|);
    EntriesRoundTrip(es, tail, 0);
    BatchGoesOn(n + body, |es|, es, tail);
  }

  lemma BatchGoesOn(data: Bytes, n: nat, es: seq<Entry>, tail: Bytes)
    requires |data| >= 2 && U16(data[..2]) == n && ParseEntries(data[2..], 0, n) == Ok(Parsed(es, tail))
    ensures ParseBatch(data) == ParseTail(es, tail)
  {
  }

  lemma BatchRoundTrip(b: Batch, rest: Bytes)
    requires Expressible(b)
    ensures ParseBatch(BatchBytes(b) + rest) == Ok(Parsed(b, rest))
  {
    BatchBytesAssoc(b, rest);
    ParseThreeParts(b.entries, BE(|b.marks|, 2) + (MarksBytes(b.marks) + rest));
    TailRoundTrip(b, rest);
  }

  lemma BatchBytesAssoc(b: Batch, rest: Bytes)
    ensures BatchBytes(b) + rest ==
            BE(|b.entries|, 2) + (EntriesBytes(b.entries) + (BE(|b.marks|, 2) + (MarksBytes(b.marks) + rest)))
  {
    var n, es, k, ms := BE(|b.entries|, 2), EntriesBytes(b.entries), BE(|b.marks|, 2), MarksBytes(b.marks);
    calc {
      n + es + k + ms + rest;
      { Assoc(n + es + k, ms, rest); }
      n + es + k + (ms + rest);
      { Assoc(n + es, k, ms + rest); }
      n + es + (k + (ms + rest));
      { Assoc(n, es, k + (ms + rest)); }
      n + (es + (k + (ms + rest)));
    }
  }

  lemma TailReencodes(es: seq<Entry>, data: Bytes)
    requires ParseTail(es, data).Ok?
    ensures var p := ParseTail(es, data).value;
            && p.value.entries == es && |p.value.marks| < 0x1_0000
            && data == BE(|p.value.marks|, 2) + (MarksBytes(p.value.marks) + p.rest)
  {
    MarksReencode(data[2..], 0, U16(data[..2]));
    BEOfFromBE(data[..2]);
    assert data == data[..2] + data[2..];
  }

  lemma BatchReencodes(data: Bytes)
    requires ParseBatch(data).Ok?
    ensures var p := ParseBatch(data).value;
            data == BatchBytes(p.value) + p.rest && Expressible(p.value)
  {
    var n := U16(data[..2]);
    EntriesReencode(data[2..], 0, n);
    var es := ParseEntries(data[2..], 0, n).value;
    TailReencodes(es.value, es.rest);
    BEOfFromBE(data[..2]);
    assert data == data[..2] + data[2..];
    var p := ParseBatch(data).value;
    BatchBytesAssoc(p.value, p.rest);
  }

  /** The decoder accepts a byte string as a batch exactly when the batch is
      expressible and its encoding is a prefix of the string. */
  lemma AcceptsIff(data: Bytes, b: Batch)
    ensures (ParseBatch(data).Ok? && ParseBatch(data).value.value == b) <==> (Expressible(b) && BatchBytes(b) <= data)
  {
    if ParseBatch(data).Ok? { BatchReencodes(data); }
    if Expressible(b) && BatchBytes(b) <= data {
      var rest := data[|BatchBytes(b)|..];
      assert data == BatchBytes(b) + rest;
      BatchRoundTrip(b, rest);
    }
  }

  // ----- The loops of the source -----

  lemma {:induction false} EntriesBytesAppend(es: seq<Entry>, e: Entry)
    ensures EntriesBytes(es + [e]) == EntriesBytes(es) + EntryBytes(e)
  {
    if es == [] {
      assert [e][1..] == [];
    } else {
      EntriesBytesAppend(es[1..], e);
      Assoc(EntryBytes(es[0]), EntriesBytes(es[1..]), EntryBytes(e));
      assert (es + [e])[1..] == es[1..] + [e];
    }
  }

  lemma {:induction false} MarksBytesAppend(ms: seq<TopicSeq>, m: TopicSeq)
    ensures MarksBytes(ms + [m]) == MarksBytes(ms) + TopicSeqBytes(m.topic, m.seqno)
  {
    if ms == [] {
      assert [m][1..] == [];
    } else {
      MarksBytesAppend(ms[1..], m);
      assert (ms + [m])[1..] == ms[1..] + [m];
    }
  }

  method SerializeEntries(buf0: Bytes, es: seq<Entry>) returns (buf: Bytes)
    ensures buf == buf0 + EntriesBytes(es)
  {
    buf := buf0;
    for i := 0 to |es|
      invariant buf == buf0 + EntriesBytes(es[..i])
    {
      var e := es[i];
      EntriesBytesAppend(es[..i], e);
      assert es[..i + 1] == es[..i] + [e];
      buf := buf + BE(e.topic, 2);
      buf := buf + BE(e.seqno, 8);
      buf := buf + BE(|e.payload|, 4);
      buf := buf + e.payload;
    }
    assert es[..|es|] == es;
  }

  method SerializeMarks(buf0: Bytes, ms: seq<TopicSeq>) returns (buf: Bytes)
    ensures buf == buf0 + MarksBytes(ms)
  {
    buf := buf0;
    for i := 0 to |ms|
      invariant buf == buf0 + MarksBytes(ms[..i])
    {
      var m := ms[i];
      MarksBytesAppend(ms[..i], m);
      assert ms[..i + 1] == ms[..i] + [m];
      buf := buf + BE(m.topic, 2);
      buf := buf + BE(m.seqno, 8);
    }
    assert ms[..|ms|] == ms;
  }

  /** The serializing half of the encoder; compression is applied to `buf`. */
  method Serialize(b: Batch) returns (buf: Bytes)
    ensures buf == BatchBytes(b)
  {
    buf := SerializeEntries(BE(|b.entries|, 2), b.entries);
    buf := SerializeMarks(buf + BE(|b.marks|, 2), b.marks);
  }

  ghost function Prepend<T>(xs: seq<T>, r: Result<Parsed<seq<T>>>): Result<Parsed<seq<T>>> {
    if r.Ok? then Ok(Parsed(xs + r.value.value, r.value.rest)) else r
  }

  lemma PrependNil<T>(r: Result<Parsed<seq<T>>>)
    ensures Prepend([], r) == r
  {
    if r.Ok? { assert [] + r.value.value == r.value.value; }
  }

  lemma PrependNext<T>(xs: seq<T>, x: T, r: Result<Parsed<seq<T>>>)
    ensures Prepend(xs, Prepend([x], r)) == Prepend(xs + [x], r)
  {
    if r.Ok? { assert xs + ([x] + r.value.value) == xs + [x] + r.value.value; }
  }

  /** One entry at an offset, and the offset behind it. */
  method ReadEntry(data: Bytes, start: nat, i: nat) returns (r: Result<(Entry, nat)>)
    requires start <= |data|
    ensures r.Ok? ==> r.value.1 <= |data|
    ensures match r
            case Ok((e, off)) => ParseEntry(data[start..], i) == Ok(Parsed(e, data[off..]))
            case Err(e) => ParseEntry(data[start..], i) == Err(e)
  {
    ghost var here := data[start..];
    if start + 14 > |data| { return Err(TruncatedEntry(i)); }
    var topic := U16(data[start..start + 2]);
    var s := U64(data[start + 2..start + 10]);
    var n := U32(data[start + 10..start + 14]);
    assert here[..2] == data[start..start + 2];
    assert here[2..10] == data[start + 2..start + 10];
    assert here[10..14] == data[start + 10..start + 14];
    var off := start + 14;
    if off + n > |data| { return Err(TruncatedPayload(i)); }
    var payload := data[off..off + n];
    assert here[14..14 + n] == payload;
    assert here[14 + n..] == data[off + n..];
    return Ok((Entry(topic, s, payload), off + n));
  }

  lemma EntryStep(es: seq<Entry>, data: Bytes, i: nat, count: nat)
    requires i < count
    ensures Prepend(es, ParseEntries(data, i, count)) ==
            match ParseEntry(data, i)
            case Err(x) => Err(x)
            case Ok(p) => Prepend(es + [p.value], ParseEntries(p.rest, i + 1, count))
  {
    var one := ParseEntry(data, i);
    if one.Ok? {
      assert ParseEntries(data, i, count) == Prepend([one.value.value], ParseEntries(one.value.rest, i + 1, count));
      PrependNext(es, one.value.value, ParseEntries(one.value.rest, i + 1, count));
    }
  }

  method ParseEntriesLoop(data: Bytes, start: nat, count: nat) returns (r: Result<(seq<Entry>, nat)>)
    requires start <= |data|
    ensures r.Ok? ==> r.value.1 <= |data|
    ensures match r
            case Ok((es, off)) => ParseEntries(data[start..], 0, count) == Ok(Parsed(es, data[off..]))
            case Err(e) => ParseEntries(data[start..], 0, count) == Err(e)
  {
    var off := start;
    var es: seq<Entry> := [];
    PrependNil(ParseEntries(data[start..], 0, count));
    for i := 0 to count
      invariant 0 <= off <= |data|
      invariant ParseEntries(data[start..], 0, count) == Prepend(es, ParseEntries(data[off..], i, count))
    {
      EntryStep(es, data[off..], i, count);
      var one := ReadEntry(data, off, i);
      if one.Err? { return Err(one.error); }
      es, off := es + [one.value.0], one.value.1;
    }
    assert es + [] == es;
    return Ok((es, off));
  }

  method ParseMarksLoop(data: Bytes, start: nat, count: nat) returns (r: Result<(seq<TopicSeq>, nat)>)
    requires start <= |data|
    ensures r.Ok? ==> r.value.1 <= |data|
    ensures match r
            case Ok((ms, off)) => ParseMarks(data[start..], 0, count) == Ok(Parsed(ms, data[off..]))
            case Err(e) => ParseMarks(data[start..], 0, count) == Err(e)
  {
    var off := start;
    var ms: seq<TopicSeq> := [];
    PrependNil(ParseMarks(data[start..], 0, count));
    for i := 0 to count
      invariant start <= off <= |data|
      invariant ParseMarks(data[start..], 0, count) == Prepend(ms, ParseMarks(data[off..], i, count))
    {
      ghost var here := data[off..];
      if off + 10 > |data| { return Err(TruncatedMark(i)); }
      assert here[..2] == data[off..off + 2] && here[2..10] == data[off + 2..off + 10] && here[10..] == data[off + 10..];
      var m := TopicSeq(U16(data[off..off + 2]), U64(data[off + 2..off + 10]));
      off := off + 10;
      assert ParseMarks(here, i, count) == Prepend([m], ParseMarks(data[off..], i + 1, count));
      PrependNext(ms, m, ParseMarks(data[off..], i + 1, count));
      ms := ms + [m];
    }
    assert ms + [] == ms;
    return Ok((ms, off));
  }

  /** The decoder after decompression. It ignores bytes behind the batch. */
  method Deserialize(data: Bytes) returns (r: Result<Batch>)
    ensures r == if ParseBatch(data).Ok? then Ok(ParseBatch(data).value.value) else Err(ParseBatch(data).error)
    ensures r.Ok? ==> Expressible(r.value) && BatchBytes(r.value) <= data
    ensures r.Err? ==> forall b: Batch :: Expressible(b) ==> !(BatchBytes(b) <= data)
  {
    forall b: Batch
      ensures (ParseBatch(data).Ok? && ParseBatch(data).value.value == b) <==> (Expressible(b) && BatchBytes(b) <= data)
    {
      AcceptsIff(data, b);
    }
    if |data| < 2 { return Err(TooShort); }
    var es := ParseEntriesLoop(data, 2, U16(data[..2]));
    if es.Err? { return Err(es.error); }
    var off := es.value.1;
    if off + 2 > |data| { return Err(TruncatedMarkHeader); }
    assert data[off..][..2] == data[off..off + 2] && data[off..][2..] == data[off + 2..];
    var ms := ParseMarksLoop(data, off + 2, U16(data[off..off + 2]));
    if ms.Err? { return Err(ms.error); }
    return Ok(Batch(es.value.0, ms.value.0));
  }

  // ----- Compression and framing -----

  const MAX_FRAME: nat := 16 * 1024 * 1024

  function WriteFrame(c: Bytes): Bytes {
    BE(|c|, 4) + c
  }

  /** Reads `[4B length][bytes]`, refusing lengths over 16 MB. */
  function ReadFrame(stream: Bytes): Option<Parsed<Bytes>> {
    if |stream| < 4 then None
    else
      var n := U32(stream[..4]);
      if n > MAX_FRAME || |stream| < 4 + n then None
      else Some(Parsed(stream[4..4 + n], stream[4 + n..]))
  }

  function WriteBatch(b: Batch, compress: Bytes -> Bytes): Bytes {
    WriteFrame(compress(BatchBytes(b)))
  }

  function ReadBatch(stream: Bytes, decompress: Bytes -> Option<Bytes>): Option<Batch> {
    match ReadFrame(stream)
    case None => None
    case Some(frame) =>
      match decompress(frame.value)
      case None => None
      case Some(data) => if ParseBatch(data).Ok? then Some(ParseBatch(data).value.value) else None
  }

  lemma FrameRoundTrip(c: Bytes, rest: Bytes)
    requires |c| < 0x1_0000_0000
    ensures ReadFrame(WriteFrame(c) + rest) == if |c| <= MAX_FRAME then Some(Parsed(c, rest)) else None
  {
    RoundTrip32(|c|);
    Assoc(BE(|c|, 4), c, rest);
    Split(BE(|c|, 4), c + rest);
    Split(WriteFrame(c), rest);
    var stream := WriteFrame(c) + rest;
    assert stream[..4] == BE(|c|, 4);
    assert stream[4..4 + |c|] == c;
  }

  /** A batch survives the wire, whatever follows it on the stream, exactly when
      its compressed form is within the size limit. */
  lemma BatchOverTheWire(b: Batch, rest: Bytes, compress: Bytes -> Bytes, decompress: Bytes -> Option<Bytes>)
    requires forall x: Bytes :: decompress(compress(x)) == Some(x)
    requires Expressible(b) && |compress(BatchBytes(b))| < 0x1_0000_0000
    ensures ReadBatch(WriteBatch(b, compress) + rest, decompress) == Some(b) <==> |compress(BatchBytes(b))| <= MAX_FRAME
  {
    FrameRoundTrip(compress(BatchBytes(b)), rest);
    BatchRoundTrip(b, []);
    assert BatchBytes(b) + [] == BatchBytes(b);
  }
}
