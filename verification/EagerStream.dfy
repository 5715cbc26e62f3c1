/** Eager messages and the persistent stream that carries the large ones. */
module EagerStream {
  import opened Types
  import opened Wire
  import opened LazyBatch

  const MSG_TYPE_EAGER: Byte := 0x02

  // ----- One message -----

  /** [1B type][2B topic][8B seq][payload] */
  function EncodeEager(e: Entry): Bytes {
    [MSG_TYPE_EAGER] + TopicSeqBytes(e.topic, e.seqno) + e.payload
  }

  /** Decodes a message whose type byte has been taken off. */
  function DecodeEager(data: Bytes): Option<Entry> {
    if |data| < 10 then None else Some(Entry(TopicOf(data), SeqOf(data), data[10..]))
  }

  /** What the stream receiver does with the type byte: only its own is
      recognized. */
  function StripType(msg: Bytes): Bytes {
    if |msg| > 0 && msg[0] == MSG_TYPE_EAGER then msg[1..] else msg
  }

  /** Decoding inverts encoding, and accepts exactly the encodings. */
  lemma EagerRoundTrip(e: Entry, data: Bytes)
    ensures DecodeEager(StripType(EncodeEager(e))) == Some(e)
    ensures DecodeEager(data) == Some(e) <==> [MSG_TYPE_EAGER] + data == EncodeEager(e)
  {
    var body := TopicSeqBytes(e.topic, e.seqno) + e.payload;
    HeaderRoundTrip(e.topic, e.seqno, e.payload);
    assert EncodeEager(e) == [MSG_TYPE_EAGER] + body;
    assert EncodeEager(e)[1..] == body;
    if DecodeEager(data) == Some(e) {
      HeaderReencodes(data);
      assert data == data[..10] + data[10..];
    }
    if [MSG_TYPE_EAGER] + data == EncodeEager(e) {
      assert data == ([MSG_TYPE_EAGER] + data)[1..];
    }
  }

  // ----- The stream -----

  /** What the sender writes for a list of entries. */
  function StreamBytes(es: seq<Entry>): Bytes {
    if es == [] then [] else WriteFrame(EncodeEager(es[0])) + StreamBytes(es[1..])
  }

  /** The messages the receiver hands on before the stream ends, is cut off, or
      announces too large a message. */
  function Frames(stream: Bytes): seq<Bytes>
    decreases |stream|
  {
    match ReadFrame(stream)
    case None => []
    case Some(p) => [StripType(p.value)] + Frames(p.rest)
  }

  function DecodeAll(msgs: seq<Bytes>): seq<Option<Entry>> {
    seq(|msgs|, i requires 0 <= i < |msgs| => DecodeEager(msgs[i]))
  }

  function Somes(es: seq<Entry>): seq<Option<Entry>> {
    seq(|es|, i requires 0 <= i < |es| => Some(es[i]))
  }

  /** How many whole messages fit into the first `k` bytes. */
  function Whole(es: seq<Entry>, k: nat): (n: nat)
    ensures n <= |es|
  {
    if es == [] then 0
    else
      var len := |WriteFrame(EncodeEager(es[0]))|;
      if k < len then 0 else 1 + Whole(es[1..], k - len)
  }

  /** One frame at an offset, and the offset behind it; none if the stream ends
      before, or the frame is cut off or too large. */
  method ReadNext(stream: Bytes, off: nat) returns (r: Option<(Bytes, nat)>)
    requires off <= |stream|
    ensures r.None? ==> ReadFrame(stream[off..]) == None
    ensures r.Some? ==> off < r.value.1 <= |stream| && ReadFrame(stream[off..]) == Some(Parsed(r.value.0, stream[r.value.1..]))
  {
    if off + 4 > |stream| { return None; }
    var n := U32(stream[off..off + 4]);
    ghost var here := stream[off..];
    assert here[..4] == stream[off..off + 4];
    if n > MAX_FRAME || off + 4 + n > |stream| { return None; }
    assert here[4..4 + n] == stream[off + 4..off + 4 + n];
    assert here[4 + n..] == stream[off + 4 + n..];
    return Some((stream[off + 4..off + 4 + n], off + 4 + n));
  }

  lemma FrameStep(handed: seq<Bytes>, data: Bytes)
    ensures handed + Frames(data) ==
            match ReadFrame(data)
            case None => handed
            case Some(p) => (handed + [StripType(p.value)]) + Frames(p.rest)
  {
    match ReadFrame(data)
    case None => assert handed + [] == handed;
    case Some(p) => assert handed + ([StripType(p.value)] + Frames(p.rest)) == (handed + [StripType(p.value)]) + Frames(p.rest);
  }

  /** The receiver's loop. */
  method ReceiveEagerStream(stream: Bytes) returns (handed: seq<Bytes>)
    ensures handed == Frames(stream)
  {
    handed := [];
    var off := 0;
    while true
      invariant 0 <= off <= |stream|
      invariant Frames(stream) == handed + Frames(stream[off..])
      decreases |stream| - off
    {
      FrameStep(handed, stream[off..]);
      var next := ReadNext(stream, off);
      if next.None? { return; }
      handed, off := handed + [StripType(next.value.0)], next.value.1;
    }
  }

  lemma FramesCons(c: Bytes, rest: Bytes)
    requires |c| <= MAX_FRAME
    ensures Frames(WriteFrame(c) + rest) == [StripType(c)] + Frames(rest)
  {
    FrameRoundTrip(c, rest);
  }

  function Framed(msgs: seq<Bytes>): Bytes {
    if msgs == [] then [] else WriteFrame(msgs[0]) + Framed(msgs[1..])
  }

  lemma {:induction false} FramesAt(msgs: seq<Bytes>, i: nat)
    requires forall c <- msgs :: |c| <= MAX_FRAME
    ensures |Frames(Framed(msgs))| == |msgs|
    ensures i < |msgs| ==> Frames(Framed(msgs))[i] == StripType(msgs[i])
    decreases |msgs|
  {
    if msgs != [] {
      FramesAt(msgs[1..], if i > 0 then i - 1 else 0);
      FramesCons(msgs[0], Framed(msgs[1..]));
    }
  }

  /** Whatever messages are framed: as many are handed on, in order, each without
      its type byte if it starts with that of an eager message, and else as it
      is. */
  lemma FramesHandedOn(msgs: seq<Bytes>, i: nat)
    requires (forall c <- msgs :: |c| <= MAX_FRAME) && i < |msgs|
    ensures var handed := Frames(Framed(msgs));
            && |handed| == |msgs|
            && msgs[i] == if msgs[i] != [] && msgs[i][0] == 0x02 then [0x02] + handed[i] else handed[i]
  {
    FramesAt(msgs, i);
  }

  lemma FrameCut(c: Bytes, rest: Bytes, k: nat)
    requires |c| <= MAX_FRAME && k < |WriteFrame(c)|
    ensures Frames((WriteFrame(c) + rest)[..k]) == []
  {
    var stream := (WriteFrame(c) + rest)[..k];
    if k >= 4 {
      RoundTrip32(|c|);
      assert stream[..4] == BE(|c|, 4);
    }
  }

  lemma DecodeAllCons(e: Entry, ms: seq<Bytes>, es: seq<Entry>)
    requires DecodeAll(ms) == Somes(es)
    ensures DecodeAll([StripType(EncodeEager(e))] + ms) == Somes([e] + es)
  {
    EagerRoundTrip(e, []);
    var all := [StripType(EncodeEager(e))] + ms;
    forall i | 0 < i < |all|
      ensures DecodeAll(all)[i] == Somes([e] + es)[i]
    {
      assert DecodeAll(ms)[i - 1] == Somes(es)[i - 1];
    }
    assert |DecodeAll(ms)| == |Somes(es)|;
  }

  lemma CutConcat(a: Bytes, b: Bytes, k: nat)
    requires |a| <= k <= |a| + |b|
    ensures (a + b)[..k] == a + b[..k - |a|]
  {
  }

  /** One whole message before the cut. */
  lemma CutStep(e: Entry, tail: Bytes, j: nat, got: seq<Entry>)
    requires |EncodeEager(e)| <= MAX_FRAME && j <= |tail| && DecodeAll(Frames(tail[..j])) == Somes(got)
    ensures var frame := WriteFrame(EncodeEager(e));
            DecodeAll(Frames((frame + tail)[..|frame| + j])) == Somes([e] + got)
  {
    var frame := WriteFrame(EncodeEager(e));
    CutConcat(frame, tail, |frame| + j);
    FramesCons(EncodeEager(e), tail[..j]);
    DecodeAllCons(e, Frames(tail[..j]), got);
  }

  lemma CutShort(e: Entry, tail: Bytes, k: nat)
    requires |EncodeEager(e)| <= MAX_FRAME && k < |WriteFrame(EncodeEager(e))|
    ensures DecodeAll(Frames((WriteFrame(EncodeEager(e)) + tail)[..k])) == Somes([])
  {
    FrameCut(EncodeEager(e), tail, k);
  }

  /** The entries whose messages lie wholly within the first `k` bytes. */
  function Heard(es: seq<Entry>, k: nat): seq<Entry> {
    if es == [] || k < |WriteFrame(EncodeEager(es[0]))| then []
    else [es[0]] + Heard(es[1..], k - |WriteFrame(EncodeEager(es[0]))|)
  }

  lemma {:induction false} HeardIsPrefix(es: seq<Entry>, k: nat)
    ensures Heard(es, k) == es[..Whole(es, k)]
    decreases |es|
  {
    if es != [] && k >= |WriteFrame(EncodeEager(es[0]))| {
      var j := k - |WriteFrame(EncodeEager(es[0]))|;
      HeardIsPrefix(es[1..], j);
      assert es[..1 + Whole(es[1..], j)] == [es[0]] + es[1..][..Whole(es[1..], j)];
    }
  }

  lemma {:induction false} CutStreamIsHeard(es: seq<Entry>, k: nat)
    requires forall e <- es :: |EncodeEager(e)| <= MAX_FRAME
    requires k <= |StreamBytes(es)|
    ensures DecodeAll(Frames(StreamBytes(es)[..k])) == Somes(Heard(es, k))
    decreases |es|
  {
    if es == [] {
      assert StreamBytes(es)[..k] == [];
    } else {
      var rest, len := StreamBytes(es[1..]), |WriteFrame(EncodeEager(es[0]))|;
      if k < len {
        CutShort(es[0], rest, k);
      } else {
        CutStreamIsHeard(es[1..], k - len);
        CutStep(es[0], rest, k - len, Heard(es[1..], k - len));
      }
    }
  }

  /** The stream cut at any position yields exactly the entries whose messages
      lie wholly before the cut, in order. */
  lemma CutStreamYieldsPrefix(es: seq<Entry>, k: nat)
    requires forall e <- es :: |EncodeEager(e)| <= MAX_FRAME
    requires k <= |StreamBytes(es)|
    ensures DecodeAll(Frames(StreamBytes(es)[..k])) == Somes(es[..Whole(es, k)])
  {
    CutStreamIsHeard(es, k);
    HeardIsPrefix(es, k);
  }

  /** Nothing is lost on an uncut stream. */
  lemma {:induction false} WholeOfAll(es: seq<Entry>)
    ensures Whole(es, |StreamBytes(es)|) == |es|
  {
    if es != [] { WholeOfAll(es[1..]); }
  }

  /** A message over the limit ends the stream. */
  lemma {:induction false} OversizeStops(es: seq<Entry>, i: nat)
    requires forall e <- es :: |EncodeEager(e)| < 0x1_0000_0000
    requires i < |es| && |EncodeEager(es[i])| > MAX_FRAME
    ensures |Frames(StreamBytes(es))| <= i
    decreases |es|
  {
    FrameRoundTrip(EncodeEager(es[0]), StreamBytes(es[1..]));
    if |EncodeEager(es[0])| <= MAX_FRAME {
      OversizeStops(es[1..], i - 1);
    }
  }

  /** The receiver hands on exactly the sent entries, in order, if and only if
      every message is within the size limit. */
  lemma StreamRoundTrip(es: seq<Entry>)
    requires forall e <- es :: |EncodeEager(e)| < 0x1_0000_0000
    ensures DecodeAll(Frames(StreamBytes(es))) == Somes(es) <==> forall e <- es :: |EncodeEager(e)| <= MAX_FRAME
  {
    if forall e <- es :: |EncodeEager(e)| <= MAX_FRAME {
      WholeOfAll(es);
      CutStreamYieldsPrefix(es, |StreamBytes(es)|);
      assert StreamBytes(es)[..|StreamBytes(es)|] == StreamBytes(es) && es[..|es|] == es;
    } else {
      var i :| 0 <= i < |es| && |EncodeEager(es[i])| > MAX_FRAME;
      OversizeStops(es, i);
      assert |DecodeAll(Frames(StreamBytes(es)))| < |Somes(es)|;
    }
  }
}
