/** Fixed-width big-endian integers, as every wire format here uses them. */
module Wire {
  import opened Types
  import opened Division

  function Pow256(n: nat): (p: nat)
    ensures p > 0
  {
    if n == 0 then 1 else 256 * Pow256(n - 1)
  }

  /** The `n` lowest bytes of `x`, most significant first; larger numbers are
      cut off like a conversion to a narrower unsigned type. */
  function BE(x: nat, n: nat): (bs: Bytes)
    ensures |bs| == n
  {
    if n == 0 then [] else BE(x / 256, n - 1) + [x % 256]
  }

  /** The first byte is the most significant one: byte `i` of `n` holds the
      digit of weight 256^(n - 1 - i). */
  lemma {:induction false} BEAt(x: nat, n: nat, i: nat)
    requires i < n
    ensures BE(x, n)[i] == x / Pow256(n - 1 - i) % 256
  {
    if i < n - 1 {
      BEAt(x / 256, n - 1, i);
      DivTwice(x, 256, Pow256(n - 2 - i));
    }
  }

  function FromBE(bs: Bytes): nat {
    if bs == [] then 0 else FromBE(bs[..|bs| - 1]) * 256 + bs[|bs| - 1]
  }

  lemma {:induction false} FromBEBound(bs: Bytes)
    ensures FromBE(bs) < Pow256(|bs|)
  {
    if bs != [] { FromBEBound(bs[..|bs| - 1]); }
  }

  /** Decoding undoes encoding for numbers that fit. */
  lemma {:induction false} FromBEOfBE(x: nat, n: nat)
    requires x < Pow256(n)
    ensures FromBE(BE(x, n)) == x
  {
    if n > 0 {
      FromBEOfBE(x / 256, n - 1);
      assert BE(x, n)[..n - 1] == BE(x / 256, n - 1);
    }
  }

  /** Encoding undoes decoding for every byte string. */
  lemma {:induction false} BEOfFromBE(bs: Bytes)
    ensures BE(FromBE(bs), |bs|) == bs
  {
    if bs != [] {
      var front := bs[..|bs| - 1];
      BEOfFromBE(front);
      assert FromBE(bs) / 256 == FromBE(front) && FromBE(bs) % 256 == bs[|bs| - 1];
      assert bs == front + [bs[|bs| - 1]];
    }
  }

  lemma Widths()
    ensures Pow256(2) == 0x1_0000 && Pow256(4) == 0x1_0000_0000 && Pow256(8) == 0x1_0000_0000_0000_0000
  {
    assert Pow256(3) == 0x100_0000 && Pow256(5) == 0x100_0000_0000 && Pow256(6) == 0x1_0000_0000_0000;
  }

  /** Taking apart a concatenation. */
  lemma Split(a: Bytes, b: Bytes)
    ensures (a + b)[..|a|] == a && (a + b)[|a|..] == b
  {
  }

  lemma Assoc(a: Bytes, b: Bytes, c: Bytes)
    ensures (a + b) + c == a + (b + c)
  {
  }

  // The three widths the formats use, typed by what they can hold.

  function U16(bs: Bytes): (n: nat)
    requires |bs| == 2
    ensures n < 0x1_0000
  {
    FromBEBound(bs); Widths();
    FromBE(bs)
  }

  function U32(bs: Bytes): (n: nat)
    requires |bs| == 4
    ensures n < 0x1_0000_0000
  {
    FromBEBound(bs); Widths();
    FromBE(bs)
  }

  function U64(bs: Bytes): (n: Seq)
    requires |bs| == 8
  {
    FromBEBound(bs); Widths();
    FromBE(bs)
  }

  lemma RoundTrip16(x: nat)
    requires x < 0x1_0000
    ensures U16(BE(x, 2)) == x
  {
    Widths(); FromBEOfBE(x, 2);
  }

  lemma RoundTrip32(x: nat)
    requires x < 0x1_0000_0000
    ensures U32(BE(x, 4)) == x
  {
    Widths(); FromBEOfBE(x, 4);
  }

  lemma RoundTrip64(x: Seq)
    ensures U64(BE(x, 8)) == x
  {
    Widths(); FromBEOfBE(x, 8);
  }

  /** The `[2B topic][8B seq]` header shared by all messages. */
  function TopicSeqBytes(topic: Topic, s: Seq): (bs: Bytes)
    ensures |bs| == 10
  {
    BE(topic, 2) + BE(s, 8)
  }

  function TopicOf(bs: Bytes): Topic
    requires |bs| >= 10
  {
    U16(bs[..2])
  }

  function SeqOf(bs: Bytes): Seq
    requires |bs| >= 10
  {
    U64(bs[2..10])
  }

  lemma HeaderRoundTrip(topic: Topic, s: Seq, rest: Bytes)
    ensures var bs := TopicSeqBytes(topic, s) + rest;
            TopicOf(bs) == topic && SeqOf(bs) == s && bs[10..] == rest && bs[..10] == TopicSeqBytes(topic, s)
  {
    var bs := TopicSeqBytes(topic, s) + rest;
    RoundTrip16(topic);
    RoundTrip64(s);
    assert bs[..2] == BE(topic, 2) && bs[2..10] == BE(s, 8);
  }

  lemma HeaderReencodes(bs: Bytes)
    requires |bs| >= 10
    ensures TopicSeqBytes(TopicOf(bs), SeqOf(bs)) == bs[..10]
  {
    BEOfFromBE(bs[..2]);
    BEOfFromBE(bs[2..10]);
    assert bs[..10] == bs[..2] + bs[2..10];
  }
}
