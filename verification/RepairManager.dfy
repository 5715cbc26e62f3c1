/** Gap repair: a bounded cache of recent entries, the request and response that
    peers exchange, and the pull that feeds the ordered applier.
 */
module RepairManager {
  import opened Types
  import opened Wire
  import opened OrderedSlot
  import opened OrderedApplier

  const STREAM_TYPE_REPAIR: Byte := 0x16

  // ----- Request and response -----

  function RequestBytes(key: TopicSeq): Bytes {
    [STREAM_TYPE_REPAIR] + TopicSeqBytes(key.topic, key.seqno)
  }

  /** The answer to a request whose type byte has been taken off; a request cut
      short gets none. */
  function Respond(cache: map<TopicSeq, Bytes>, req: Bytes): Bytes {
    if |req| < 10 then []
    else
      var key := TopicSeq(TopicOf(req), SeqOf(req));
      if key in cache then [0x01] + cache[key] else [0x00]
  }

  datatype Pull = Hit(payload: Bytes) | Miss | Failed

  function ReadResponse(resp: Bytes): Pull {
    if resp == [] then Failed
    else if resp[0] == 0x00 then Miss
    else Hit(resp[1..])
  }

  /** A pull returns exactly what the peer has cached for the number asked for,
      an empty payload included. */
  lemma PullIsLookup(cache: map<TopicSeq, Bytes>, key: TopicSeq)
    ensures ReadResponse(Respond(cache, RequestBytes(key)[1..])) == if key in cache then Hit(cache[key]) else Miss
  {
    assert RequestBytes(key)[1..] == TopicSeqBytes(key.topic, key.seqno) + [];
    HeaderRoundTrip(key.topic, key.seqno, []);
    if key in cache { assert ([0x01] + cache[key])[1..] == cache[key]; }
  }

  /** A request cut off on the way gets no answer, which is a failed pull and
      not a miss. */
  lemma CutRequestFails(cache: map<TopicSeq, Bytes>, key: TopicSeq, k: nat)
    requires k < 10
    ensures ReadResponse(Respond(cache, RequestBytes(key)[1..][..k])) == Failed
  {
  }

  /** Pull `i` is one of the three that are made at most, and the first hit. */
  ghost predicate FirstHitAt(pulls: seq<Pull>, i: nat) {
    i < |pulls| && i < 3 && pulls[i].Hit? && forall k | 0 <= k < i :: !pulls[k].Hit?
  }

  /** What the peers asked for a number answer, from their caches. */
  ghost function PullsFrom(caches: seq<map<TopicSeq, Bytes>>, key: TopicSeq): seq<Pull> {
    seq(|caches|, i requires 0 <= i < |caches| => ReadResponse(Respond(caches[i], RequestBytes(key)[1..])))
  }

  /** Over the wire, the first hit is the first of the three caches that has the
      number, with the payload it has cached. */
  lemma PullsAreLookups(caches: seq<map<TopicSeq, Bytes>>, key: TopicSeq, i: nat)
    ensures FirstHitAt(PullsFrom(caches, key), i) <==>
            i < |caches| && i < 3 && key in caches[i] && forall k | 0 <= k < i :: key !in caches[k]
    ensures FirstHitAt(PullsFrom(caches, key), i) ==> PullsFrom(caches, key)[i].payload == caches[i][key]
  {
    var pulls := PullsFrom(caches, key);
    forall k | 0 <= k < |caches| ensures pulls[k] == if key in caches[k] then Hit(caches[k][key]) else Miss {
      PullIsLookup(caches[k], key);
    }
  }

  /** Some pull is the first hit exactly when one of the three is a hit: exactly
      when one of the first three peers has the number cached. */
  lemma FoundIffCached(caches: seq<map<TopicSeq, Bytes>>, key: TopicSeq)
    ensures (exists i: nat :: FirstHitAt(PullsFrom(caches, key), i)) <==> exists i :: 0 <= i < |caches| && i < 3 && key in caches[i]
  {
    if i :| 0 <= i < |caches| && i < 3 && key in caches[i] {
      var j := LeastCached(caches, key, i);
      PullsAreLookups(caches, key, j);
    }
    forall i: nat | FirstHitAt(PullsFrom(caches, key), i) ensures i < |caches| && i < 3 && key in caches[i] {
      PullsAreLookups(caches, key, i);
    }
  }

  lemma {:induction false} LeastCached(caches: seq<map<TopicSeq, Bytes>>, key: TopicSeq, i: nat) returns (j: nat)
    requires i < |caches| && key in caches[i]
    ensures j <= i && key in caches[j] && forall k | 0 <= k < j :: key !in caches[k]
  {
    j := i;
    if k :| 0 <= k < i && key in caches[k] { j := LeastCached(caches, key, k); }
  }

  class Manager {
    const applier: Applier
    var cache: map<TopicSeq, Bytes>

    ghost predicate Valid()
      reads this
    {
      |cache| <= MAX_REPAIR_CACHE
    }

    constructor (applier: Applier)
      ensures Valid() && this.applier == applier && cache == map[]
    {
      this.applier := applier;
      cache := map[];
    }

    /** The entry is cached; a full cache first gives up one arbitrary entry,
        and nothing else changes. */
    method CacheEntry(e: Entry) returns (ghost gone: seq<TopicSeq>)
      requires Valid()
      modifies this`cache
      ensures Valid()
      ensures |gone| == (if |old(cache)| == MAX_REPAIR_CACHE then 1 else 0) && forall k <- gone :: k in old(cache)
      ensures cache == (if gone == [] then old(cache) else old(cache) - {gone[0]})[TopicSeq(e.topic, e.seqno) := e.payload]
    {
      gone := [];
      if |cache| >= MAX_REPAIR_CACHE {
        assert |cache.Keys| > 0;
        var k :| k in cache.Keys;
        gone := [k];
        assert (cache - {k}).Keys == cache.Keys - {k};
        cache := cache - {k};
      }
      var key := TopicSeq(e.topic, e.seqno);
      assert cache[key := e.payload].Keys == cache.Keys + {key};
      cache := cache[key := e.payload];
    }

    /** Asks up to three peers in turn; the first hit goes to the applier. */
    method RequestRepair(topic: Topic, missing: Seq, pulls: seq<Pull>) returns (found: bool)
      requires applier.Valid()
      modifies applier`delivered, applier.nextSeq, applier.pending, applier.gapTimers, applier.timers
      ensures applier.Valid()
      ensures found <==> exists i :: 0 <= i < |pulls| && i < 3 && pulls[i].Hit?
      ensures found <==> exists i: nat :: FirstHitAt(pulls, i)
      ensures forall i: nat | FirstHitAt(pulls, i) ::
                var eff := OrderedSlot.Receive(old(applier.SlotAt(topic)), applier.maxGapBuffer, missing, pulls[i].payload);
                applier.SlotAt(topic) == eff.slot && applier.delivered == old(applier.delivered) + Tag(topic, eff.out)
      ensures !found ==> applier.SlotAt(topic) == old(applier.SlotAt(topic)) && applier.delivered == old(applier.delivered)
      ensures forall t: Topic | t != topic :: applier.SlotAt(t) == old(applier.SlotAt(t))
    {
      var asked := if |pulls| < 3 then |pulls| else 3;
      for i := 0 to asked
        invariant forall k | 0 <= k < i :: !pulls[k].Hit?
        invariant applier.delivered == old(applier.delivered)
        invariant forall t: Topic :: applier.SlotAt(t) == old(applier.SlotAt(t))
      {
        if pulls[i].Hit? {
          assert FirstHitAt(pulls, i) && forall j: nat | FirstHitAt(pulls, j) :: j == i;
          applier.Receive(topic, missing, pulls[i].payload);
          return true;
        }
      }
      return false;
    }
  }
}
