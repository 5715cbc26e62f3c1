/** The overlay object: it reclassifies peers on every membership or RTT change,
    with the loops and boolean tables of the selection functions.
 */
module Overlay {
  import opened Flags
  import opened Sampling
  import opened RTTClusters
  import opened OverlayRules

  /** A classified peer. */
  datatype OverlayPeer = OverlayPeer(peer: Peer, isEager: bool)

  function Range(a: nat, b: nat): seq<nat>
    requires a <= b
  {
    seq(b - a, k requires 0 <= k < b - a => a + k)
  }

  /** `clusters` lists the positions of each cluster of `ps`, in order. */
  ghost predicate Clustering(ps: seq<Peer>, clusters: seq<seq<nat>>) {
    && |clusters| == |Starts(ps)|
    && forall c | 0 <= c < |clusters| ::
         StartOf(ps, c) <= StartOf(ps, c + 1) && clusters[c] == Range(StartOf(ps, c), StartOf(ps, c + 1))
  }

  lemma StartsOfPrefix(ps: seq<Peer>, i: nat)
    requires i < |ps|
    ensures Starts(ps[..i + 1]) == Starts(ps[..i]) + if Boundary(ps, i) then [i] else []
  {
    assert Boundaries(ps[..i + 1])[..i] == Boundaries(ps[..i]);
  }

  lemma ClusteringGrows(ps: seq<Peer>, i: nat, clusters: seq<seq<nat>>)
    requires 0 < i < |ps| && Clustering(ps[..i], clusters) && clusters != []
    ensures Clustering(ps[..i + 1],
                       if Boundary(ps, i) then clusters + [[i]]
                       else clusters[|clusters| - 1 := clusters[|clusters| - 1] + [i]])
  {
    StartsOfPrefix(ps, i);
    var before, after, last := ps[..i], ps[..i + 1], |clusters| - 1;
    assert StartOf(before, last + 1) == i;
    assert forall c | 0 <= c <= last :: StartOf(after, c) == StartOf(before, c);
    StartsFacts(before, last);
    if Boundary(ps, i) {
      assert StartOf(after, last + 1) == i && StartOf(after, last + 2) == i + 1;
      assert Range(i, i + 1) == [i];
    } else {
      assert StartOf(after, last + 1) == i + 1;
      assert Range(StartOf(before, last), i) + [i] == Range(StartOf(before, last), i + 1);
    }
  }

  method FindRTTClusters(ps: seq<Peer>) returns (clusters: seq<seq<nat>>)
    ensures Clustering(ps, clusters)
    ensures forall c | 0 <= c < |clusters| :: clusters[c] != [] && clusters[c][0] == Starts(ps)[c]
  {
    if |ps| == 0 {
      assert Boundaries(ps) == [];
      return [];
    }
    clusters := [[0]];
    assert Clustering(ps[..1], clusters) by {
      StartsOfPrefix(ps, 0);
      assert Boundaries(ps[..0]) == [];
      assert Range(0, 1) == [0];
    }
    for i := 1 to |ps|
      invariant Clustering(ps[..i], clusters) && clusters != []
    {
      ClusteringGrows(ps, i, clusters);
      if ps[i].rtt - ps[i - 1].rtt > RTT_GAP {
        clusters := clusters + [[i]];
      } else {
        var last := |clusters| - 1;
        clusters := clusters[last := clusters[last] + [i]];
      }
    }
    assert ps[..|ps|] == ps;
    forall c | 0 <= c < |clusters|
      ensures clusters[c] != [] && clusters[c][0] == Starts(ps)[c]
    {
      StartsFacts(ps, c);
    }
  }

  /** One slot per sampled cluster. */
  method ReserveSlots(ps: seq<Peer>, clusters: seq<seq<nat>>, reserved: nat) returns (selected: array<bool>)
    requires reserved <= |clusters| == |Starts(ps)|
    requires forall c | 0 <= c < |clusters| :: clusters[c] != [] && clusters[c][0] == Starts(ps)[c]
    ensures fresh(selected) && selected[..] == Mark(SampledStarts(ps, reserved), |ps|)
  {
    selected := new bool[|ps|](_ => false);
    ghost var idx := SampledStarts(ps, reserved);
    for i := 0 to reserved
      invariant selected.Length == |ps|
      invariant forall k | 0 <= k < |ps| :: selected[k] <==> k in idx[..i]
    {
      SampleInRange(|clusters|, reserved, i);
      var ci := i * |clusters| / reserved;
      assert clusters[ci][0] == idx[i] by { assert ci == Sample(|clusters|, reserved, i); }
      selected[clusters[ci][0]] := true;
      assert idx[..i + 1] == idx[..i] + [idx[i]];
    }
    assert idx[..reserved] == idx;
  }

  lemma FillStep(done: seq<bool>, rest: seq<bool>, left: nat)
    requires rest != [] && left > 0
    ensures done + Fill(rest, left) == (done + [true]) + Fill(rest[1..], if rest[0] then left else left - 1)
  {
  }

  /** The remaining slots go to the nearest peers. */
  method FillSlots(selected: array<bool>, need: nat)
    modifies selected
    ensures selected[..] == Fill(old(selected[..]), need)
  {
    ghost var marked := selected[..];
    var i, left := 0, need;
    while i < selected.Length && left > 0
      invariant 0 <= i <= selected.Length && selected[i..] == marked[i..]
      invariant Fill(marked, need) == selected[..i] + Fill(marked[i..], left)
    {
      ghost var before, rest := selected[..i], marked[i..];
      assert rest[0] == selected[i] by { assert selected[i..][0] == selected[i]; }
      assert rest[1..] == marked[i + 1..];
      FillStep(before, rest, left);
      if !selected[i] {
        selected[i] := true;
        left := left - 1;
      }
      assert selected[..i + 1] == before + [true];
      i := i + 1;
    }
    assert selected[..] == selected[..i] + selected[i..];
  }

  /** The two loops that capping and eager choice share. */
  method PickPerCluster(ps: seq<Peer>, clusters: seq<seq<nat>>, budget: nat) returns (picked: seq<bool>)
    requires |clusters| == |Starts(ps)|
    requires forall c | 0 <= c < |clusters| :: clusters[c] != [] && clusters[c][0] == Starts(ps)[c]
    ensures picked == Pick(ps, budget)
  {
    var reserved := if budget > |clusters| then |clusters| else budget;
    var selected := ReserveSlots(ps, clusters, reserved);
    FillSlots(selected, budget - reserved);
    picked := selected[..];
  }

  /** The peers whose flags are set, in order. */
  method Gather(ps: seq<Peer>, flags: seq<bool>) returns (out: seq<Peer>)
    requires |ps| == |flags|
    ensures out == Select(ps, flags)
  {
    out := [];
    for i := 0 to |ps|
      invariant out == Select(ps[..i], flags[..i])
    {
      assert ps[..i + 1][..i] == ps[..i] && flags[..i + 1][..i] == flags[..i];
      if flags[i] { out := out + [ps[i]]; }
    }
    assert ps[..|ps|] == ps && flags[..|ps|] == flags;
  }

  method SelectDiversePeers(ps: seq<Peer>, total: nat) returns (out: seq<Peer>)
    requires 0 < total < |ps|
    ensures |CapFlags(ps, total)| == |ps| && out == Select(ps, CapFlags(ps, total))
    ensures |out| == total
  {
    CapFacts(ps, total);
    var clusters := FindRTTClusters(ps);
    if |clusters| <= 1 {
      SelectPrefix(ps, total);
      return ps[..total];
    }
    var selected := PickPerCluster(ps, clusters, total);
    out := Gather(ps, selected);
  }

  method FindRTTGap(c: Config, ps: seq<Peer>) returns (g: int)
    ensures g == RTTGap(c, ps)
  {
    if |ps| <= c.minEager + c.minLazy {
      return if c.minEager < |ps| then c.minEager else |ps|;
    }
    var maxGap, gapIdx := 0, c.minEager;
    var hi := |ps| - c.minLazy;
    for i := c.minEager to hi
      invariant Widest(maxGap, gapIdx) == WidestGap(ps, c.minEager, i, c.minEager)
    {
      var gap := ps[i].rtt - ps[i - 1].rtt;
      if gap > maxGap { maxGap, gapIdx := gap, i; }
    }
    if maxGap < RTT_GAP {
      return if |ps| <= c.maxEager then |ps| else c.maxEager;
    }
    return gapIdx;
  }

  method SelectEager(c: Config, ps: seq<Peer>) returns (flags: seq<bool>)
    ensures flags == EagerFlags(c, ps)
    ensures |flags| == |ps|
  {
    EagerFlagsCount(c, ps);
    var clusters := FindRTTClusters(ps);
    if |clusters| <= 1 {
      var gapIdx := FindRTTGap(c, ps);
      if gapIdx < c.minEager { gapIdx := c.minEager; }
      if gapIdx > c.maxEager { gapIdx := c.maxEager; }
      if gapIdx > |ps| { gapIdx := |ps|; }
      if |ps| - gapIdx < c.minLazy && |ps| > c.minEager + c.minLazy { gapIdx := |ps| - c.minLazy; }
      if gapIdx < 0 { gapIdx := 0; }
      var isEager := new bool[|ps|](_ => false);
      for i := 0 to gapIdx
        invariant gapIdx <= |ps|
        invariant forall k | 0 <= k < |ps| :: isEager[k] <==> k < i
      {
        isEager[i] := true;
      }
      assert gapIdx == SplitAt(c, ps);
      return isEager[..];
    }
    var maxEager := c.maxEager;
    if |ps| - c.minLazy < maxEager { maxEager := |ps| - c.minLazy; }
    if maxEager < 0 { maxEager := 0; }
    flags := PickPerCluster(ps, clusters, maxEager);
  }

  // ----- Reclassification -----

  function Others(peers: seq<Peer>, self: string): seq<Peer> {
    if peers == [] then []
    else
      var front, p := Others(peers[..|peers| - 1], self), peers[|peers| - 1];
      if p.id != self then front + [p] else front
  }

  method InsertByRTT(ps: seq<Peer>, p: Peer) returns (out: seq<Peer>)
    requires SortedByRTT(ps)
    ensures SortedByRTT(out) && multiset(out) == multiset(ps) + multiset{p}
  {
    var k := 0;
    while k < |ps| && ps[k].rtt <= p.rtt
      invariant 0 <= k <= |ps| && forall j | 0 <= j < k :: ps[j].rtt <= p.rtt
    {
      k := k + 1;
    }
    assert ps == ps[..k] + ps[k..];
    out := ps[..k] + [p] + ps[k..];
    SortedInsert(ps, p, k);
  }

  lemma SortedInsert(ps: seq<Peer>, p: Peer, k: nat)
    requires SortedByRTT(ps) && k <= |ps|
    requires (forall j | 0 <= j < k :: ps[j].rtt <= p.rtt) && (k < |ps| ==> p.rtt <= ps[k].rtt)
    ensures SortedByRTT(ps[..k] + [p] + ps[k..])
  {
    var out := ps[..k] + [p] + ps[k..];
    forall i, j | 0 <= i < j < |out|
      ensures out[i].rtt <= out[j].rtt
    {
      assert j > k ==> out[j] == ps[j - 1];
      assert i > k ==> out[i] == ps[i - 1];
      if k < j { assert p.rtt <= ps[k].rtt <= ps[j - 1].rtt; }
    }
  }

  /** Some sorted permutation; equal RTTs may come in any order. */
  method SortByRTT(ps: seq<Peer>) returns (out: seq<Peer>)
    ensures SortedByRTT(out) && multiset(out) == multiset(ps)
  {
    out := [];
    for i := 0 to |ps|
      invariant SortedByRTT(out) && multiset(out) == multiset(ps[..i])
    {
      assert ps[..i + 1] == ps[..i] + [ps[i]];
      out := InsertByRTT(out, ps[i]);
    }
    assert ps[..|ps|] == ps;
  }

  method WithoutSelf(peers: seq<Peer>, self: string) returns (others: seq<Peer>)
    ensures others == Others(peers, self)
  {
    others := [];
    for i := 0 to |peers|
      invariant others == Others(peers[..i], self)
    {
      assert peers[..i + 1][..i] == peers[..i];
      if peers[i].id != self { others := others + [peers[i]]; }
    }
    assert peers[..|peers|] == peers;
  }

  function Classified(ps: seq<Peer>, eager: bool): seq<OverlayPeer> {
    seq(|ps|, i requires 0 <= i < |ps| => OverlayPeer(ps[i], eager))
  }

  function PeersOf(ops: seq<OverlayPeer>): seq<Peer> {
    seq(|ops|, i requires 0 <= i < |ops| => ops[i].peer)
  }

  predicate AllMarked(ops: seq<OverlayPeer>, eager: bool) {
    forall p <- ops :: p.isEager == eager
  }

  /** The two sides together hold every peer, each marked for its side. */
  lemma SidesComplete(ps: seq<Peer>, isEager: seq<bool>)
    requires |ps| == |isEager|
    ensures var eager, lazy := Classified(Select(ps, isEager), true), Classified(Select(ps, Negate(isEager)), false);
            && multiset(PeersOf(eager)) + multiset(PeersOf(lazy)) == multiset(ps)
            && |eager| + |lazy| == |ps| && AllMarked(eager, true) && AllMarked(lazy, false)
  {
    SelectSides(ps, isEager);
    assert PeersOf(Classified(Select(ps, isEager), true)) == Select(ps, isEager);
    assert PeersOf(Classified(Select(ps, Negate(isEager)), false)) == Select(ps, Negate(isEager));
  }

  method Partition(ps: seq<Peer>, isEager: seq<bool>) returns (eager: seq<OverlayPeer>, lazy: seq<OverlayPeer>)
    requires |ps| == |isEager|
    ensures eager == Classified(Select(ps, isEager), true)
    ensures lazy == Classified(Select(ps, Negate(isEager)), false)
    ensures multiset(PeersOf(eager)) + multiset(PeersOf(lazy)) == multiset(ps)
    ensures |eager| + |lazy| == |ps| && AllMarked(eager, true) && AllMarked(lazy, false)
  {
    eager, lazy := [], [];
    for i := 0 to |ps|
      invariant eager == Classified(Select(ps[..i], isEager[..i]), true)
      invariant lazy == Classified(Select(ps[..i], Negate(isEager)[..i]), false)
    {
      assert ps[..i + 1][..i] == ps[..i] && isEager[..i + 1][..i] == isEager[..i];
      assert Negate(isEager)[..i + 1][..i] == Negate(isEager)[..i];
      var op := OverlayPeer(ps[i], isEager[i]);
      if isEager[i] { eager := eager + [op]; } else { lazy := lazy + [op]; }
    }
    assert ps[..|ps|] == ps && isEager[..|ps|] == isEager && Negate(isEager)[..|ps|] == Negate(isEager);
    SidesComplete(ps, isEager);
  }

  class Overlay {
    const cfg: Config
    const self: string
    var eagerPeers: seq<OverlayPeer>
    var lazyPeers: seq<OverlayPeer>

    constructor (self: string, cfg: OverlayConfig)
      ensures this.self == self && this.cfg == WithDefaults(cfg)
      ensures eagerPeers == [] && lazyPeers == []
    {
      this.self, this.cfg := self, WithDefaults(cfg);
      eagerPeers, lazyPeers := [], [];
    }

    /** The eager peers are those that the two selection steps choose from the
        sorted list of the other nodes; the lazy ones are the rest of the capped
        list; both stay in RTT order. */
    method Reclassify(peers: seq<Peer>) returns (ghost sorted: seq<Peer>)
      modifies this
      ensures SortedByRTT(sorted) && multiset(sorted) == multiset(Others(peers, self))
      ensures |CapFlags(sorted, Total(cfg))| == |sorted| == |Chosen(cfg, sorted)|
      ensures eagerPeers == Classified(Select(sorted, Chosen(cfg, sorted)), true)
      ensures var qs := Capped(cfg, sorted);
              |EagerFlags(cfg, qs)| == |qs| && lazyPeers == Classified(Select(qs, Negate(EagerFlags(cfg, qs))), false)
      ensures multiset(PeersOf(eagerPeers)) + multiset(PeersOf(lazyPeers)) == multiset(Capped(cfg, sorted))
      ensures |eagerPeers| + |lazyPeers| == Min(|sorted|, Total(cfg))
      ensures AllMarked(eagerPeers, true) && AllMarked(lazyPeers, false)
    {
      var others := WithoutSelf(peers, self);
      var ps := SortByRTT(others);
      sorted := ps;
      CapFacts(ps, Total(cfg));
      ChosenLength(cfg, ps);
      if |ps| > Total(cfg) {
        ps := SelectDiversePeers(ps, Total(cfg));
      } else {
        SelectPrefix(ps, |ps|);
        assert ps[..|ps|] == ps;
      }
      var isEager := SelectEager(cfg, ps);
      SelectCompose(sorted, CapFlags(sorted, Total(cfg)), isEager);
      eagerPeers, lazyPeers := Partition(ps, isEager);
    }

    /** Up to `n` peers, eager ones first: the targets of a repair. */
    method RandomPeers(n: nat) returns (out: seq<OverlayPeer>)
      ensures out <= eagerPeers + lazyPeers
      ensures |out| == Min(n, |eagerPeers| + |lazyPeers|)
    {
      var all := eagerPeers + lazyPeers;
      if |all| <= n { return all; }
      return all[..n];
    }
  }

  lemma {:induction false} OthersExactly(peers: seq<Peer>, self: string, p: Peer)
    ensures multiset(Others(peers, self))[p] == if p.id == self then 0 else multiset(peers)[p]
  {
    if peers != [] {
      var front := peers[..|peers| - 1];
      OthersExactly(front, self, p);
      assert peers == front + [peers[|peers| - 1]];
    }
  }

  /** When the other nodes fit into the slots, each of them is published, as
      often as it is listed, and nobody else is. */
  lemma AllPublishedIfTheyFit(c: Config, peers: seq<Peer>, self: string, sorted: seq<Peer>, p: Peer)
    requires multiset(sorted) == multiset(Others(peers, self)) && |sorted| <= Total(c)
    requires |CapFlags(sorted, Total(c))| == |sorted|
    ensures multiset(Capped(c, sorted))[p] == if p.id == self then 0 else multiset(peers)[p]
  {
    SelectPrefix(sorted, |sorted|);
    assert sorted[..|sorted|] == sorted;
    OthersExactly(peers, self, p);
  }

  /** What reclassification promises about regions, on the published lists: when
      the clusters of the sorted list fit into the eager slots, the nearest peer
      of each is among the eager peers. */
  lemma NearestPeersPublished(c: Config, sorted: seq<Peer>, k: nat)
    requires SortedByRTT(sorted) && k < |Starts(sorted)|
    requires |CapFlags(sorted, Total(c))| == |sorted| == |Chosen(c, sorted)|
    requires |Starts(sorted)| <= 1 || |Starts(sorted)| <= Min(c.maxEager, |Capped(c, sorted)| - c.minLazy)
    ensures StartOf(sorted, k) < |sorted|
    ensures OverlayPeer(sorted[StartOf(sorted, k)], true) in Classified(Select(sorted, Chosen(c, sorted)), true)
  {
    StartsFacts(sorted, k);
    RegionDiversity(c, sorted);
    var i, chosen := StartOf(sorted, k), Chosen(c, sorted);
    var j := PositionOf(chosen, i);
    SelectAt(sorted, chosen, j);
    assert Classified(Select(sorted, chosen), true)[j] == OverlayPeer(sorted[i], true);
  }

  // ----- What the published lists never hold -----

  ghost predicate DistinctIds(ps: seq<Peer>) {
    forall i, j | 0 <= i < j < |ps| :: ps[i].id != ps[j].id
  }

  lemma {:induction false} OthersFacts(peers: seq<Peer>, self: string)
    ensures forall p <- Others(peers, self) :: p in peers && p.id != self
    ensures DistinctIds(peers) ==> DistinctIds(Others(peers, self))
  {
    if peers != [] {
      var front := peers[..|peers| - 1];
      OthersFacts(front, self);
      if DistinctIds(peers) {
        assert forall p <- front :: p.id != peers[|peers| - 1].id;
      }
    }
  }

  /** With different ids, a peer occurs once. */
  lemma {:induction false} OccursOnce(ps: seq<Peer>, p: Peer)
    requires DistinctIds(ps)
    ensures multiset(ps)[p] <= 1
  {
    if ps != [] {
      var front, last := ps[..|ps| - 1], ps[|ps| - 1];
      OccursOnce(front, p);
      assert ps == front + [last];
      if p == last { assert p !in front; }
    }
  }

  lemma TwoOccurrences(ps: seq<Peer>, i: nat, j: nat)
    requires i < j < |ps| && ps[i] == ps[j]
    ensures multiset(ps)[ps[i]] >= 2
  {
    var a, b := ps[..j], ps[j..];
    assert ps == a + b && ps[i] in a && ps[i] in b;
    assert multiset(ps) == multiset(a) + multiset(b);
  }

  lemma PermutationDistinct(ps: seq<Peer>, qs: seq<Peer>)
    requires DistinctIds(ps) && multiset(ps) == multiset(qs)
    ensures DistinctIds(qs)
  {
    forall i, j | 0 <= i < j < |qs| ensures qs[i].id != qs[j].id {
      assert qs[i] in multiset(qs) && qs[j] in multiset(qs);
      assert qs[i] in ps && qs[j] in ps;
      if qs[i] == qs[j] {
        TwoOccurrences(qs, i, j);
        OccursOnce(ps, qs[i]);
        assert false;
      }
    }
  }

  lemma SelectDistinct(ps: seq<Peer>, fs: seq<bool>)
    requires |ps| == |fs| && DistinctIds(ps)
    ensures DistinctIds(Select(ps, fs)) && forall p <- Select(ps, fs) :: p in ps
  {
    forall i, j | 0 <= i < j < Count(fs) ensures Select(ps, fs)[i].id != Select(ps, fs)[j].id {
      SelectAt(ps, fs, i);
      SelectAt(ps, fs, j);
    }
    forall i | 0 <= i < Count(fs) ensures Select(ps, fs)[i] in ps { SelectAt(ps, fs, i); }
  }

  lemma SidesDisjoint(ps: seq<Peer>, fs: seq<bool>, i: nat, j: nat)
    requires |ps| == |fs| && DistinctIds(ps) && i < Count(fs) && j < Count(Negate(fs))
    ensures Select(ps, fs)[i].id != Select(ps, Negate(fs))[j].id
  {
    SelectAt(ps, fs, i);
    SelectAt(ps, Negate(fs), j);
    var a, b := Positions(fs)[i], Positions(Negate(fs))[j];
    assert fs[a] && !fs[b];
    if a < b { assert ps[a].id != ps[b].id; } else { assert ps[b].id != ps[a].id; }
  }

  /** For a peer list without repeated ids, the lists that reclassification publishes
      hold no id twice, none in both, and not the node's own. */
  lemma PublishedOnce(c: Config, peers: seq<Peer>, self: string, sorted: seq<Peer>)
    requires DistinctIds(peers) && multiset(sorted) == multiset(Others(peers, self))
    requires |CapFlags(sorted, Total(c))| == |sorted| == |Chosen(c, sorted)|
    requires |EagerFlags(c, Capped(c, sorted))| == |Capped(c, sorted)|
    ensures var eager, lazy := Select(sorted, Chosen(c, sorted)), Select(Capped(c, sorted), Negate(EagerFlags(c, Capped(c, sorted))));
            && DistinctIds(eager + lazy) && forall p <- eager + lazy :: p.id != self
  {
    var qs := Capped(c, sorted);
    var fs := EagerFlags(c, qs);
    OthersFacts(peers, self);
    PermutationDistinct(Others(peers, self), sorted);
    SelectDistinct(sorted, CapFlags(sorted, Total(c)));
    SelectDistinct(qs, fs);
    SelectDistinct(qs, Negate(fs));
    SelectCompose(sorted, CapFlags(sorted, Total(c)), fs);
    forall i, j | 0 <= i < Count(fs) && 0 <= j < Count(Negate(fs))
      ensures Select(qs, fs)[i].id != Select(qs, Negate(fs))[j].id
    {
      SidesDisjoint(qs, fs, i, j);
    }
    forall p <- sorted ensures p.id != self { assert p in multiset(Others(peers, self)); }
  }
}
