/** The eager/lazy split of an RTT-sorted peer list: capping it, choosing the
    eager peers, and the guarantees of the two steps together.
 */
module OverlayRules {
  import opened Flags
  import opened RTTClusters

  datatype OverlayConfig = OverlayConfig(minEager: int, maxEager: int, minLazy: int, maxLazy: int)

  predicate Positive(c: OverlayConfig) {
    c.minEager > 0 && c.maxEager > 0 && c.minLazy > 0 && c.maxLazy > 0
  }

  type Config = c: OverlayConfig | Positive(c) witness OverlayConfig(4, 8, 2, 6)

  /** Settings that are not positive are replaced by defaults. */
  function WithDefaults(c: OverlayConfig): Config {
    OverlayConfig(
      if c.minEager <= 0 then 4 else c.minEager,
      if c.maxEager <= 0 then 8 else c.maxEager,
      if c.minLazy <= 0 then 2 else c.minLazy,
      if c.maxLazy <= 0 then 6 else c.maxLazy)
  }

  function Max(a: int, b: int): int {
    if a < b then b else a
  }

  function Prefix(n: nat, m: nat): seq<bool> {
    seq(n, i => i < m)
  }

  // ----- Capping -----

  function CapFlags(ps: seq<Peer>, total: nat): seq<bool> {
    if |ps| <= total then Prefix(|ps|, |ps|)
    else if |Starts(ps)| <= 1 then Prefix(|ps|, total)
    else Pick(ps, total)
  }

  /** Capping keeps exactly as many peers as allowed, in RTT order, the nearest
      always among them; the first peer of every cluster too if they fit. */
  lemma CapFacts(ps: seq<Peer>, total: nat)
    requires total > 0
    ensures |CapFlags(ps, total)| == |ps| && PrefixOrStart(ps, CapFlags(ps, total))
    ensures Count(CapFlags(ps, total)) == Min(|ps|, total)
    ensures ps != [] ==> CapFlags(ps, total)[0]
    ensures total >= |Starts(ps)| ==> AllStartsPicked(ps, CapFlags(ps, total))
  {
    if |ps| <= total {
      CountPrefix(Prefix(|ps|, |ps|), |ps|);
    } else if |Starts(ps)| <= 1 {
      CountPrefix(Prefix(|ps|, total), total);
      forall i | 0 <= i < |ps| && Boundary(ps, i) ensures CapFlags(ps, total)[i] { OnlyStart(ps, i); }
    } else {
      PickFacts(ps, total);
    }
  }

  /** A single cluster starts at the first position only. */
  lemma OnlyStart(ps: seq<Peer>, i: nat)
    requires |Starts(ps)| <= 1 && i < |ps| && Boundary(ps, i)
    ensures i == 0
  {
    assert Boundaries(ps)[i] && Boundaries(ps)[0];
    var j := PositionOf(Boundaries(ps), i);
    var k := PositionOf(Boundaries(ps), 0);
  }

  /** Capping by selection is the same as cutting when there is one cluster. */
  lemma {:induction false} SelectPrefix<T>(xs: seq<T>, m: nat)
    requires m <= |xs|
    ensures Select(xs, Prefix(|xs|, m)) == xs[..m]
    decreases |xs|
  {
    if xs != [] {
      var n := |xs| - 1;
      assert Prefix(|xs|, m)[..n] == Prefix(n, Min(m, n));
      assert Prefix(n, m) == Prefix(n, Min(m, n));
      SelectPrefix(xs[..n], Min(m, n));
      if m == |xs| { assert xs[..m] == xs[..n] + [xs[n]]; } else { assert xs[..n][..m] == xs[..m]; }
    }
  }

  // ----- One cluster: split at the widest gap -----

  function Gap(ps: seq<Peer>, i: nat): int
    requires 0 < i < |ps|
  {
    ps[i].rtt - ps[i - 1].rtt
  }

  datatype Widest = Widest(gap: int, idx: int)

  /** The widest gap at the positions `[lo, hi)`, the first of several. */
  function WidestGap(ps: seq<Peer>, lo: nat, hi: int, other: int): Widest
    requires 0 < lo && hi <= |ps|
    decreases hi
  {
    if hi <= lo then Widest(0, other)
    else
      var w := WidestGap(ps, lo, hi - 1, other);
      if Gap(ps, hi - 1) > w.gap then Widest(Gap(ps, hi - 1), hi - 1) else w
  }

  lemma {:induction false} WidestGapFacts(ps: seq<Peer>, lo: nat, hi: int, other: int)
    requires 0 < lo && hi <= |ps|
    ensures var w := WidestGap(ps, lo, hi, other);
            && w.gap >= 0
            && (forall i | lo <= i < hi :: Gap(ps, i) <= w.gap)
            && (w.gap > 0 ==> lo <= w.idx < hi && Gap(ps, w.idx) == w.gap && forall i | lo <= i < w.idx :: Gap(ps, i) < w.gap)
    decreases hi
  {
    if hi > lo { WidestGapFacts(ps, lo, hi - 1, other); }
  }

  function RTTGap(c: Config, ps: seq<Peer>): int {
    if |ps| <= c.minEager + c.minLazy then Min(c.minEager, |ps|)
    else
      var w := WidestGap(ps, c.minEager, |ps| - c.minLazy, c.minEager);
      if w.gap < RTT_GAP then (if |ps| <= c.maxEager then |ps| else c.maxEager) else w.idx
  }

  /** How many peers a single cluster makes eager. */
  function SplitAt(c: Config, ps: seq<Peer>): (k: nat)
    ensures k <= |ps|
    ensures ps != [] ==> k > 0
  {
    var n := |ps|;
    var g := Min(Min(Max(RTTGap(c, ps), c.minEager), c.maxEager), n);
    var h := if n - g < c.minLazy && n > c.minEager + c.minLazy then n - c.minLazy else g;
    Max(h, 0)
  }

  // ----- Eager peers -----

  /** The eager slots when peers of several clusters compete for them. */
  function Budget(c: Config, n: nat): nat {
    Max(Min(c.maxEager, n - c.minLazy), 0)
  }

  function EagerFlags(c: Config, ps: seq<Peer>): seq<bool> {
    if |Starts(ps)| <= 1 then Prefix(|ps|, SplitAt(c, ps)) else Pick(ps, Budget(c, |ps|))
  }

  lemma EagerFlagsCount(c: Config, ps: seq<Peer>)
    ensures |EagerFlags(c, ps)| == |ps|
    ensures Count(EagerFlags(c, ps)) == if |Starts(ps)| <= 1 then SplitAt(c, ps) else Budget(c, |ps|)
  {
    if |Starts(ps)| <= 1 {
      CountPrefix(EagerFlags(c, ps), SplitAt(c, ps));
    } else {
      PickFacts(ps, Budget(c, |ps|));
    }
  }

  /** Two neighbours exactly at the threshold: too close for two clusters, far
      enough for a split. */
  ghost predicate ThresholdGapBelow(ps: seq<Peer>, lo: nat, hi: int) {
    exists i :: 0 < i < |ps| && lo <= i < hi && Gap(ps, i) == RTT_GAP
  }

  /** In a single cluster of more than minEager + minLazy peers, the number of
      eager peers is min(maxEager, n - minLazy) exactly when no two neighbours
      below that position are exactly at the threshold. */
  lemma SplitIff(c: Config, ps: seq<Peer>)
    requires c.minEager <= c.maxEager && |ps| > c.minEager + c.minLazy && |Starts(ps)| <= 1
    ensures var t := Min(c.maxEager, |ps| - c.minLazy);
            SplitAt(c, ps) == t <==> !ThresholdGapBelow(ps, c.minEager, t)
  {
    var n := |ps|;
    var hi := n - c.minLazy;
    var w := WidestGap(ps, c.minEager, hi, c.minEager);
    WidestGapFacts(ps, c.minEager, hi, c.minEager);
    SingleClusterGaps(ps);
    if w.gap >= RTT_GAP {
      assert Gap(ps, w.idx) == RTT_GAP;
    }
  }

  /** The eager count does not depend on the cluster shape: it is
      min(maxEager, n - minLazy) for several clusters always, and for a single
      one unless neighbours sit exactly at the threshold. */
  lemma EagerCountClosedForm(c: Config, ps: seq<Peer>)
    requires c.minEager <= c.maxEager && |ps| > c.minEager + c.minLazy
    ensures var t := Min(c.maxEager, |ps| - c.minLazy);
            Count(EagerFlags(c, ps)) == t <==> |Starts(ps)| > 1 || !ThresholdGapBelow(ps, c.minEager, t)
  {
    EagerFlagsCount(c, ps);
    if |Starts(ps)| <= 1 { SplitIff(c, ps); }
  }

  /** `i` is the first position in `[lo, hi)` with a gap at the threshold. */
  ghost predicate FirstThresholdGap(ps: seq<Peer>, lo: nat, hi: int, i: nat)
    requires lo > 0
  {
    i < |ps| && lo <= i < hi && Gap(ps, i) == RTT_GAP && forall k | lo <= k < i :: Gap(ps, k) < RTT_GAP
  }

  /** The eager count of a single cluster, for every size and configuration: few
      peers give the minimum; else the first gap at the threshold splits, cut at
      the maximum; without one the count is as large as maximum and minLazy let
      it be. */
  lemma SplitExactly(c: Config, ps: seq<Peer>)
    requires |Starts(ps)| <= 1
    ensures |ps| <= c.minEager + c.minLazy ==> SplitAt(c, ps) == Min(Min(c.minEager, c.maxEager), |ps|)
    ensures |ps| > c.minEager + c.minLazy && !ThresholdGapBelow(ps, c.minEager, |ps| - c.minLazy) ==>
              SplitAt(c, ps) == Min(c.maxEager, |ps| - c.minLazy)
    ensures forall i: nat | |ps| > c.minEager + c.minLazy && FirstThresholdGap(ps, c.minEager, |ps| - c.minLazy, i) ::
              SplitAt(c, ps) == Min(i, c.maxEager)
  {
    if |ps| > c.minEager + c.minLazy {
      var hi := |ps| - c.minLazy;
      var w := WidestGap(ps, c.minEager, hi, c.minEager);
      WidestGapFacts(ps, c.minEager, hi, c.minEager);
      SingleClusterGaps(ps);
      if w.gap >= RTT_GAP {
        assert FirstThresholdGap(ps, c.minEager, hi, w.idx);
        assert forall i: nat | FirstThresholdGap(ps, c.minEager, hi, i) :: i == w.idx;
      }
    }
  }

  lemma SingleClusterGaps(ps: seq<Peer>)
    requires |Starts(ps)| <= 1
    ensures forall i | 0 < i < |ps| :: Gap(ps, i) <= RTT_GAP
  {
    forall i | 0 < i < |ps|
      ensures Gap(ps, i) <= RTT_GAP
    {
      if Boundary(ps, i) { OnlyStart(ps, i); }
    }
  }

  /** Beside it, the lazy count: everybody else, max(n - maxEager, minLazy) under
      the very same condition. */
  lemma LazyCountClosedForm(c: Config, ps: seq<Peer>)
    requires c.minEager <= c.maxEager && |ps| > c.minEager + c.minLazy
    ensures |EagerFlags(c, ps)| == |ps| && Count(Negate(EagerFlags(c, ps))) == |ps| - Count(EagerFlags(c, ps))
    ensures Count(Negate(EagerFlags(c, ps))) == Max(|ps| - c.maxEager, c.minLazy) <==>
            |Starts(ps)| > 1 || !ThresholdGapBelow(ps, c.minEager, Min(c.maxEager, |ps| - c.minLazy))
  {
    EagerFlagsCount(c, ps);
    EagerCountClosedForm(c, ps);
    SelectSides(ps, EagerFlags(c, ps));
  }

  /** Who is eager: behind a peer that is not, only first peers of clusters are,
      so within one cluster the eager peers are the nearest ones. */
  lemma EagerAreNearest(c: Config, ps: seq<Peer>, i: nat, j: nat)
    requires i < j < |ps|
    ensures |EagerFlags(c, ps)| == |ps|
    ensures EagerFlags(c, ps)[j] && !EagerFlags(c, ps)[i] ==> |Starts(ps)| > 1 && Boundary(ps, j)
  {
    EagerFlagsCount(c, ps);
    if |Starts(ps)| > 1 { PickFacts(ps, Budget(c, |ps|)); }
  }

  // ----- Both steps together -----

  function Total(c: Config): nat {
    c.maxEager + c.maxLazy
  }

  function Capped(c: Config, ps: seq<Peer>): seq<Peer>
    requires |CapFlags(ps, Total(c))| == |ps|
  {
    Select(ps, CapFlags(ps, Total(c)))
  }

  /** Which peers of the sorted list end up eager. */
  ghost function Chosen(c: Config, ps: seq<Peer>): seq<bool> {
    CapFacts(ps, Total(c));
    EagerFlagsCount(c, Capped(c, ps));
    Compose(CapFlags(ps, Total(c)), EagerFlags(c, Capped(c, ps)))
  }

  /** The nearest peer of every cluster is eager. */
  ghost predicate NearestOfEveryClusterEager(c: Config, ps: seq<Peer>) {
    |Chosen(c, ps)| == |ps| && AllStartsPicked(ps, Chosen(c, ps))
  }

  lemma ChosenLength(c: Config, ps: seq<Peer>)
    ensures |Chosen(c, ps)| == |ps|
  {
    CapFacts(ps, Total(c));
    EagerFlagsCount(c, Capped(c, ps));
  }

  /** A position that capping keeps and the eager choice takes is chosen. */
  lemma ChosenAt(c: Config, ps: seq<Peer>, i: nat) returns (j: nat)
    requires i < |ps| && |CapFlags(ps, Total(c))| == |ps| && CapFlags(ps, Total(c))[i]
    ensures j < |Capped(c, ps)| == |EagerFlags(c, Capped(c, ps))|
    ensures Positions(CapFlags(ps, Total(c)))[j] == i
    ensures |Chosen(c, ps)| == |ps| && Chosen(c, ps)[i] == EagerFlags(c, Capped(c, ps))[j]
  {
    CapFacts(ps, Total(c));
    var kept := CapFlags(ps, Total(c));
    EagerFlagsCount(c, Capped(c, ps));
    ChosenLength(c, ps);
    j := PositionOf(kept, i);
    ComposeAt(kept, EagerFlags(c, Capped(c, ps)), j);
  }

  lemma WithinBudgetAllEager(c: Config, ps: seq<Peer>)
    requires SortedByRTT(ps) && ps != [] && |CapFlags(ps, Total(c))| == |ps|
    requires |Starts(ps)| <= 1 || |Starts(ps)| <= Budget(c, |Capped(c, ps)|)
    ensures NearestOfEveryClusterEager(c, ps)
  {
    var kept, qs := CapFlags(ps, Total(c)), Capped(c, ps);
    CapFacts(ps, Total(c));
    ClustersOfPicked(ps, kept);
    assert |Starts(qs)| == |Starts(ps)|;
    ChosenLength(c, ps);
    EagerFlagsCount(c, qs);
    forall i | 0 <= i < |ps| && Boundary(ps, i)
      ensures Chosen(c, ps)[i]
    {
      var j := ChosenAt(c, ps, i);
      BoundaryOfPicked(ps, kept, j);
      BoundaryIsEager(c, qs, j);
    }
  }

  lemma BoundaryIsEager(c: Config, qs: seq<Peer>, j: nat)
    requires j < |qs| && Boundary(qs, j)
    requires |Starts(qs)| <= 1 || |Starts(qs)| <= Budget(c, |qs|)
    ensures |EagerFlags(c, qs)| == |qs| && EagerFlags(c, qs)[j]
  {
    EagerFlagsCount(c, qs);
    if |Starts(qs)| <= 1 {
      OnlyStart(qs, j);
    } else {
      PickFacts(qs, Budget(c, |qs|));
    }
  }

  /** Region diversity, exactly: some peer of every RTT cluster of the sorted
      list is eager after capping and choosing if and only if there is a single
      cluster or there are no more clusters than eager slots; and then the
      nearest peer of every cluster is. */
  lemma RegionDiversity(c: Config, ps: seq<Peer>)
    requires SortedByRTT(ps) && ps != []
    ensures |CapFlags(ps, Total(c))| == |ps| && |Chosen(c, ps)| == |ps|
    ensures EveryClusterHas(ps, Chosen(c, ps)) <==>
            |Starts(ps)| <= 1 || |Starts(ps)| <= Min(c.maxEager, |Capped(c, ps)| - c.minLazy)
    ensures EveryClusterHas(ps, Chosen(c, ps)) <==> NearestOfEveryClusterEager(c, ps)
  {
    CapFacts(ps, Total(c));
    ChosenLength(c, ps);
    if |Starts(ps)| <= 1 || |Starts(ps)| <= Budget(c, |Capped(c, ps)|) {
      WithinBudgetAllEager(c, ps);
      NearestImpliesEvery(ps, Chosen(c, ps));
    } else if EveryClusterHas(ps, Chosen(c, ps)) {
      RepresentationNeeds(ps, Chosen(c, ps));
      ChosenCount(c, ps);
    } else if NearestOfEveryClusterEager(c, ps) {
      NearestImpliesEvery(ps, Chosen(c, ps));
    }
  }

  lemma NearestImpliesEvery(ps: seq<Peer>, flags: seq<bool>)
    requires |flags| == |ps| && AllStartsPicked(ps, flags)
    ensures EveryClusterHas(ps, flags)
  {
    forall k | 0 <= k < |Starts(ps)|
      ensures Represented(ps, flags, k)
    {
      StartsFacts(ps, k);
    }
  }

  /** With several clusters, exactly the budget of peers becomes eager. */
  lemma ChosenCount(c: Config, ps: seq<Peer>)
    requires SortedByRTT(ps) && |Starts(ps)| > 1 && |CapFlags(ps, Total(c))| == |ps|
    ensures Count(Chosen(c, ps)) == Budget(c, |Capped(c, ps)|)
  {
    CapFacts(ps, Total(c));
    var qs := Capped(c, ps);
    if |ps| <= Total(c) {
      SelectPrefix(ps, |ps|);
      assert ps[..|ps|] == ps;
    } else {
      PickedStaysClustered(ps, Total(c));
    }
    EagerFlagsCount(c, qs);
  }

  /** The whole fan-out: with as many other nodes as slots or more, the node gets
      exactly maxEager eager and maxLazy lazy peers, unless the kept ones form a
      single cluster with neighbours exactly at the threshold. */
  lemma FullFanOut(c: Config, ps: seq<Peer>)
    requires c.minEager <= c.maxEager && c.minLazy <= c.maxLazy && |ps| >= Total(c)
    ensures |CapFlags(ps, Total(c))| == |ps|
    ensures var qs := Capped(c, ps);
            && |qs| == Total(c) && |EagerFlags(c, qs)| == |qs|
            && (Count(EagerFlags(c, qs)) == c.maxEager && Count(Negate(EagerFlags(c, qs))) == c.maxLazy <==>
                |Starts(qs)| > 1 || !ThresholdGapBelow(qs, c.minEager, c.maxEager))
  {
    CapFacts(ps, Total(c));
    var qs := Capped(c, ps);
    EagerFlagsCount(c, qs);
    SelectSides(qs, EagerFlags(c, qs));
    if |qs| > c.minEager + c.minLazy {
      EagerCountClosedForm(c, qs);
    } else if |Starts(qs)| <= 1 {
      SplitExactly(c, qs);
    }
  }

  /** Settings that are given are kept; with none given, that makes 8 eager and
      6 lazy peers. */
  lemma DefaultFanOut(given: OverlayConfig, ps: seq<Peer>)
    requires |ps| >= 14
    ensures Positive(given) ==> WithDefaults(given) == given
    ensures var c := WithDefaults(OverlayConfig(0, 0, 0, 0));
            && |CapFlags(ps, Total(c))| == |ps| && |EagerFlags(c, Capped(c, ps))| == 14
            && (Count(EagerFlags(c, Capped(c, ps))) == 8 && Count(Negate(EagerFlags(c, Capped(c, ps)))) == 6 <==>
                |Starts(Capped(c, ps))| > 1 || !ThresholdGapBelow(Capped(c, ps), 4, 8))
  {
    FullFanOut(WithDefaults(OverlayConfig(0, 0, 0, 0)), ps);
  }

  // ----- Where the promises fail -----

  /** A single cluster of three peers with a gap of exactly the threshold: one
      eager peer although two fit. */
  lemma ThresholdExample(a: Peer, b: Peer, d: Peer)
    requires a.rtt == 0 && b.rtt == RTT_GAP && d.rtt == RTT_GAP
    ensures var c: Config := OverlayConfig(1, 2, 1, 1);
            |Starts([a, b, d])| <= 1 && Count(EagerFlags(c, [a, b, d])) < Min(c.maxEager, 3 - c.minLazy)
  {
    var c: Config := OverlayConfig(1, 2, 1, 1);
    var ps := [a, b, d];
    CountPrefix(Boundaries(ps), 1);
    EagerFlagsCount(c, ps);
    assert WidestGap(ps, 1, 1, 1) == Widest(0, 1);
    assert WidestGap(ps, 1, 2, 1) == Widest(RTT_GAP, 1);
  }

  /** Two peers far apart, one eager slot: one of the two clusters has no eager
      peer. */
  lemma DiversityExample(a: Peer, b: Peer)
    requires a.rtt + RTT_GAP < b.rtt
    ensures var c: Config := OverlayConfig(1, 1, 1, 1);
            |Chosen(c, [a, b])| == 2 && !EveryClusterHas([a, b], Chosen(c, [a, b]))
  {
    var c: Config := OverlayConfig(1, 1, 1, 1);
    var ps := [a, b];
    CountPrefix(Boundaries(ps), 2);
    RegionDiversity(c, ps);
    CapFacts(ps, Total(c));
  }
}
