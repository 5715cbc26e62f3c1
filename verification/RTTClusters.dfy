/** Grouping an RTT-sorted peer list into clusters, picking peers so that
    clusters stay represented, and what the clusters of the picked list are.
 */
module RTTClusters {
  import opened Flags
  import opened Sampling

  /** RTTs are in nanoseconds. */
  datatype Peer = Peer(id: string, addr: string, rtt: int)

  const RTT_GAP: int := 5_000_000

  ghost predicate SortedByRTT(ps: seq<Peer>) {
    forall i, j | 0 <= i < j < |ps| :: ps[i].rtt <= ps[j].rtt
  }

  /** A new cluster starts at position `i`. */
  predicate Boundary(ps: seq<Peer>, i: nat)
    requires i < |ps|
  {
    i == 0 || ps[i].rtt - ps[i - 1].rtt > RTT_GAP
  }

  function Boundaries(ps: seq<Peer>): seq<bool> {
    seq(|ps|, i requires 0 <= i < |ps| => Boundary(ps, i))
  }

  /** The first positions of the clusters; one per cluster. */
  function Starts(ps: seq<Peer>): seq<nat> {
    Positions(Boundaries(ps))
  }

  /** Where cluster `c` starts, and where the last one ends. */
  function StartOf(ps: seq<Peer>, c: nat): nat
    requires c <= |Starts(ps)|
  {
    if c < |Starts(ps)| then Starts(ps)[c] else |ps|
  }

  /** Position `i` belongs to cluster `c`. */
  predicate InCluster(ps: seq<Peer>, c: nat, i: nat)
    requires c < |Starts(ps)|
  {
    StartOf(ps, c) <= i < StartOf(ps, c + 1)
  }

  lemma StartsFacts(ps: seq<Peer>, c: nat)
    requires c < |Starts(ps)|
    ensures StartOf(ps, c) < StartOf(ps, c + 1) <= |ps|
    ensures StartOf(ps, c) < |ps| && Boundary(ps, StartOf(ps, c)) && InCluster(ps, c, StartOf(ps, c))
    ensures c == 0 ==> StartOf(ps, c) == 0
  {
    assert Boundaries(ps)[StartOf(ps, c)];
    if c == 0 {
      assert Boundaries(ps)[0];
      var j := PositionOf(Boundaries(ps), 0);
    }
  }

  // ----- Picking -----

  function Min(a: int, b: int): int {
    if a < b then a else b
  }

  /** The first peers of evenly sampled clusters. */
  function SampledStarts(ps: seq<Peer>, r: nat): (idx: seq<nat>)
    requires r <= |Starts(ps)|
    ensures |idx| == r
    ensures Ascending(idx, |ps|)
    ensures forall x <- idx :: x < |ps| && Boundary(ps, x)
    ensures r > 0 ==> idx[0] == 0
    ensures r == |Starts(ps)| ==> idx == Starts(ps)
  {
    var c := |Starts(ps)|;
    SampleStartFacts(ps, r);
    seq(r, i requires 0 <= i < r => Starts(ps)[Sample(c, r, i)])
  }

  lemma SampleStartFacts(ps: seq<Peer>, r: nat)
    requires r <= |Starts(ps)|
    ensures forall i | 0 <= i < r :: Sample(|Starts(ps)|, r, i) < |Starts(ps)|
    ensures forall i, j | 0 <= i < j < r :: Sample(|Starts(ps)|, r, i) < Sample(|Starts(ps)|, r, j)
    ensures r > 0 ==> Sample(|Starts(ps)|, r, 0) == 0 && Starts(ps)[0] == 0
    ensures r == |Starts(ps)| ==> forall i | 0 <= i < r :: Sample(r, r, i) == i
    ensures forall i | 0 <= i < |Starts(ps)| :: Starts(ps)[i] < |ps| && Boundary(ps, Starts(ps)[i])
  {
    var c := |Starts(ps)|;
    if r > 0 {
      var i := EvenSampling(c, r, 0);
      StartsFacts(ps, 0);
    }
    if r == c { forall i | 0 <= i < r ensures Sample(r, r, i) == i { SampleAll(r, i); } }
    forall i | 0 <= i < c ensures Starts(ps)[i] < |ps| && Boundary(ps, Starts(ps)[i]) { StartsFacts(ps, i); }
  }

  /** One slot per cluster, sampled evenly when there are more clusters than
      slots; the other slots go to the nearest peers. */
  function Pick(ps: seq<Peer>, budget: nat): seq<bool> {
    var r := Min(budget, |Starts(ps)|);
    Fill(Mark(SampledStarts(ps, r), |ps|), budget - r)
  }

  /** Whatever is picked behind a gap starts a cluster. */
  ghost predicate PrefixOrStart(ps: seq<Peer>, picked: seq<bool>)
    requires |picked| == |ps|
  {
    forall i | 0 <= i < |ps| && picked[i] :: Boundary(ps, i) || forall k | 0 <= k < i :: picked[k]
  }

  ghost predicate AllStartsPicked(ps: seq<Peer>, picked: seq<bool>)
    requires |picked| == |ps|
  {
    forall i | 0 <= i < |ps| && Boundary(ps, i) :: picked[i]
  }

  lemma CountBoundaries(ps: seq<Peer>)
    ensures |Starts(ps)| <= |ps|
    ensures ps != [] ==> |Starts(ps)| > 0
  {
    CountMonotone(Boundaries(ps), Boundaries(ps));
    if ps != [] { CountPositive(Boundaries(ps), 0); }
  }

  /** The picks are exactly as many as the budget, whenever there are that many
      peers; and they keep every cluster's first peer if the budget allows. */
  lemma PickFacts(ps: seq<Peer>, budget: nat)
    requires budget <= |ps|
    ensures |Pick(ps, budget)| == |ps|
    ensures Count(Pick(ps, budget)) == budget
    ensures PrefixOrStart(ps, Pick(ps, budget))
    ensures budget > 0 ==> Pick(ps, budget)[0]
    ensures budget >= |Starts(ps)| ==> AllStartsPicked(ps, Pick(ps, budget))
  {
    var r := Min(budget, |Starts(ps)|);
    var idx := SampledStarts(ps, r);
    var marked := Mark(idx, |ps|);
    CountMark(idx, |ps|);
    CountFill(marked, budget - r);
    var m := FillShape(marked, budget - r);
    if budget > 0 { CountBoundaries(ps); assert idx[0] in idx; }
    if budget >= |Starts(ps)| {
      assert idx == Starts(ps);
      forall i | 0 <= i < |ps| && Boundary(ps, i)
        ensures Pick(ps, budget)[i]
      {
        BoundaryListed(ps, i);
      }
    }
  }

  /** With fewer slots than clusters, exactly the first peers of evenly sampled
      clusters are picked, so that no cluster is ceil(clusters / slots) or more
      behind one that is represented. */
  lemma PickedEvenly(ps: seq<Peer>, budget: nat, k: nat) returns (c: nat)
    requires 0 < budget <= |Starts(ps)| <= |ps| && k < |Starts(ps)|
    ensures c <= k < c + Ceil(|Starts(ps)|, budget)
    ensures |Pick(ps, budget)| == |ps| && Starts(ps)[c] < |ps| && Pick(ps, budget)[Starts(ps)[c]]
    ensures forall x | 0 <= x < |ps| && Pick(ps, budget)[x] :: Boundary(ps, x)
  {
    var i := EvenSampling(|Starts(ps)|, budget, k);
    c := Sample(|Starts(ps)|, budget, i);
    var idx := SampledStarts(ps, budget);
    assert idx[i] == Starts(ps)[c];
    assert Pick(ps, budget) == Mark(idx, |ps|);
  }

  lemma BoundaryListed(ps: seq<Peer>, i: nat)
    requires i < |ps| && Boundary(ps, i)
    ensures i in Starts(ps)
  {
    assert Boundaries(ps)[i];
    var j := PositionOf(Boundaries(ps), i);
  }

  // ----- The clusters of a picked list -----

  /** Positions of the picked list that are neighbours have nothing picked
      between them. */
  lemma NothingBetween(picked: seq<bool>, j: nat, x: nat)
    requires 0 < j < Count(picked)
    requires Positions(picked)[j - 1] < x < Positions(picked)[j]
    ensures !picked[x]
  {
    if picked[x] { var l := PositionOf(picked, x); }
  }

  /** A cluster starts at a position of the picked list exactly when one starts
      at the corresponding position of the whole list. */
  lemma BoundaryOfPicked(ps: seq<Peer>, picked: seq<bool>, j: nat)
    requires SortedByRTT(ps) && |picked| == |ps| && PrefixOrStart(ps, picked)
    requires j < Count(picked) && picked[0]
    ensures var qs := Select(ps, picked); j < |qs| && (Boundary(qs, j) <==> Boundary(ps, Positions(picked)[j]))
  {
    SelectAt(ps, picked, j);
    var b := Positions(picked)[j];
    if j == 0 {
      var l := PositionOf(picked, 0);
    } else {
      SelectAt(ps, picked, j - 1);
      var a := Positions(picked)[j - 1];
      if a + 1 < b {
        NothingBetween(picked, j, a + 1);
        assert Boundary(ps, b);
        assert ps[a].rtt <= ps[b - 1].rtt;
      }
    }
  }

  lemma PickedBoundaries(ps: seq<Peer>, picked: seq<bool>)
    requires SortedByRTT(ps) && |picked| == |ps| && PrefixOrStart(ps, picked)
    requires ps != [] && picked[0]
    ensures Boundaries(Select(ps, picked)) == Select(Boundaries(ps), picked)
  {
    var qs := Select(ps, picked);
    forall j | 0 <= j < |qs|
      ensures Boundaries(qs)[j] == Select(Boundaries(ps), picked)[j]
    {
      BoundaryOfPicked(ps, picked, j);
      SelectAt(Boundaries(ps), picked, j);
    }
  }

  /** Positions `i <= k` lie in one cluster. */
  ghost predicate SameCluster(ps: seq<Peer>, i: nat, k: nat)
    requires i <= k < |ps|
  {
    forall l | i < l <= k :: !Boundary(ps, l)
  }

  /** The clusters of the picked list are exactly the traces that the clusters
      of the whole list leave in it. */
  lemma ClustersAreTraces(ps: seq<Peer>, picked: seq<bool>, j: nat, k: nat)
    requires SortedByRTT(ps) && |picked| == |ps| && PrefixOrStart(ps, picked)
    requires j <= k < Count(picked) && picked[0]
    ensures SameCluster(Select(ps, picked), j, k) <==> SameCluster(ps, Positions(picked)[j], Positions(picked)[k])
  {
    var qs, a, b := Select(ps, picked), Positions(picked)[j], Positions(picked)[k];
    forall l | j < l <= k
      ensures Boundary(qs, l) <==> Boundary(ps, Positions(picked)[l])
    {
      BoundaryOfPicked(ps, picked, l);
    }
    if SameCluster(ps, a, b) {
      assert forall l | j < l <= k :: a < Positions(picked)[l] <= b;
    } else {
      var x :| a < x <= b && Boundary(ps, x);
      var l := PickedBoundaryBetween(ps, picked, j, k, x);
      assert Boundary(qs, l);
    }
  }

  /** A boundary between two picked positions shows at a picked one. */
  lemma PickedBoundaryBetween(ps: seq<Peer>, picked: seq<bool>, j: nat, k: nat, x: nat) returns (l: nat)
    requires SortedByRTT(ps) && |picked| == |ps| && PrefixOrStart(ps, picked) && j <= k < Count(picked)
    requires Positions(picked)[j] < x <= Positions(picked)[k] && Boundary(ps, x)
    ensures j < l <= k && Boundary(ps, Positions(picked)[l])
  {
    l := k;
    if picked[x] { l := PositionOf(picked, x); }
  }

  function Both(fs: seq<bool>, gs: seq<bool>): seq<bool>
    requires |fs| == |gs|
  {
    seq(|fs|, i requires 0 <= i < |fs| => fs[i] && gs[i])
  }

  lemma {:induction false} CountSelected(fs: seq<bool>, picked: seq<bool>)
    requires |fs| == |picked|
    ensures Count(Select(fs, picked)) == Count(Both(fs, picked))
  {
    if fs != [] {
      var n := |fs| - 1;
      CountSelected(fs[..n], picked[..n]);
      assert Both(fs, picked)[..n] == Both(fs[..n], picked[..n]);
      if picked[n] { assert Select(fs, picked)[..|Select(fs, picked)| - 1] == Select(fs[..n], picked[..n]); }
    }
  }

  /** How many clusters a picked list has. */
  lemma ClustersOfPicked(ps: seq<Peer>, picked: seq<bool>)
    requires SortedByRTT(ps) && |picked| == |ps| && PrefixOrStart(ps, picked)
    requires ps != [] && picked[0]
    ensures |Starts(Select(ps, picked))| == Count(Both(Boundaries(ps), picked))
    ensures AllStartsPicked(ps, picked) ==> |Starts(Select(ps, picked))| == |Starts(ps)|
  {
    PickedBoundaries(ps, picked);
    CountSelected(Boundaries(ps), picked);
    if AllStartsPicked(ps, picked) { assert Both(Boundaries(ps), picked) == Boundaries(ps); }
  }

  /** A picked list of a clustered list is still clustered. */
  lemma PickedStaysClustered(ps: seq<Peer>, budget: nat)
    requires SortedByRTT(ps) && |Starts(ps)| > 1 && 2 <= budget <= |ps|
    ensures |Starts(Select(ps, Pick(ps, budget)))| > 1
  {
    CountBoundaries(ps);
    PickFacts(ps, budget);
    var picked, r := Pick(ps, budget), Min(budget, |Starts(ps)|);
    ClustersOfPicked(ps, picked);
    var idx := SampledStarts(ps, r);
    var marked := Mark(idx, |ps|);
    CountMark(idx, |ps|);
    var m := FillShape(marked, budget - r);
    CountMonotone(marked, Both(Boundaries(ps), picked));
  }

  // ----- Representation needs as many picks as clusters -----

  ghost predicate Represented(ps: seq<Peer>, flags: seq<bool>, c: nat)
    requires |flags| == |ps| && c < |Starts(ps)|
  {
    exists i :: 0 <= i < |ps| && InCluster(ps, c, i) && flags[i]
  }

  ghost predicate EveryClusterHas(ps: seq<Peer>, flags: seq<bool>)
    requires |flags| == |ps|
  {
    forall c | 0 <= c < |Starts(ps)| :: Represented(ps, flags, c)
  }

  lemma {:induction false} RepresentationCosts(ps: seq<Peer>, flags: seq<bool>, c: nat)
    requires |flags| == |ps| && EveryClusterHas(ps, flags) && c <= |Starts(ps)|
    ensures StartOf(ps, c) <= |ps| && Count(flags[..StartOf(ps, c)]) >= c
  {
    if c > 0 {
      StartsFacts(ps, c - 1);
      RepresentationCosts(ps, flags, c - 1);
      var a, b := StartOf(ps, c - 1), StartOf(ps, c);
      assert Represented(ps, flags, c - 1);
      var i :| 0 <= i < |ps| && InCluster(ps, c - 1, i) && flags[i];
      CountGrows(flags, a, b, i);
    }
  }

  /** One more is set before `b` than before `a`. */
  lemma CountGrows(flags: seq<bool>, a: nat, b: nat, i: nat)
    requires a <= i < b <= |flags| && flags[i]
    ensures Count(flags[..a]) < Count(flags[..b])
  {
    CountSplit(flags[..b], a);
    assert flags[..b][..a] == flags[..a] && flags[..b][a..] == flags[a..b];
    assert flags[a..b][i - a];
    CountPositive(flags[a..b], i - a);
  }

  lemma RepresentationNeeds(ps: seq<Peer>, flags: seq<bool>)
    requires |flags| == |ps| && EveryClusterHas(ps, flags)
    ensures Count(flags) >= |Starts(ps)|
  {
    RepresentationCosts(ps, flags, |Starts(ps)|);
    assert flags[..|ps|] == flags;
  }
}
