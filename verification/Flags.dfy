/** Sequences of booleans as subsets of positions: counting, the list of set
    positions, and the subsequence they select.
 */
module Flags {

  function Count(fs: seq<bool>): nat {
    if fs == [] then 0 else Count(fs[..|fs| - 1]) + if fs[|fs| - 1] then 1 else 0
  }

  /** The set positions, in increasing order. */
  function Positions(fs: seq<bool>): (ps: seq<nat>)
    ensures |ps| == Count(fs)
    ensures forall i | 0 <= i < |ps| :: ps[i] < |fs| && fs[ps[i]]
    ensures forall i, j | 0 <= i < j < |ps| :: ps[i] < ps[j]
  {
    if fs == [] then []
    else
      var front := Positions(fs[..|fs| - 1]);
      if fs[|fs| - 1] then front + [|fs| - 1] else front
  }

  function Select<T>(xs: seq<T>, fs: seq<bool>): (ys: seq<T>)
    requires |xs| == |fs|
    ensures |ys| == Count(fs)
  {
    if fs == [] then []
    else
      var front := Select(xs[..|xs| - 1], fs[..|fs| - 1]);
      if fs[|fs| - 1] then front + [xs[|xs| - 1]] else front
  }

  /** A selection lists the elements at the set positions. */
  lemma {:induction false} SelectAt<T>(xs: seq<T>, fs: seq<bool>, j: nat)
    requires |xs| == |fs| && j < Count(fs)
    ensures Select(xs, fs)[j] == xs[Positions(fs)[j]]
    decreases |fs|
  {
    var n := |fs| - 1;
    if j < Count(fs[..n]) { SelectAt(xs[..n], fs[..n], j); }
  }

  /** Every set position is listed. */
  lemma {:induction false} PositionOf(fs: seq<bool>, i: nat) returns (j: nat)
    requires i < |fs| && fs[i]
    ensures j < Count(fs) && Positions(fs)[j] == i
    decreases |fs|
  {
    var n := |fs| - 1;
    if i == n { j := Count(fs) - 1; } else { j := PositionOf(fs[..n], i); }
  }

  /** The positions that are not set. */
  function Negate(fs: seq<bool>): seq<bool> {
    seq(|fs|, i requires 0 <= i < |fs| => !fs[i])
  }

  /** Every element is on exactly one of the two sides. */
  lemma {:induction false} SelectSides<T>(xs: seq<T>, fs: seq<bool>)
    requires |xs| == |fs|
    ensures multiset(Select(xs, fs)) + multiset(Select(xs, Negate(fs))) == multiset(xs)
    ensures Count(fs) + Count(Negate(fs)) == |fs|
  {
    if fs != [] {
      var n := |fs| - 1;
      SelectSides(xs[..n], fs[..n]);
      assert Negate(fs)[..n] == Negate(fs[..n]);
      assert xs == xs[..n] + [xs[n]];
    }
  }

  lemma {:induction false} CountSplit(fs: seq<bool>, k: nat)
    requires k <= |fs|
    ensures Count(fs) == Count(fs[..k]) + Count(fs[k..])
    decreases |fs|
  {
    var n := |fs| - 1;
    if k == |fs| {
      assert fs[..k] == fs && fs[k..] == [];
    } else {
      CountSplit(fs[..n], k);
      assert fs[..n][..k] == fs[..k] && fs[..n][k..] == fs[k..][..n - k];
    }
  }

  lemma {:induction false} CountSet(fs: seq<bool>, i: nat)
    requires i < |fs| && !fs[i]
    ensures Count(fs[i := true]) == Count(fs) + 1
    decreases |fs|
  {
    var n := |fs| - 1;
    if i < n {
      CountSet(fs[..n], i);
      assert fs[i := true][..n] == fs[..n][i := true];
    } else {
      assert fs[i := true][..n] == fs[..n];
    }
  }

  lemma {:induction false} CountPrefix(fs: seq<bool>, m: nat)
    requires m <= |fs| && forall i | 0 <= i < |fs| :: fs[i] <==> i < m
    ensures Count(fs) == m
    decreases |fs|
  {
    if fs != [] { CountPrefix(fs[..|fs| - 1], if m == |fs| then m - 1 else m); }
  }

  lemma {:induction false} CountMonotone(fs: seq<bool>, gs: seq<bool>)
    requires |fs| == |gs| && forall i | 0 <= i < |fs| :: fs[i] ==> gs[i]
    ensures Count(fs) <= Count(gs) <= |gs|
  {
    if fs != [] { CountMonotone(fs[..|fs| - 1], gs[..|fs| - 1]); }
  }

  lemma {:induction false} CountPositive(fs: seq<bool>, i: nat)
    requires i < |fs| && fs[i]
    ensures Count(fs) > 0
  {
    var j := PositionOf(fs, i);
  }

  // ----- Marking listed positions -----

  ghost predicate Ascending(idx: seq<nat>, n: nat) {
    && (forall i | 0 <= i < |idx| :: idx[i] < n)
    && (forall i, j | 0 <= i < j < |idx| :: idx[i] < idx[j])
  }

  function Mark(idx: seq<nat>, n: nat): seq<bool> {
    seq(n, i requires 0 <= i < n => i in idx)
  }

  lemma {:induction false} CountMark(idx: seq<nat>, n: nat)
    requires Ascending(idx, n)
    ensures Count(Mark(idx, n)) == |idx|
  {
    if idx == [] {
      CountPrefix(Mark(idx, n), 0);
    } else {
      var front, last := idx[..|idx| - 1], idx[|idx| - 1];
      CountMark(front, n);
      CountSet(Mark(front, n), last);
      assert Mark(idx, n) == Mark(front, n)[last := true];
    }
  }

  // ----- Filling up from the left -----

  /** Sets the first `need` unset positions. */
  function Fill(fs: seq<bool>, need: nat): (gs: seq<bool>)
    ensures |gs| == |fs|
  {
    if fs == [] || need == 0 then fs
    else [true] + Fill(fs[1..], if fs[0] then need else need - 1)
  }

  /** Filling sets a prefix: up to some `m` everything is set, behind it nothing
      changes. */
  lemma {:induction false} FillShape(fs: seq<bool>, need: nat) returns (m: nat)
    ensures m <= |fs| && forall i | 0 <= i < |fs| :: Fill(fs, need)[i] <==> i < m || fs[i]
  {
    if fs == [] || need == 0 {
      m := 0;
    } else {
      var k := FillShape(fs[1..], if fs[0] then need else need - 1);
      m := k + 1;
      assert forall i | 1 <= i < |fs| :: fs[i] == fs[1..][i - 1] && Fill(fs, need)[i] == Fill(fs, need)[1..][i - 1];
    }
  }

  lemma CountCons(b: bool, fs: seq<bool>)
    ensures Count([b] + fs) == (if b then 1 else 0) + Count(fs)
  {
    CountSplit([b] + fs, 1);
    assert ([b] + fs)[..1] == [b] && ([b] + fs)[1..] == fs;
    assert Count([b]) == if b then 1 else 0 by { assert [b][..0] == []; }
  }

  lemma {:induction false} CountFill(fs: seq<bool>, need: nat)
    requires Count(fs) + need <= |fs|
    ensures Count(Fill(fs, need)) == Count(fs) + need
    decreases |fs|
  {
    if need > 0 {
      assert fs == [fs[0]] + fs[1..];
      CountCons(fs[0], fs[1..]);
      var rest := if fs[0] then need else need - 1;
      CountFill(fs[1..], rest);
      CountCons(true, Fill(fs[1..], rest));
    }
  }

  // ----- Selecting from a selection -----

  /** The positions of the original sequence that survive two selections. */
  function Compose(fs: seq<bool>, gs: seq<bool>): (hs: seq<bool>)
    requires |gs| == Count(fs)
    ensures |hs| == |fs| && Count(hs) == Count(gs)
  {
    if fs == [] then []
    else
      var n := |fs| - 1;
      if fs[n] then
        var front := Compose(fs[..n], gs[..|gs| - 1]);
        assert (front + [gs[|gs| - 1]])[..n] == front;
        front + [gs[|gs| - 1]]
      else
        var front := Compose(fs[..n], gs);
        assert (front + [false])[..n] == front;
        front + [false]
  }

  lemma {:induction false} ComposeAt(fs: seq<bool>, gs: seq<bool>, j: nat)
    requires |gs| == Count(fs) && j < |gs|
    ensures Compose(fs, gs)[Positions(fs)[j]] == gs[j]
    decreases |fs|
  {
    var n := |fs| - 1;
    if fs[n] {
      if j < |gs| - 1 { ComposeAt(fs[..n], gs[..|gs| - 1], j); }
    } else {
      ComposeAt(fs[..n], gs, j);
    }
  }

  lemma {:induction false} ComposeOnly(fs: seq<bool>, gs: seq<bool>, i: nat)
    requires |gs| == Count(fs) && i < |fs| && Compose(fs, gs)[i]
    ensures fs[i]
    decreases |fs|
  {
    var n := |fs| - 1;
    if i < n { ComposeOnly(fs[..n], if fs[n] then gs[..|gs| - 1] else gs, i); }
  }

  lemma {:induction false} SelectCompose<T>(xs: seq<T>, fs: seq<bool>, gs: seq<bool>)
    requires |xs| == |fs| && |gs| == Count(fs)
    ensures Select(xs, Compose(fs, gs)) == Select(Select(xs, fs), gs)
    decreases |fs|
  {
    if fs != [] {
      var n := |fs| - 1;
      var hs := Compose(fs, gs);
      if fs[n] {
        SelectCompose(xs[..n], fs[..n], gs[..|gs| - 1]);
        assert hs[..n] == Compose(fs[..n], gs[..|gs| - 1]);
        assert Select(xs, fs)[..|gs| - 1] == Select(xs[..n], fs[..n]);
      } else {
        SelectCompose(xs[..n], fs[..n], gs);
        assert hs[..n] == Compose(fs[..n], gs);
      }
    }
  }
}
