/** Even sampling: `r` of `c` clusters at the indices `i * c / r`. */
module Sampling {
  import opened Division

  function Sample(c: nat, r: nat, i: nat): nat
    requires 0 < r
  {
    i * c / r
  }

  lemma SampleNext(c: nat, r: nat, i: nat)
    requires 0 < r <= c
    ensures Sample(c, r, i) + 1 <= Sample(c, r, i + 1)
    ensures Sample(c, r, i + 1) <= Sample(c, r, i) + Ceil(c, r)
  {
    assert (i + 1) * c == i * c + c;
    DivStep(i * c, (i + 1) * c, r);
    DivBounds(c + r - 1, r);
    var q := Ceil(c, r);
    assert c <= q * r;
    DivMonotone((i + 1) * c, i * c + q * r, r);
    DivAdd(i * c, q, r);
  }

  function Ceil(c: nat, r: nat): nat
    requires 0 < r
  {
    (c + r - 1) / r
  }

  /** Samples strictly increase, so they are distinct. */
  lemma {:induction false} SampleIncreasing(c: nat, r: nat, i: nat, j: nat)
    requires 0 < r <= c && i < j
    ensures Sample(c, r, i) < Sample(c, r, j)
    decreases j
  {
    SampleNext(c, r, j - 1);
    if i < j - 1 { SampleIncreasing(c, r, i, j - 1); }
  }

  lemma SampleEnds(c: nat, r: nat)
    requires 0 < r
    ensures Sample(c, r, 0) == 0 && Sample(c, r, r) == c
  {
    DivAdd(0, c, r);
    assert r * c == 0 + c * r;
  }

  lemma SampleInRange(c: nat, r: nat, i: nat)
    requires 0 < r <= c && i < r
    ensures Sample(c, r, i) < c
  {
    SampleEnds(c, r);
    SampleIncreasing(c, r, i, r);
  }

  /** With a slot for every cluster, every cluster is sampled. */
  lemma SampleAll(c: nat, i: nat)
    requires 0 < c
    ensures Sample(c, c, i) == i
  {
    DivAdd(0, i, c);
    assert i * c == 0 + i * c;
  }

  /** No cluster is far from a sample: some sampled index lies at or fewer than
      ceil(c / r) positions below it. */
  lemma {:induction false} SampleCovers(c: nat, r: nat, k: nat, top: nat) returns (i: nat)
    requires 0 < r <= c && 0 < top && k < Sample(c, r, top)
    ensures i < top && Sample(c, r, i) <= k < Sample(c, r, i) + Ceil(c, r)
    decreases top
  {
    SampleNext(c, r, top - 1);
    if Sample(c, r, top - 1) <= k {
      i := top - 1;
    } else {
      SampleEnds(c, r);
      i := SampleCovers(c, r, k, top - 1);
    }
  }

  /** Even sampling as a whole. */
  lemma EvenSampling(c: nat, r: nat, k: nat) returns (i: nat)
    requires 0 < r <= c && k < c
    ensures Sample(c, r, 0) == 0
    ensures forall a | 0 <= a < r :: Sample(c, r, a) < c
    ensures forall a, b | 0 <= a < b < r :: Sample(c, r, a) < Sample(c, r, b)
    ensures i < r && Sample(c, r, i) <= k < Sample(c, r, i) + Ceil(c, r)
  {
    SampleEnds(c, r);
    forall a | 0 <= a < r ensures Sample(c, r, a) < c { SampleInRange(c, r, a); }
    forall a, b | 0 <= a < b < r ensures Sample(c, r, a) < Sample(c, r, b) { SampleIncreasing(c, r, a, b); }
    i := SampleCovers(c, r, k, r);
  }
}
