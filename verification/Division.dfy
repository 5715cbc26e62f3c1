/** Facts about quotients that the solver does not find by itself. */
module Division {

  lemma DivBounds(x: int, r: int)
    requires r > 0
    ensures x / r * r <= x < x / r * r + r
  {
  }

  lemma DivMonotone(x: int, y: int, r: int)
    requires r > 0 && x <= y
    ensures x / r <= y / r
  {
    DivBounds(x, r); DivBounds(y, r);
    if x / r > y / r {
      assert (y / r + 1) * r <= x / r * r by { MulMonotone(y / r + 1, x / r, r); }
    }
  }

  lemma MulMonotone(a: int, b: int, r: int)
    requires a <= b && r >= 0
    ensures a * r <= b * r
  {
  }

  lemma DivUnique(x: int, r: int, q: int)
    requires r > 0 && q * r <= x < q * r + r
    ensures x / r == q
  {
    var d := x / r;
    DivBounds(x, r);
    if d < q { MulMonotone(d + 1, q, r); }
    if q < d { MulMonotone(q + 1, d, r); }
  }

  lemma DivAdd(x: int, q: int, r: int)
    requires r > 0
    ensures (x + q * r) / r == x / r + q
  {
    DivBounds(x, r);
    var d := x / r;
    assert (d + q) * r == d * r + q * r;
    DivUnique(x + q * r, r, d + q);
  }

  lemma DivStep(x: int, y: int, r: int)
    requires r > 0 && x + r <= y
    ensures x / r + 1 <= y / r
  {
    DivMonotone(x + r, y, r);
    DivAdd(x, 1, r);
  }

  lemma DivTwice(x: nat, a: nat, b: nat)
    requires a > 0 && b > 0
    ensures a * b > 0 && x / a / b == x / (a * b)
  {
    MulPositive(a, b);
    var y := x / a;
    var q := y / b;
    DivBounds(x, a);
    DivBounds(y, b);
    MulMonotone(q * b, y, a);
    MulMonotone(y + 1, q * b + b, a);
    assert q * b * a == q * (a * b) && (q * b + b) * a == q * (a * b) + a * b;
    DivUnique(x, a * b, q);
  }

  lemma MulPositive(a: nat, b: nat)
    requires a > 0 && b > 0
    ensures a * b > 0
  {
  }
}
