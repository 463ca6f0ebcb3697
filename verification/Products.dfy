/** Facts about products that the solver should not have to guess. */
module Products {
  lemma {:induction false} MulNonNegative(a: int, b: int)
    requires a >= 0 && b >= 0
    ensures a * b >= 0
    decreases b
  {
    if b > 0 {
      MulNonNegative(a, b - 1);
      assert a * b == a * (b - 1) + a;
    }
  }

  lemma MulMinus(d: int, x: int, y: int)
    ensures d * (x - y) == d * x - d * y
  {
  }

  lemma MulMonotone(d: int, x: int, y: int)
    requires d >= 0 && x <= y
    ensures d * x <= d * y
  {
    MulNonNegative(d, y - x);
    MulMinus(d, y, x);
  }

  lemma MulStep(d: int, x: int, y: int)
    requires d >= 0 && x < y
    ensures d * x + d <= d * y
  {
    MulMonotone(d, x + 1, y);
    assert d * (x + 1) == d * x + d;
  }

  lemma MulAssoc(a: int, b: int, c: int)
    ensures a * (b * c) == (a * b) * c
  {
  }

  function Abs(x: int): nat {
    if x < 0 then -x else x
  }

  lemma MulSigns(a: int, b: int)
    ensures -a * b == -(a * b) && a * -b == -(a * b) && -a * -b == a * b
  {
  }

  lemma AbsProduct(a: int, b: int)
    ensures Abs(a * b) == Abs(a) * Abs(b)
  {
    MulNonNegative(Abs(a), Abs(b));
    MulSigns(a, b);
  }

  /** A factor no larger in size gives a product no larger in size. */
  lemma ProductWithin(q: int, x: int, g: int)
    requires Abs(x) <= Abs(g)
    ensures Abs(q * x) <= Abs(q) * Abs(g)
  {
    AbsProduct(q, x);
    MulMonotone(Abs(q), Abs(x), Abs(g));
  }

  lemma DivMod(a: int, d: int)
    requires d > 0
    ensures a == d * (a / d) + a % d && 0 <= a % d < d
  {
  }

  /** A number d * k + r with a remainder in range has that quotient and remainder. */
  lemma DivModUnique(a: int, d: int, k: int, r: int)
    requires d > 0 && a == d * k + r && 0 <= r < d
    ensures a / d == k && a % d == r
  {
    DivMod(a, d);
    if a / d < k { MulStep(d, a / d, k); }
    if k < a / d { MulStep(d, k, a / d); }
  }

  lemma RealProduct(a: int, b: int)
    ensures (a * b) as real == a as real * b as real
  {
  }

  lemma PositiveProduct(a: real, b: real)
    requires a > 0.0 && b > 0.0
    ensures a * b > 0.0
  {
  }

  lemma ScaleLt(a: real, b: real, d: real)
    requires a < b && d > 0.0
    ensures a * d < b * d
  {
    PositiveProduct(b - a, d);
    assert (b - a) * d == b * d - a * d;
  }

  lemma ScaleLe(a: real, b: real, d: real)
    requires a <= b && d > 0.0
    ensures a * d <= b * d
  {
    if a < b { ScaleLt(a, b, d); }
  }

  lemma UnscaleLe(a: real, b: real, d: real)
    requires d > 0.0 && a * d <= b * d
    ensures a <= b
  {
    if b < a { ScaleLt(b, a, d); }
  }

  lemma UnscaleLt(a: real, b: real, d: real)
    requires d > 0.0 && a * d < b * d
    ensures a < b
  {
    if b <= a { ScaleLe(b, a, d); }
  }
}
