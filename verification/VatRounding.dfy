/** Net prices from VAT-inclusive ones (internal/modules/invoice/domain/invoice.go:146-153).
    Amounts are whole cents and rates whole percent. */
module VatRounding {
  import opened Products

  /** n/d rounded to the nearest integer, halves away from zero. */
  function RoundDiv(n: int, d: int): int
    requires d > 0
  {
    if n >= 0 then (2 * n + d) / (2 * d) else -((2 * -n + d) / (2 * d))
  }

  function NetFromGross(gross: int, vatRate: int): int {
    if vatRate <= 0 then gross else RoundDiv(gross * 100, 100 + vatRate)
  }

  /** Of the multiples of d, p is one nearest to n, and of two nearest ones the one further from zero. */
  ghost predicate NearestMultiple(n: int, d: int, p: int) {
    2 * Abs(n - p) <= d && (2 * Abs(n - p) == d ==> Abs(p) > Abs(n))
  }

  /** r is a nearest integer to n/d, and of two nearest ones the one further from zero. */
  ghost predicate IsNearest(n: int, d: int, r: int) {
    NearestMultiple(n, d, d * r)
  }

  lemma RoundsToNearest(n: int, d: int)
    requires d > 0
    ensures IsNearest(n, d, RoundDiv(n, d))
  {
    var a := Abs(n);
    var q := (2 * a + d) / (2 * d);
    DivMod(2 * a + d, 2 * d);
    MulAssoc(2, d, q);
    MulNonNegative(d, q);
    MulSigns(d, q);
  }

  /** Two multiples that are not on different sides of zero cannot both be nearest. */
  lemma OneIsNearest(n: int, d: int, p: int, q: int)
    requires d > 0 && p + d <= q && (p >= 0 || p + d <= 0)
    ensures !(NearestMultiple(n, d, p) && NearestMultiple(n, d, q))
  {
  }

  lemma SmallerIsNotNearest(n: int, d: int, r: int, t: int)
    requires d > 0 && r < t
    ensures !(IsNearest(n, d, r) && IsNearest(n, d, t))
  {
    MulStep(d, r, t);
    if r < 0 { MulStep(d, r, 0); } else { MulNonNegative(d, r); }
    OneIsNearest(n, d, d * r, d * t);
  }

  lemma NearestIsUnique(n: int, d: int, r: int, t: int)
    requires d > 0 && IsNearest(n, d, r) && IsNearest(n, d, t)
    ensures r == t
  {
    if r < t { SmallerIsNotNearest(n, d, r, t); }
    if t < r { SmallerIsNotNearest(n, d, t, r); }
  }

  /** Anything strictly within half a unit is the rounding. */
  lemma WithinHalfIsNearest(n: int, d: int, k: int)
    requires d > 0 && 2 * Abs(n - d * k) < d
    ensures RoundDiv(n, d) == k
  {
    RoundsToNearest(n, d);
    NearestIsUnique(n, d, RoundDiv(n, d), k);
  }

  lemma MultiplesInOrder(n: int, m: int, d: int, p: int, q: int)
    requires d > 0 && n <= m && NearestMultiple(n, d, p) && NearestMultiple(m, d, q)
    requires q + d <= p
    ensures n == m
  {
  }

  lemma NearestMonotone(n: int, m: int, d: int, r: int, t: int)
    requires d > 0 && n <= m && IsNearest(n, d, r) && IsNearest(m, d, t)
    ensures r <= t
  {
    if t < r {
      MulStep(d, t, r);
      MultiplesInOrder(n, m, d, d * r, d * t);
      SmallerIsNotNearest(n, d, t, r);
    }
  }

  lemma RoundDivMonotone(n: int, m: int, d: int)
    requires d > 0 && n <= m
    ensures RoundDiv(n, d) <= RoundDiv(m, d)
  {
    RoundsToNearest(n, d);
    RoundsToNearest(m, d);
    NearestMonotone(n, m, d, RoundDiv(n, d), RoundDiv(m, d));
  }

  /** The net price is within half a cent of the exact gross * 100 / (100 + rate). */
  lemma NetWithinHalfCent(gross: int, vatRate: int)
    requires vatRate > 0
    ensures 2 * Abs((100 + vatRate) * NetFromGross(gross, vatRate) - 100 * gross) <= 100 + vatRate
  {
    RoundsToNearest(gross * 100, 100 + vatRate);
  }

  lemma QuotientAtMost(a: int, rate: int, q: int)
    requires a >= 0 && rate > 0 && q == (200 * a + 100 + rate) / (2 * (100 + rate))
    ensures 0 <= q <= a
  {
    var d := 2 * (100 + rate);
    DivMod(200 * a + 100 + rate, d);
    MulNonNegative(a, rate);
    assert d * (a + 1) == 200 * a + 2 * (a * rate) + d;
    if a < q { MulMonotone(d, a + 1, q); }
    if q < 0 { MulMonotone(d, q, -1); }
  }

  lemma NetBetweenZeroAndGross(gross: int, vatRate: int)
    ensures gross >= 0 ==> 0 <= NetFromGross(gross, vatRate) <= gross
    ensures gross <= 0 ==> gross <= NetFromGross(gross, vatRate) <= 0
  {
    if vatRate > 0 {
      var a := Abs(gross);
      QuotientAtMost(a, vatRate, (200 * a + 100 + vatRate) / (2 * (100 + vatRate)));
    }
  }

  lemma NetMonotone(gross: int, more: int, vatRate: int)
    requires gross <= more
    ensures NetFromGross(gross, vatRate) <= NetFromGross(more, vatRate)
  {
    if vatRate > 0 {
      RoundDivMonotone(gross * 100, more * 100, 100 + vatRate);
    }
  }

  /** Adding VAT to a net price, rounding to cents and taking it off again gives the price back. */
  lemma NetIsRecovered(net: int, vatRate: int)
    requires vatRate >= 0
    ensures NetFromGross(RoundDiv(net * (100 + vatRate), 100), vatRate) == net
  {
    var d := 100 + vatRate;
    var g := RoundDiv(net * d, 100);
    RoundsToNearest(net * d, 100);
    if vatRate == 0 {
      WithinHalfIsNearest(net * d, 100, net);
    } else {
      assert net * d == d * net;
      WithinHalfIsNearest(g * 100, d, net);
    }
  }

  // ---------------------------------------------------------------- floating point

  /** math.Round: to the nearest integer, halves away from zero. */
  function MathRound(y: real): int {
    if y >= 0.0 then (y + 0.5).Floor else -((-y + 0.5).Floor)
  }

  const TWO_53: int := 0x20_0000_0000_0000

  function Size(q: real): real {
    if q >= 0.0 then q else -q
  }

  ghost predicate RelativeError(f: real, q: real, big: real) {
    f * big <= Size(q) && -f * big <= Size(q)
  }

  /** y is a correctly rounded binary64 quotient of n by d, as far as rounding it needs: relative
      error at most 2^-53, and exact when the quotient is a half-integer (those are representable
      at this size). */
  ghost predicate CorrectlyRounded(y: real, n: int, d: int)
    requires d > 0
  {
    var q := n as real / d as real;
    && RelativeError(y - q, q, TWO_53 as real)
    && ((2 * n) % d == 0 ==> y == q)
  }

  lemma NearIntegerRounds(y: real, k: int)
    requires -0.5 < y - k as real < 0.5
    ensures MathRound(y) == k
  {
    if y >= 0.0 {
      assert k as real <= y + 0.5 < (k + 1) as real;
    } else {
      assert (-k) as real <= -y + 0.5 < (-k + 1) as real;
    }
  }

  /** A quotient halfway between two integers, as a real number. */
  lemma HalfwayValue(y: real, n: int, d: int, k: int, half: real)
    requires d > 0 && y * d as real == n as real
    requires half * d as real == (n - d * k) as real
    ensures y == k as real + half
  {
    var dr, kr := d as real, k as real;
    RealProduct(d, k);
    assert (kr + half) * dr == dr * kr + half * dr;
    UnscaleLe(y, kr + half, dr);
    UnscaleLe(kr + half, y, dr);
  }

  lemma HalfIntegerRounds(y: real, n: int, d: int, k: int)
    requires d > 0 && IsNearest(n, d, k) && 2 * Abs(n - d * k) == d
    requires y * d as real == n as real
    ensures MathRound(y) == k
  {
    if n >= d * k {
      HalfwayValue(y, n, d, k, 0.5);
      if k >= 0 { MulNonNegative(d, k); }
      assert -y + 0.5 == (-k) as real;
    } else {
      HalfwayValue(y, n, d, k, -0.5);
      if k <= 0 { MulMonotone(d, k, 0); }
      assert y + 0.5 == k as real;
    }
  }

  /** An error f of at most size / big, scaled by d, is under a half when size * d < big / 2. */
  lemma ErrorTimesDivisor(f: real, size: real, big: real, dr: real)
    requires dr > 0.0 && big > 0.0
    requires f * big <= size && size * dr < 0.5 * big
    ensures f * dr < 0.5
  {
    ScaleLe(f * big, size, dr);
    assert f * big * dr == (f * dr) * big;
    UnscaleLt(f * dr, 0.5, big);
  }

  lemma OffHalf(g: int, d: int, fd: real)
    requires 2 * Abs(g) < d && -0.5 < fd < 0.5
    ensures -0.5 * d as real < fd + g as real < 0.5 * d as real
  {
    assert 2 * g <= d - 1 && -(d - 1) <= 2 * g;
    assert (2 * g) as real <= (d - 1) as real && (-(d - 1)) as real <= (2 * g) as real;
  }

  /** fd is the error y - q scaled by d. */
  lemma OffHalfRounds(y: real, q: real, n: int, d: int, k: int, fd: real)
    requires d > 0 && 2 * Abs(n - d * k) < d
    requires q * d as real == n as real
    requires fd == (y - q) * d as real && -0.5 < fd < 0.5
    ensures MathRound(y) == k
  {
    ScaledDistance(y, q, n, d, k, fd);
    OffHalf(n - d * k, d, fd);
    UnscaledBelowHalf(y - k as real, d as real, fd + (n - d * k) as real);
    NearIntegerRounds(y, k);
  }

  lemma UnscaledBelowHalf(a: real, dr: real, x: real)
    requires dr > 0.0 && a * dr == x && -0.5 * dr < x < 0.5 * dr
    ensures -0.5 < a < 0.5
  {
    UnscaleLt(a, 0.5, dr);
    UnscaleLt(-0.5, a, dr);
  }

  lemma ScaledDistance(y: real, q: real, n: int, d: int, k: int, fd: real)
    requires q * d as real == n as real && fd == (y - q) * d as real
    ensures (y - k as real) * d as real == fd + (n - d * k) as real
  {
    var dr, kr := d as real, k as real;
    RealProduct(d, k);
    assert (y - q) * dr == y * dr - q * dr;
    assert (y - kr) * dr == y * dr - dr * kr;
  }

  lemma SizeTimesDivisor(q: real, n: int, dr: real)
    requires dr > 0.0 && q * dr == n as real
    ensures Size(q) * dr == Abs(n) as real
  {
    if q >= 0.0 {
      ScaleLe(0.0, q, dr);
    } else {
      ScaleLe(q, 0.0, dr);
      assert -q * dr == -(q * dr);
    }
  }

  lemma QuotientTimesDivisor(n: int, d: int)
    requires d > 0
    ensures n as real / d as real * d as real == n as real
  {
  }

  lemma TieRounds(y: real, n: int, d: int, k: int)
    requires d > 0 && IsNearest(n, d, k) && 2 * Abs(n - d * k) == d
    requires CorrectlyRounded(y, n, d)
    ensures MathRound(y) == k
  {
    var side := if n >= d * k then 1 else -1;
    assert d * (2 * k + side) == 2 * (d * k) + d * side;
    DivModUnique(2 * n, d, 2 * k + side, 0);
    QuotientTimesDivisor(n, d);
    HalfIntegerRounds(y, n, d, k);
  }

  lemma ScaledError(f: real, q: real, n: int, dr: real, big: real) returns (fd: real)
    requires dr > 0.0 && q * dr == n as real
    requires big > 0.0 && Abs(n) as real < 0.5 * big
    requires RelativeError(f, q, big)
    ensures fd == f * dr && -0.5 < fd < 0.5
  {
    fd := f * dr;
    SizeTimesDivisor(q, n, dr);
    ErrorTimesDivisor(f, Size(q), big, dr);
    var g := -f;
    assert g * big <= Size(q);
    ErrorTimesDivisor(g, Size(q), big, dr);
    assert g * dr == -fd;
  }

  lemma NonTieRounds(y: real, q: real, n: int, d: int, k: int, big: int)
    requires d > 0 && 2 * Abs(n - d * k) < d && q == n as real / d as real
    requires 2 * Abs(n) < big && RelativeError(y - q, q, big as real)
    ensures MathRound(y) == k
  {
    QuotientTimesDivisor(n, d);
    var fd := ScaledError(y - q, q, n, d as real, big as real);
    OffHalfRounds(y, q, n, d, k, fd);
  }

  lemma FloatRoundsToNearest(y: real, n: int, d: int, k: int)
    requires d > 0 && IsNearest(n, d, k) && 2 * Abs(n) < TWO_53
    requires CorrectlyRounded(y, n, d)
    ensures MathRound(y) == k
  {
    if 2 * Abs(n - d * k) == d {
      TieRounds(y, n, d, k);
    } else {
      NonTieRounds(y, n as real / d as real, n, d, k, TWO_53);
    }
  }

  /** On every amount below 2^53 / 200 cents the float computation of the net price is exact: for
      any correctly rounded binary64 quotient, math.Round gives the integer rounding. */
  lemma FloatNetIsExact(gross: int, vatRate: int, y: real)
    requires vatRate > 0 && 200 * Abs(gross) < TWO_53
    requires CorrectlyRounded(y, gross * 100, 100 + vatRate)
    ensures MathRound(y) == NetFromGross(gross, vatRate)
  {
    RoundsToNearest(gross * 100, 100 + vatRate);
    FloatRoundsToNearest(y, gross * 100, 100 + vatRate, RoundDiv(gross * 100, 100 + vatRate));
  }
}
