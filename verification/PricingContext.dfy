/**
 The decimal arithmetic behind pricing_policy.py: quotients are rounded to 28 significant digits
 before their ceiling is taken (the default context of Python's `decimal`).
 */
module PricingContext {
  import opened Base
  import opened Pricing

  // ---------------------------------------------------------------- powers of ten

  ghost function Pow10(k: int): (r: real)
    ensures r > 0.0
    decreases if k < 0 then -k else k
  {
    if k == 0 then 1.0 else if k > 0 then 10.0 * Pow10(k - 1) else Pow10(k + 1) / 10.0
  }

  lemma ZerothPower()
    ensures Pow10(0) == 1.0
  {
  }

  lemma NextPower(k: int)
    ensures Pow10(k + 1) == 10.0 * Pow10(k)
  {
  }

  lemma TenTimes(a: real, b: real, c: real)
    ensures 10.0 * a * b == 10.0 * c <==> a * b == c
  {
    assert 10.0 * a * b == 10.0 * (a * b);
  }

  lemma {:induction false} PowersMultiply(i: int, j: int)
    ensures Pow10(i) * Pow10(j) == Pow10(i + j)
    decreases if i < 0 then -i else i
  {
    hide Pow10;
    if i == 0 {
      ZerothPower();
    } else if i > 0 {
      PowersMultiply(i - 1, j);
      NextPower(i - 1);
      NextPower(i - 1 + j);
      TenTimes(Pow10(i - 1), Pow10(j), Pow10(i - 1 + j));
    } else {
      PowersMultiply(i + 1, j);
      NextPower(i);
      NextPower(i + j);
      TenTimes(Pow10(i), Pow10(j), Pow10(i + j));
    }
  }

  lemma {:induction false} PowersGrow(i: int, j: int)
    requires i <= j
    ensures Pow10(i) <= Pow10(j)
    decreases j - i
  {
    if i < j {
      PowersGrow(i, j - 1);
      NextPower(j - 1);
    }
  }

  lemma {:induction false} PowerIsWhole(k: nat) returns (n: int)
    ensures Pow10(k) == n as real && n > k
  {
    if k == 0 {
      n := 1;
    } else {
      var m := PowerIsWhole(k - 1);
      n := 10 * m;
    }
  }

  lemma ProductIsNotNegative(x: real, y: real)
    requires x >= 0.0 && y >= 0.0
    ensures x * y >= 0.0
  {
  }

  // ---------------------------------------------------------------- rounding to 28 digits

  /** `z` is `y` to 28 significant digits, of which the last counts units of `Pow10(k)`. */
  ghost predicate RoundsAt(y: real, z: real, k: int) {
    && Pow10(k + 27) <= Abs(y) < Pow10(k + 28)
    && z == RoundHalfEven(y / Pow10(k)) as real * Pow10(k)
  }

  ghost predicate IsRounded(y: real, z: real) {
    if y == 0.0 then z == 0.0 else exists k :: RoundsAt(y, z, k)
  }

  /** The scale at which a number has 28 digits, searched from above. */
  lemma {:induction false} ScaleExists(size: real, hi: int, lo: int) returns (k: int)
    requires lo <= hi && Pow10(lo + 27) <= size < Pow10(hi + 28)
    ensures Pow10(k + 27) <= size < Pow10(k + 28)
    decreases hi - lo
  {
    if Pow10(hi + 27) <= size {
      k := hi;
    } else {
      assert lo != hi;
      k := ScaleExists(size, hi - 1, lo);
    }
  }

  lemma SmallerInverse(size: real, big: real, small: real)
    requires size > 0.0 && big > 0.0 && 1.0 / size < big && big * small == 1.0
    ensures small <= size
  {
    var inverse := 1.0 / size;
    assert inverse * size == 1.0;
    ProductIsNotNegative(big - inverse, size);
    assert (big - inverse) * size == big * size - 1.0;
    assert small > size ==> big * (small - size) > 0.0;
    assert big * (small - size) == 1.0 - big * size;
  }

  lemma ScaleOf(size: real) returns (k: int)
    requires size > 0.0
    ensures Pow10(k + 27) <= size < Pow10(k + 28)
  {
    var m := size.Floor + 1;
    var n := (1.0 / size).Floor + 1;
    var above := PowerIsWhole(m);
    var below := PowerIsWhole(n);
    PowersMultiply(n, -n);
    assert size < Pow10(m) && 1.0 / size < Pow10(n);
    SmallerInverse(size, Pow10(n), Pow10(-n));
    PowersGrow(m, m + 28);
    PowersGrow(-n - 27 + 27, m + 27);
    k := ScaleExists(size, m, MinInt(m, -n - 27));
  }

  lemma ScaleIsUnique(size: real, j: int, k: int)
    requires Pow10(j + 27) <= size < Pow10(j + 28) && Pow10(k + 27) <= size < Pow10(k + 28)
    ensures j == k
  {
    hide Pow10;
    if j < k {
      PowersGrow(j + 28, k + 27);
    }
    if k < j {
      PowersGrow(k + 28, j + 27);
    }
  }

  /** Every number has a rounded value, and only one. */
  lemma RoundedExists(y: real) returns (z: real)
    ensures IsRounded(y, z)
    ensures forall x :: IsRounded(y, x) ==> x == z
  {
    hide Pow10, RoundHalfEven;
    if y == 0.0 {
      z := 0.0;
    } else {
      var size := Abs(y);
      var k := ScaleOf(size);
      z := RoundHalfEven(y / Pow10(k)) as real * Pow10(k);
      assert RoundsAt(y, z, k);
      forall x | IsRounded(y, x)
        ensures x == z
      {
        var j :| RoundsAt(y, x, j);
        ScaleIsUnique(size, j, k);
      }
    }
  }

  lemma RoundedIsDefined(y: real)
    ensures exists z :: IsRounded(y, z)
  {
    var z := RoundedExists(y);
  }

  /** What the context makes of a number. */
  ghost function Rounded(y: real): (z: real)
    ensures IsRounded(y, z)
  {
    RoundedIsDefined(y);
    var z :| IsRounded(y, z);
    z
  }

  // ---------------------------------------------------------------- rounding before the ceiling

  function Ceiling(x: real): int {
    -((-x).Floor)
  }

  lemma BrokenCeiling(a: int, b: int, m: int)
    requires b > 0 && a % b != 0 && m == CeilDiv(a, b)
    ensures (m - 1) * b + 1 <= a <= m * b - 1
  {
    hide CeilDiv;
    CeilDivIsLeast(a, b, m);
    CeilDivIsLeast(a, b, m - 1);
    MultipleHasNoRemainder(m, b);
  }

  lemma WholeCeiling(a: int, b: int)
    requires b > 0 && a % b == 0
    ensures CeilDiv(a, b) == a / b && a == a / b * b
  {
    var k := a / b;
    assert a == k * b;
    CeilDivIsLeast(a, b, k);
    CeilDivIsLeast(a, b, k - 1);
    assert (k - 1) * b == a - b;
  }

  lemma WholeQuotient(a: int, b: int, k: int)
    requires b > 0 && a == k * b
    ensures a as real / b as real == k as real
  {
    var x := a as real / b as real;
    assert x * b as real == k as real * b as real;
    assert (x - k as real) * b as real == 0.0;
  }

  lemma QuotientWindow(a: int, b: int, m: int)
    requires b > 0 && (m - 1) * b + 1 <= a <= m * b - 1
    ensures var x, u := a as real / b as real, 1.0 / b as real;
            (m - 1) as real + u <= x <= m as real - u
  {
    var x, u, rb := a as real / b as real, 1.0 / b as real, b as real;
    assert x * rb == a as real && u * rb == 1.0;
    assert (m as real - u - x) * rb == m as real * rb - 1.0 - a as real;
    assert m as real * rb == (m * b) as real;
    assert (x - (m - 1) as real - u) * rb == a as real - (m - 1) as real * rb - 1.0;
    assert (m - 1) as real * rb == ((m - 1) * b) as real;
  }

  /** An error of less than one part in the denominator, and none on whole quotients, keeps the ceiling. */
  lemma SmallErrorKeepsCeiling(a: int, b: int, approx: real)
    requires b > 0
    requires Abs(approx - a as real / b as real) < 1.0 / b as real
    requires a % b == 0 ==> approx == a as real / b as real
    ensures Ceiling(approx) == CeilDiv(a, b)
  {
    hide CeilDiv;
    if a % b == 0 {
      WholeCeiling(a, b);
      WholeQuotient(a, b, a / b);
    } else {
      var m := CeilDiv(a, b);
      BrokenCeiling(a, b, m);
      QuotientWindow(a, b, m);
      assert (m - 1) as real < approx < m as real;
    }
  }

  /** A number rounded in units of `Pow10(k)` is off by half a unit at most. */
  lemma RoundingError(y: real, z: real, k: int)
    requires RoundsAt(y, z, k)
    ensures Abs(z - y) <= Pow10(k) / 2.0
  {
    hide Pow10;
    var u := Pow10(k);
    var x := y / u;
    var d := RoundHalfEven(x) as real - x;
    assert x * u == y && z - y == d * u;
    ProductIsNotNegative(0.5 - d, u);
    ProductIsNotNegative(0.5 + d, u);
    assert (0.5 - d) * u == u / 2.0 - d * u && (0.5 + d) * u == u / 2.0 + d * u;
  }

  lemma DividesBack(y: real, x: real, u: real)
    requires u > 0.0 && y == x * u
    ensures y / u == x
  {
    assert (y / u - x) * u == 0.0;
  }

  /** And if it is a whole number of units, it is not off at all. */
  lemma WholeUnitsStay(y: real, z: real, k: int, n: int)
    requires RoundsAt(y, z, k) && y == n as real * Pow10(k)
    ensures z == y
  {
    hide Pow10, RoundHalfEven;
    DividesBack(y, n as real, Pow10(k));
    RoundHalfEvenIsUnique(y / Pow10(k), n);
  }

  lemma ScaledError(y: real, z: real, s: real, u: real, scaled: real)
    requires s > 0.0 && u * s == scaled && Abs(z - y) <= u / 2.0
    ensures y * s - scaled / 2.0 <= z * s <= y * s + scaled / 2.0
  {
    var d := z - y;
    ProductIsNotNegative(u / 2.0 - d, s);
    ProductIsNotNegative(u / 2.0 + d, s);
    assert (u / 2.0 - d) * s == scaled / 2.0 - d * s && (u / 2.0 + d) * s == scaled / 2.0 + d * s;
    assert d * s == z * s - y * s;
  }

  lemma BelowReciprocal(unit: real, b: real)
    requires unit > 0.0 && b > 0.0 && unit * b <= 1.0
    ensures unit / 2.0 < 1.0 / b
  {
    var r := 1.0 / b;
    assert r * b == 1.0;
    assert (r - unit) * b >= 0.0;
  }

  lemma Reassociate(x: real, y: real, z: real)
    ensures x * y * z == x * (y * z)
  {
  }

  lemma Cancel(y: real, s: real, t: real)
    requires s * t == 1.0
    ensures y * s * t == y
  {
    Reassociate(y, s, t);
  }

  lemma WholeAtScale(e: int, y: real, z: real, k: int, q: int)
    requires RoundsAt(y, z, k) && k + e <= 0 && y * Pow10(e) == q as real
    ensures z == y
  {
    hide Pow10, RoundsAt;
    var whole := PowerIsWhole(-k - e);
    PowersMultiply(-k - e, k);
    PowersMultiply(-e, e);
    ZerothPower();
    Cancel(y, Pow10(e), Pow10(-e));
    Reassociate(q as real, whole as real, Pow10(k));
    assert (q * whole) as real == q as real * whole as real;
    WholeUnitsStay(y, z, k, q * whole);
  }

  /** The error left after scaling. */
  lemma ScaledRoundingError(e: int, y: real, z: real, k: int)
    requires RoundsAt(y, z, k)
    ensures y * Pow10(e) - Pow10(k + e) / 2.0 <= z * Pow10(e) <= y * Pow10(e) + Pow10(k + e) / 2.0
  {
    hide Pow10, RoundsAt;
    RoundingError(y, z, k);
    PowersMultiply(k, e);
    ScaledError(y, z, Pow10(e), Pow10(k), Pow10(k + e));
  }

  lemma FinerThanQuotient(x: real, y: real, unit: real, limit: real)
    requires y - unit / 2.0 <= x <= y + unit / 2.0 && unit / 2.0 < limit
    ensures Abs(x - y) < limit
  {
  }

  /** The ceiling of a scaled quotient survives a rounding whose unit is fine enough. */
  lemma FineRoundingKeepsCeiling(a: int, b: int, e: int, y: real, z: real, k: int, x: real)
    requires b > 0 && y * Pow10(e) == a as real / b as real && RoundsAt(y, z, k)
    requires k + e <= 0 && Pow10(k + e) * b as real <= 1.0
    requires x == z * Pow10(e)
    ensures Ceiling(x) == CeilDiv(a, b)
  {
    hide Pow10, RoundsAt, CeilDiv, Ceiling;
    ScaledRoundingError(e, y, z, k);
    BelowReciprocal(Pow10(k + e), b as real);
    if a % b == 0 {
      WholeCeiling(a, b);
      WholeQuotient(a, b, a / b);
      WholeAtScale(e, y, z, k, a / b);
    }
    FinerThanQuotient(x, a as real / b as real, Pow10(k + e), 1.0 / b as real);
    SmallErrorKeepsCeiling(a, b, x);
  }

  /** Of a number below ten to the `n`, the last of 28 digits is at least that far behind the point. */
  lemma ScaleIsFine(y: real, z: real, k: int, n: int)
    requires RoundsAt(y, z, k) && Abs(y) < Pow10(n)
    ensures k + 28 <= n
  {
    hide Pow10;
    if n <= k + 27 {
      PowersGrow(n, k + 27);
    }
  }

  lemma Thousandth()
    ensures Pow10(-3) == 0.001
  {
    assert Pow10(-1) == 0.1 && Pow10(-2) == 0.01;
  }

  lemma Thousand()
    ensures Pow10(3) == 1000.0
  {
    assert Pow10(1) == 10.0 && Pow10(2) == 100.0;
  }

  lemma OneIsBelowTen()
    ensures Pow10(1) == 10.0
  {
  }

  lemma Shrunk(u: real, b: real, maxUnit: real, maxB: real)
    requires 0.0 < u <= maxUnit && 0.0 < b <= maxB && maxUnit * maxB == 1.0
    ensures u * b <= 1.0
  {
    assert (maxUnit - u) * b >= 0.0;
    assert maxUnit * (maxB - b) >= 0.0;
  }

  lemma PositiveQuotient(a: real, b: real)
    requires a > 0.0 && b > 0.0
    ensures a / b > 0.0
  {
  }

  lemma ScaledQuotient(n: int, p: int)
    requires p > 0
    ensures (1000 * n) as real / p as real == 1000.0 * (n as real / p as real)
  {
    var x := n as real / p as real;
    assert x * p as real == n as real;
    assert (1000 * n) as real == 1000.0 * x * p as real;
  }

  lemma NonZeroRatio(d: real, p: real)
    requires p > 0.0 && d != 0.0
    ensures d / p != 0.0
  {
    assert d / p * p == d;
  }

  lemma Hundredth()
    ensures Pow10(-2) == 0.01
  {
    assert Pow10(-1) == 0.1;
  }

  /**
   The sell price: the quotient is rounded to 28 digits before its ceiling is taken, which never
   changes it as long as the quotient stays below ten to the 25.
   */
  lemma SellPriceIsUnaffected(c: int, target: int, z: real)
    requires c >= 0 && 0 <= target < 1000
    requires 1000.0 * c as real / (1000 - target) as real < Pow10(25)
    requires IsRounded(1000.0 * c as real / (1000 - target) as real, z)
    ensures Ceiling(z) == CeilDiv(1000 * c, 1000 - target)
  {
    hide Pow10, CeilDiv, RoundsAt;
    var a, b := 1000 * c, 1000 - target;
    var y := 1000.0 * c as real / b as real;
    assert a as real == 1000.0 * c as real;
    assert y >= 0.0;
    if c == 0 {
      assert y == 0.0;
      CeilDivIsLeast(0, b, 0);
      CeilDivIsLeast(0, b, -1);
    } else {
      PositiveQuotient(a as real, b as real);
      var k :| RoundsAt(y, z, k);
      ScaleIsFine(y, z, k, 25);
      PowersGrow(k, -3);
      ZerothPower();
      Thousandth();
      Shrunk(Pow10(k), b as real, 0.001, 1000.0);
      FineRoundingKeepsCeiling(a, b, 0, y, z, k, z);
    }
  }

  /** The bound cannot be raised: right above it the rounding can swallow the part that calls for one more cent. */
  lemma SellPriceBoundIsSharp() returns (c: int, z: real)
    ensures Pow10(25) <= 1000.0 * c as real / 999.0 <= Pow10(25) + 2.0
    ensures IsRounded(1000.0 * c as real / 999.0, z) && Ceiling(z) == CeilDiv(1000 * c, 999) - 1
  {
    hide Pow10, CeilDiv;
    var n := PowerIsWhole(22);
    PowersMultiply(22, 3);
    Thousand();
    var whole := 1000 * n + 1;
    c, z := 999 * n + 1, whole as real;
    var y := 1000.0 * c as real / 999.0;
    assert 1000 * c == 999 * whole + 1;
    assert y == whole as real + 1.0 / 999.0;
    PowersMultiply(-2, 27);
    NextPower(25);
    Hundredth();
    RoundHalfEvenIsUnique(y / 0.01, 100 * whole);
    assert RoundsAt(y, z, -2);
    CeilDivIsLeast(1000 * c, 999, whole);
    CeilDivIsLeast(1000 * c, 999, whole + 1);
  }

  lemma DividedOut(scaled: real, unit: real, size: real, p: real)
    requires size > 0.0 && scaled == unit * size && scaled * p <= size
    ensures unit * p <= 1.0
  {
    assert unit * p > 1.0 ==> (unit * p - 1.0) * size > 0.0;
    assert unit * p * size == scaled * p;
  }

  lemma FarBehindThePoint(k: int, p: real)
    requires p >= 1.0 && Pow10(k + 27) * p <= Pow10(24)
    ensures k + 3 <= 0 && Pow10(k + 3) * p <= 1.0
  {
    hide Pow10;
    PowersMultiply(k + 3, 24);
    DividedOut(Pow10(k + 27), Pow10(k + 3), Pow10(24), p);
    ProductIsNotNegative(Pow10(k + 3), p - 1.0);
    if k + 3 > 0 {
      PowersGrow(1, k + 3);
      OneIsBelowTen();
    }
  }

  lemma QuotientBelow(d: real, p: real, unit: real)
    requires p > 0.0 && unit <= Abs(d / p)
    ensures unit * p <= Abs(d)
  {
    var x := d / p;
    assert x * p == d;
    ProductIsNotNegative(Abs(x) - unit, p);
  }

  /** The digits of a ratio reach far enough, however large the ratio, if its numerator is bounded. */
  lemma RatioIsFine(d: int, p: int, z: real, k: int)
    requires p > 0 && Abs(d as real) <= Pow10(24) && RoundsAt(d as real / p as real, z, k)
    ensures k + 3 <= 0 && Pow10(k + 3) * p as real <= 1.0
  {
    hide Pow10;
    QuotientBelow(d as real, p as real, Pow10(k + 27));
    FarBehindThePoint(k, p as real);
  }

  /**
   The margin: the ratio is rounded to 28 digits, multiplied by a thousand (which adds no digits) and
   then its ceiling taken; whatever the cost, that is the exact ceiling as long as price and cost are
   at most ten to the 24 apart.
   */
  lemma MarginIsUnaffected(c: int, p: int, z: real)
    requires p > 0 && Abs((p - c) as real) <= Pow10(24)
    requires IsRounded((p - c) as real / p as real, z)
    ensures Ceiling(1000.0 * z) == ActualMargin(c, p)
  {
    hide Pow10, CeilDiv, RoundsAt;
    var a := 1000 * (p - c);
    var y := (p - c) as real / p as real;
    assert a as real / p as real == 1000.0 * y by { ScaledQuotient(p - c, p); }
    if c == p {
      assert y == 0.0;
      CeilDivIsLeast(0, p, 0);
      CeilDivIsLeast(0, p, -1);
    } else {
      NonZeroRatio((p - c) as real, p as real);
      var k :| RoundsAt(y, z, k);
      RatioIsFine(p - c, p, z, k);
      Thousand();
      FineRoundingKeepsCeiling(a, p, 3, y, z, k, 1000.0 * z);
    }
  }

  lemma Grows(a: real, b: real, x: real)
    requires a < b && x > 0.0
    ensures a * x < b * x
  {
    assert (b - a) * x > 0.0;
  }

  lemma Halved(big: real, x: real, limit: real)
    requires 2.0 * big * x < limit
    ensures big * x < limit / 2.0
  {
  }

  lemma PositiveFactor(p: real, x: real)
    requires p > 0.0 && p * x > 0.0
    ensures x > 0.0
  {
    assert x == p * x / p;
  }

  lemma BelowHalf(p: real, big: real, x: real)
    requires p > 2.0 * big > 0.0 && p * x == 1.0
    ensures x > 0.0 && big * x < 0.5
  {
    PositiveFactor(p, x);
    Grows(2.0 * big, p, x);
    Halved(big, x, p * x);
  }

  lemma TinyPart(y: real, p: real, big: real)
    requires p > 2.0 * big && big >= 1.0 && p * (1000.0 * y - 101.0) == 1.0
    ensures 0.101 < y < 0.102 && 0.0 < 1000.0 * y * big - 101.0 * big < 0.5
  {
    BelowHalf(p, big, 1000.0 * y - 101.0);
    BelowHalf(p, 1.0, 1000.0 * y - 101.0);
    assert big * (1000.0 * y - 101.0) == 1000.0 * y * big - 101.0 * big;
    assert big * (1000.0 * y - 101.0) > 0.0;
  }

  lemma ThousandthsOf(y: real, big: real, u: real)
    requires big * u == 0.001
    ensures y == 1000.0 * y * big * u && 0.101 == 101.0 * big * u
  {
    Reassociate(1000.0 * y, big, u);
    Reassociate(101.0, big, u);
  }

  lemma CloseUnitsAreLost(y: real, z: real, k: int, x: real, n: int)
    requires Pow10(k + 27) <= Abs(y) < Pow10(k + 28) && y == x * Pow10(k)
    requires Abs(x - n as real) < 0.5 && z == n as real * Pow10(k)
    ensures RoundsAt(y, z, k)
  {
    hide Pow10, RoundHalfEven;
    DividesBack(y, x, Pow10(k));
    RoundHalfEvenIsUnique(x, n);
  }

  /** A number that little above 0.101 loses what it has more. */
  lemma TinyPartIsLost(y: real, whole: int)
    requires Pow10(25) == whole as real && 0.101 < y < 0.102
    requires 0.0 < 1000.0 * y * Pow10(25) - 101.0 * Pow10(25) < 0.5
    ensures RoundsAt(y, 0.101, -28)
  {
    hide Pow10, RoundsAt;
    PowersMultiply(25, -28);
    Thousandth();
    ZerothPower();
    NextPower(-1);
    ThousandthsOf(y, Pow10(25), Pow10(-28));
    CloseUnitsAreLost(y, 0.101, -28, 1000.0 * y * Pow10(25), 101 * whole);
  }

  /** Three times that distance is too far: the rounding can swallow the part that calls for one more tenth. */
  lemma MarginBoundIsSharp() returns (c: int, p: int, z: real)
    ensures 0 < c < p && Pow10(24) < (p - c) as real <= 3.0 * Pow10(24)
    ensures IsRounded((p - c) as real / p as real, z) && Ceiling(1000.0 * z) == ActualMargin(c, p) - 1
  {
    hide Pow10, CeilDiv, RoundsAt;
    var n := PowerIsWhole(22);
    NextPower(22);
    NextPower(23);
    NextPower(24);
    var m := 2 * n + 1;
    c, p, z := 899 * m + 89, 1000 * m + 99, 0.101;
    var y, rp := (p - c) as real / p as real, p as real;
    assert 1000 * (p - c) == 101 * p + 1;
    assert y * rp == (p - c) as real;
    TinyPart(y, rp, Pow10(25));
    TinyPartIsLost(y, 1000 * n);
    CeilDivIsLeast(1000 * (p - c), p, 101);
    CeilDivIsLeast(1000 * (p - c), p, 102);
  }
}
