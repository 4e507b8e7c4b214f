/**
 The demo pricing policy (pricing_policy.py): target margin, sell price, commercial rounding,
 actual margin.  Percentages are in tenths of a percent, amounts in minor units.
 */
module Pricing {
  import opened Base
  import opened Moneys

  datatype Profile = Profile(profileId: string, baseMargin: int, fxRiskAdjustment: int, maxTargetMargin: int)

  const STANDARD := Profile("standard", 180, 20, 300)
  const STRATEGIC := Profile("strategic-account", 120, 20, 250)

  /** An unknown or absent reference falls back to the standard profile. */
  function ResolveProfile(marginFloorRef: Option<string>): Profile {
    if marginFloorRef == Some("strategic-account") then STRATEGIC else STANDARD
  }

  function TargetMargin(p: Profile, fxOverThreshold: bool): int {
    MinInt(p.baseMargin + (if fxOverThreshold then p.fxRiskAdjustment else 0), p.maxTargetMargin)
  }

  /** The least integer not below `a / b`. */
  function CeilDiv(a: int, b: int): int
    requires b > 0
  {
    (a + b - 1) / b
  }

  function CalculateSellPrice(total: Money, target: int): Result<Money, MoneyError> {
    if !(0 <= target < 1000) then Err(InvalidMargin)
    else Make(CeilDiv(1000 * total.amountMinor, 1000 - target), total.currency, total.minorUnit)
  }

  function Band(cents: int): int {
    if cents < 100_000 then 500 else if cents < 1_000_000 then 1_000 else 5_000
  }

  function RoundUpCents(cents: int): int {
    var remainder := cents % Band(cents);
    if remainder == 0 then cents else cents + (Band(cents) - remainder)
  }

  function CommercialRoundUp(m: Money): Result<Money, MoneyError> {
    Make(RoundUpCents(m.amountMinor), m.currency, m.minorUnit)
  }

  function MarginPctX10(total: Money, sell: Money): Result<int, MoneyError> {
    if sell.amountMinor <= 0 then Err(InvalidMargin)
    else Ok(CeilDiv(1000 * (sell.amountMinor - total.amountMinor), sell.amountMinor))
  }

  // ---------------------------------------------------------------- ceilings

  lemma {:induction false} ProductGrows(x: int, y: int, b: int)
    requires x <= y && b > 0
    ensures x * b <= y * b
    decreases y - x
  {
    if x < y {
      ProductGrows(x, y - 1, b);
      assert y * b == (y - 1) * b + b;
    }
  }

  lemma DivisionIs(a: int, b: int)
    requires b > 0
    ensures a == a / b * b + a % b && 0 <= a % b < b
  {
  }

  /** Division with ceiling is the lower adjoint of multiplication. */
  lemma CeilDivIsLeast(a: int, b: int, q: int)
    requires b > 0
    ensures CeilDiv(a, b) <= q <==> a <= q * b
  {
    var n := CeilDiv(a, b);
    DivisionIs(a + b - 1, b);
    assert (n - 1) * b == n * b - b;
    if n <= q {
      ProductGrows(n, q, b);
    } else {
      ProductGrows(q, n - 1, b);
    }
  }

  lemma {:induction false} PositiveMultiple(k: int, b: int)
    requires k >= 1 && b > 0
    ensures k * b >= b
  {
    if k > 1 {
      PositiveMultiple(k - 1, b);
      assert k * b == (k - 1) * b + b;
    }
  }

  lemma SmallMultipleIsZero(k: int, b: int, r: int)
    requires b > 0 && k * b == r && -b < r < b
    ensures k == 0 && r == 0
  {
    if k >= 1 {
      PositiveMultiple(k, b);
    } else if k <= -1 {
      assert -k * b == -(k * b);
      PositiveMultiple(-k, b);
    }
  }

  lemma MultipleHasNoRemainder(m: int, b: int)
    requires b > 0
    ensures (m * b) % b == 0
  {
    var q, r := (m * b) / b, (m * b) % b;
    assert m * b == q * b + r;
    SmallMultipleIsZero(m - q, b, r);
  }

  // ---------------------------------------------------------------- commercial rounding

  /** Prices a customer may see: multiples of the band they lie in. */
  predicate OnGrid(p: int) {
    p % Band(p) == 0
  }

  lemma NextMultiple(c: int, band: int, q: int)
    requires band > 0
    ensures var r := c % band;
            var up := if r == 0 then c else c + (band - r);
            up % band == 0 && c <= up < c + band && (q % band == 0 && c <= q ==> up <= q)
  {
    var r := c % band;
    var m := if r == 0 then c / band else c / band + 1;
    var up := if r == 0 then c else c + (band - r);
    DivisionIs(c, band);
    DivisionIs(q, band);
    assert (c / band + 1) * band == c / band * band + band;
    assert up == m * band;
    MultipleHasNoRemainder(m, band);
    if m <= q / band {
      ProductGrows(m, q / band, band);
    } else {
      ProductGrows(q / band, m - 1, band);
      assert (m - 1) * band == m * band - band;
    }
  }

  lemma GridPointsAreFinerMultiples(p: int, c: int)
    requires OnGrid(p) && c <= p
    ensures p % Band(c) == 0
  {
    if p >= 1_000_000 {
      assert p == 5_000 * (p / 5_000) == 1_000 * (5 * (p / 5_000)) == 500 * (10 * (p / 5_000));
    } else if p >= 100_000 {
      assert p == 1_000 * (p / 1_000) == 500 * (2 * (p / 1_000));
    }
  }

  /** Rounding up yields the least grid price not below the amount, also across the band edges. */
  lemma RoundUpIsLeastGridPrice(c: int, q: int)
    ensures OnGrid(RoundUpCents(c)) && c <= RoundUpCents(c) < c + Band(c)
    ensures OnGrid(q) && c <= q ==> RoundUpCents(c) <= q
  {
    NextMultiple(c, Band(c), q);
    if c < 100_000 {
      NextMultiple(c, 500, 100_000);
    } else if c < 1_000_000 {
      NextMultiple(c, 1_000, 1_000_000);
    }
    if OnGrid(q) && c <= q {
      GridPointsAreFinerMultiples(q, c);
    }
  }

  /** Hence it is a closure operator: extensive, monotone and idempotent. */
  lemma RoundUpIsClosure(c: int, d: int)
    ensures c <= RoundUpCents(c)
    ensures c <= d ==> RoundUpCents(c) <= RoundUpCents(d)
    ensures RoundUpCents(RoundUpCents(c)) == RoundUpCents(c)
  {
    RoundUpIsLeastGridPrice(c, RoundUpCents(d));
    RoundUpIsLeastGridPrice(d, RoundUpCents(d));
    RoundUpIsLeastGridPrice(c, RoundUpCents(c));
    RoundUpIsLeastGridPrice(RoundUpCents(c), RoundUpCents(c));
  }

  // ---------------------------------------------------------------- the price

  /** Selling at `p` leaves at least the target margin on cost `c`. */
  predicate Complies(p: int, c: int, target: int) {
    p * (1000 - target) >= 1000 * c
  }

  function SellCents(c: int, target: int): int
    requires 0 <= target < 1000
  {
    RoundUpCents(CeilDiv(1000 * c, 1000 - target))
  }

  /** The customer price is the least grid price that complies. */
  lemma LeastCompliantPrice(c: int, target: int, q: int)
    requires 0 <= target < 1000
    ensures OnGrid(SellCents(c, target)) && Complies(SellCents(c, target), c, target)
    ensures OnGrid(q) && Complies(q, c, target) ==> SellCents(c, target) <= q
  {
    var n := CeilDiv(1000 * c, 1000 - target);
    RoundUpIsLeastGridPrice(n, q);
    CeilDivIsLeast(1000 * c, 1000 - target, SellCents(c, target));
    CeilDivIsLeast(1000 * c, 1000 - target, q);
  }

  /** The price functions composed, as the calculator does, produce that price. */
  lemma ComposedPrice(total: Money, target: int)
    requires total.amountMinor >= 0 && 0 <= target < 1000
    ensures CalculateSellPrice(total, target).Ok?
    ensures var sell := CommercialRoundUp(CalculateSellPrice(total, target).value);
            && sell == Ok(Money(SellCents(total.amountMinor, target), total.currency, total.minorUnit))
            && (sell.value.amountMinor > 0 <==> total.amountMinor > 0)
  {
    var c := total.amountMinor;
    CeilDivIsLeast(1000 * c, 1000 - target, -1);
    CeilDivIsLeast(1000 * c, 1000 - target, 0);
    RoundUpIsLeastGridPrice(CeilDiv(1000 * c, 1000 - target), 0);
  }

  function ActualMargin(c: int, p: int): int
    requires p > 0
  {
    CeilDiv(1000 * (p - c), p)
  }

  lemma CompliantPriceHasMargin(c: int, target: int, p: int)
    requires p > 0 && Complies(p, c, target)
    ensures ActualMargin(c, p) >= target
  {
    CeilDivIsLeast(1000 * (p - c), p, target - 1);
    assert p * (1000 - target) == 1000 * p - p * target;
    assert (target - 1) * p == p * target - p;
  }

  lemma PositiveCostHasPositivePrice(c: int, target: int)
    requires c > 0 && 0 <= target < 1000
    ensures SellCents(c, target) > 0
  {
    ComposedPrice(Money(c, "EUR", 2), target);
  }

  /** R1 as evaluated: the margin after rounding against the profile's floor. */
  predicate MeetsFloor(p: Profile, c: int, fxOverThreshold: bool)
    requires c > 0 && 0 <= TargetMargin(p, fxOverThreshold) < 1000
  {
    PositiveCostHasPositivePrice(c, TargetMargin(p, fxOverThreshold));
    ActualMargin(c, SellCents(c, TargetMargin(p, fxOverThreshold))) >= p.baseMargin
  }

  ghost predicate NeverBelowFloor(p: Profile)
    requires forall fx :: 0 <= TargetMargin(p, fx) < 1000
  {
    forall c, fx :: c > 0 ==> MeetsFloor(p, c, fx)
  }

  /** A cost whose unrounded price is a round one gets exactly the target margin. */
  lemma CappedProfileMisses(t: int)
    requires 0 <= t < 1000
    ensures (1000 - t) * 5_000 > 0
    ensures SellCents((1000 - t) * 5_000, t) == 5_000_000
    ensures ActualMargin((1000 - t) * 5_000, 5_000_000) == t
  {
    var c, d := (1000 - t) * 5_000, 1000 - t;
    CeilDivIsLeast(1000 * c, d, 5_000_000);
    CeilDivIsLeast(1000 * c, d, 4_999_999);
    assert 1000 * c == 5_000_000 * d;
    assert 4_999_999 * d == 5_000_000 * d - d;
    assert CeilDiv(1000 * c, d) == 5_000_000;
  }

  /**
   R1 can never fall below the floor if and only if the profile's base margin does not exceed
   its own cap and its FX adjustment is no discount: a condition on the profile alone, for every
   cost.
   */
  lemma FloorIsSafeIff(p: Profile)
    requires forall fx :: 0 <= TargetMargin(p, fx) < 1000
    ensures NeverBelowFloor(p) <==> p.baseMargin <= p.maxTargetMargin && p.fxRiskAdjustment >= 0
  {
    if p.baseMargin <= p.maxTargetMargin && p.fxRiskAdjustment >= 0 {
      forall c, fx | c > 0
        ensures MeetsFloor(p, c, fx)
      {
        var t := TargetMargin(p, fx);
        PositiveCostHasPositivePrice(c, t);
        LeastCompliantPrice(c, t, 0);
        CompliantPriceHasMargin(c, t, SellCents(c, t));
      }
    } else {
      var fx := p.fxRiskAdjustment < 0;
      var t := TargetMargin(p, fx);
      CappedProfileMisses(t);
      assert !MeetsFloor(p, (1000 - t) * 5_000, fx);
    }
  }

  lemma ShippedProfilesAreSafe(marginFloorRef: Option<string>)
    ensures var p := ResolveProfile(marginFloorRef);
            (forall fx :: 0 <= TargetMargin(p, fx) < 1000) && NeverBelowFloor(p)
  {
    FloorIsSafeIff(ResolveProfile(marginFloorRef));
  }
}
